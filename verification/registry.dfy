/** database.py: the SQLite store as an immutable value. Three tables: users
    keyed by Telegram id, registered game ids (rows are soft-deleted, never
    removed), and an append-only send history. Timestamps are supplied by the
    caller as an opaque `now`. */
module Registry {
  import opened Wrappers

  datatype UserRecord = UserRecord(username: Option<string>, active: bool)

  /** One `game_ids` row. */
  datatype GameIdRow = GameIdRow(
    telegramId: int,
    gameId: string,
    playerName: Option<string>,
    lastLikesSent: Option<string>,
    totalLikesReceived: int,
    active: bool)

  /** One `send_history` row. */
  datatype SendRecord = SendRecord(
    telegramId: int,
    gameId: string,
    likesSent: int,
    success: bool,
    errorMessage: Option<string>,
    playerName: Option<string>,
    isAuto: bool)

  datatype Store = Store(users: map<int, UserRecord>, gameIds: seq<GameIdRow>, history: seq<SendRecord>)

  const EmptyStore: Store := Store(map[], [], [])

  // ---------------------------------------------------------------- users

  /** `add_user`: false and no change for a known id (active or not);
      otherwise the user is inserted, active, and the result is true. */
  function AddUser(s: Store, telegramId: int, username: Option<string>): (r: (Store, bool))
    ensures telegramId in s.users ==> r == (s, false)
    ensures telegramId !in s.users ==> r.1
    ensures telegramId !in s.users ==> r.0 == s.(users := s.users[telegramId := UserRecord(username, true)])
    ensures telegramId in r.0.users && r.0.users.Keys == s.users.Keys + {telegramId}
  {
    if telegramId in s.users then (s, false)
    else (s.(users := s.users[telegramId := UserRecord(username, true)]), true)
  }

  /** Adding a user a second time changes nothing and reports false. */
  lemma AddUserIdempotent(s: Store, telegramId: int, username: Option<string>, again: Option<string>)
    ensures AddUser(AddUser(s, telegramId, username).0, telegramId, again) == (AddUser(s, telegramId, username).0, false)
  {
  }

  // ------------------------------------------------------------- game ids

  predicate Matches(row: GameIdRow, telegramId: int, gameId: string) {
    row.telegramId == telegramId && row.gameId == gameId
  }

  /** There is an active row for this user and game id. */
  predicate HasActive(rows: seq<GameIdRow>, telegramId: int, gameId: string) {
    exists i :: 0 <= i < |rows| && rows[i].active && Matches(rows[i], telegramId, gameId)
  }

  const DuplicateMessage: string := "❌ Este ID já está cadastrado na sua lista!"
  const AddedMessage: string := "✅ ID adicionado com sucesso! Likes serão enviados automaticamente à meia-noite."

  function NewRow(telegramId: int, gameId: string): GameIdRow {
    GameIdRow(telegramId, gameId, None, None, 0, true)
  }

  /** `add_game_id`: rejected, with no change, when the user already has an
      active row for the id; otherwise one active row with no player name,
      no send date and a zero total is appended. The other tables never
      change. */
  function AddGameId(s: Store, telegramId: int, gameId: string): (r: (Store, bool, string))
    ensures HasActive(s.gameIds, telegramId, gameId) ==> r == (s, false, DuplicateMessage)
    ensures !HasActive(s.gameIds, telegramId, gameId) ==>
      r.1 && r.2 == AddedMessage && r.0.gameIds == s.gameIds + [NewRow(telegramId, gameId)]
    ensures r.0.users == s.users && r.0.history == s.history
  {
    if HasActive(s.gameIds, telegramId, gameId) then (s, false, DuplicateMessage)
    else (s.(gameIds := s.gameIds + [NewRow(telegramId, gameId)]), true, AddedMessage)
  }

  /** After a successful `add_game_id` the id is active for the user, so
      adding it again is rejected. */
  lemma AddGameIdRejectsRepeat(s: Store, telegramId: int, gameId: string)
    ensures HasActive(AddGameId(s, telegramId, gameId).0.gameIds, telegramId, gameId)
    ensures AddGameId(AddGameId(s, telegramId, gameId).0, telegramId, gameId).1 == false
  {
    var s' := AddGameId(s, telegramId, gameId).0;
    if !HasActive(s.gameIds, telegramId, gameId) {
      assert s'.gameIds[|s.gameIds|] == NewRow(telegramId, gameId);
    }
  }

  /** `remove_game_id`: clears `active` on every row of that user and id,
      active or not; no row is removed, no other row or field changes. The
      source reports true. */
  function RemoveGameId(s: Store, telegramId: int, gameId: string): (r: (Store, bool))
    ensures r.1
    ensures r.0.users == s.users && r.0.history == s.history
    ensures |r.0.gameIds| == |s.gameIds|
    ensures forall i :: 0 <= i < |s.gameIds| ==>
      r.0.gameIds[i] == (if Matches(s.gameIds[i], telegramId, gameId) then s.gameIds[i].(active := false) else s.gameIds[i])
    ensures !HasActive(r.0.gameIds, telegramId, gameId)
  {
    var rows := seq(|s.gameIds|, i requires 0 <= i < |s.gameIds| =>
      if Matches(s.gameIds[i], telegramId, gameId) then s.gameIds[i].(active := false) else s.gameIds[i]);
    (s.(gameIds := rows), true)
  }

  /** `update_game_id_info`: on the active rows of that user and id, sets the
      player name and the send date and adds `likesAdded` to the total;
      nothing else changes. */
  function UpdateGameIdInfo(s: Store, telegramId: int, gameId: string, player: string, likesAdded: int, now: string): (r: Store)
    ensures r.users == s.users && r.history == s.history
    ensures |r.gameIds| == |s.gameIds|
    ensures forall i :: 0 <= i < |s.gameIds| ==>
      r.gameIds[i] == (if s.gameIds[i].active && Matches(s.gameIds[i], telegramId, gameId)
        then s.gameIds[i].(playerName := Some(player), lastLikesSent := Some(now),
                           totalLikesReceived := s.gameIds[i].totalLikesReceived + likesAdded)
        else s.gameIds[i])
  {
    var rows := seq(|s.gameIds|, i requires 0 <= i < |s.gameIds| =>
      var row := s.gameIds[i];
      if row.active && Matches(row, telegramId, gameId)
      then row.(playerName := Some(player), lastLikesSent := Some(now),
                totalLikesReceived := row.totalLikesReceived + likesAdded)
      else row);
    s.(gameIds := rows)
  }

  /** An update with a non-negative count never lowers a total, leaves the
      owner, id and active flag of every row as they were, and raises the
      total of exactly the active matching rows by the count. */
  lemma UpdateOnlyIncrements(s: Store, telegramId: int, gameId: string, player: string, likesAdded: nat, now: string)
    ensures var r := UpdateGameIdInfo(s, telegramId, gameId, player, likesAdded, now);
      forall i :: 0 <= i < |s.gameIds| ==>
        && r.gameIds[i].totalLikesReceived >= s.gameIds[i].totalLikesReceived
        && r.gameIds[i].telegramId == s.gameIds[i].telegramId
        && r.gameIds[i].gameId == s.gameIds[i].gameId
        && r.gameIds[i].active == s.gameIds[i].active
        && (r.gameIds[i].totalLikesReceived == s.gameIds[i].totalLikesReceived + likesAdded
            <==> likesAdded == 0 || (s.gameIds[i].active && Matches(s.gameIds[i], telegramId, gameId)))
  {
  }

  // --------------------------------------------------------------- history

  /** `log_send`: appends exactly one row; earlier rows are untouched. */
  function LogSend(s: Store, record: SendRecord): (r: Store)
    ensures |r.history| == |s.history| + 1
    ensures r.history[..|s.history|] == s.history && r.history[|s.history|] == record
    ensures r.users == s.users && r.gameIds == s.gameIds
  {
    s.(history := s.history + [record])
  }

  // ---------------------------------------------------------------- queries

  /** `get_user_game_ids`: the user's active rows, in store order, each once:
      as many rows as the user has active ids, carrying those ids in order. */
  function GetUserGameIds(s: Store, telegramId: int): (r: seq<GameIdRow>)
    ensures forall k :: 0 <= k < |r| ==> r[k].active && r[k].telegramId == telegramId && r[k] in s.gameIds
    ensures forall i :: 0 <= i < |s.gameIds| && s.gameIds[i].active && s.gameIds[i].telegramId == telegramId ==> s.gameIds[i] in r
    ensures |r| == |IdsOf(s.gameIds, telegramId)|
    ensures forall k :: 0 <= k < |r| ==> r[k].gameId == IdsOf(s.gameIds, telegramId)[k]
  {
    OwnRowsIds(s.gameIds, telegramId);
    OwnRows(s.gameIds, telegramId)
  }

  /** The user's rows are taken once each: their ids are the user's active
      ids, in order. */
  lemma {:induction false} OwnRowsIds(rows: seq<GameIdRow>, telegramId: int)
    ensures |OwnRows(rows, telegramId)| == |IdsOf(rows, telegramId)|
    ensures forall k :: 0 <= k < |OwnRows(rows, telegramId)| ==>
      OwnRows(rows, telegramId)[k].gameId == IdsOf(rows, telegramId)[k]
  {
    if rows != [] {
      OwnRowsIds(rows[1..], telegramId);
      var rest, restIds := OwnRows(rows[1..], telegramId), IdsOf(rows[1..], telegramId);
      if rows[0].active && rows[0].telegramId == telegramId {
        assert OwnRows(rows, telegramId) == [rows[0]] + rest;
        assert IdsOf(rows, telegramId) == [rows[0].gameId] + restIds;
      } else {
        assert OwnRows(rows, telegramId) == rest;
        assert IdsOf(rows, telegramId) == restIds;
      }
    }
  }

  function OwnRows(rows: seq<GameIdRow>, telegramId: int): (r: seq<GameIdRow>)
    ensures forall k :: 0 <= k < |r| ==> r[k].active && r[k].telegramId == telegramId && r[k] in rows
    ensures forall i :: 0 <= i < |rows| && rows[i].active && rows[i].telegramId == telegramId ==> rows[i] in r
  {
    if rows == [] then []
    else
      var rest := OwnRows(rows[1..], telegramId);
      assert forall i :: 1 <= i < |rows| ==> rows[i] == rows[1..][i - 1];
      if rows[0].active && rows[0].telegramId == telegramId then [rows[0]] + rest else rest
  }

  /** The telegram ids of the active rows, in row order, repeats included. */
  function ActiveOwners(rows: seq<GameIdRow>): (r: seq<int>)
    ensures |r| <= |rows|
  {
    if rows == [] then []
    else (if rows[0].active then [rows[0].telegramId] else []) + ActiveOwners(rows[1..])
  }

  function CountActive(rows: seq<GameIdRow>): nat {
    if rows == [] then 0 else (if rows[0].active then 1 else 0) + CountActive(rows[1..])
  }

  /** The game ids of one user's active rows, in row order. */
  function IdsOf(rows: seq<GameIdRow>, telegramId: int): seq<string> {
    if rows == [] then []
    else
      var here := if rows[0].active && rows[0].telegramId == telegramId then [rows[0].gameId] else [];
      here + IdsOf(rows[1..], telegramId)
  }

  function Occurrences(xs: seq<int>, x: int): nat {
    if xs == [] then 0 else (if xs[0] == x then 1 else 0) + Occurrences(xs[1..], x)
  }

  lemma {:induction false} OccurrencesAppend(a: seq<int>, b: seq<int>, x: int)
    ensures Occurrences(a + b, x) == Occurrences(a, x) + Occurrences(b, x)
  {
    if a != [] {
      assert (a + b)[1..] == a[1..] + b;
      OccurrencesAppend(a[1..], b, x);
    } else {
      assert a + b == b;
    }
  }

  lemma {:induction false} IdsOfCount(rows: seq<GameIdRow>, telegramId: int)
    ensures |IdsOf(rows, telegramId)| == Occurrences(ActiveOwners(rows), telegramId)
  {
    if rows != [] {
      IdsOfCount(rows[1..], telegramId);
      var head := if rows[0].active then [rows[0].telegramId] else [];
      OccurrencesAppend(head, ActiveOwners(rows[1..]), telegramId);
    }
  }

  lemma {:induction false} ActiveOwnersCount(rows: seq<GameIdRow>)
    ensures |ActiveOwners(rows)| == CountActive(rows)
  {
    if rows != [] {
      ActiveOwnersCount(rows[1..]);
    }
  }

  function Without(xs: seq<int>, x: int): (r: seq<int>)
    ensures |r| == |xs| - Occurrences(xs, x)
    ensures forall y :: y in r <==> y in xs && y != x
  {
    if xs == [] then []
    else (if xs[0] == x then [] else [xs[0]]) + Without(xs[1..], x)
  }

  lemma {:induction false} OccursWhenMember(xs: seq<int>, x: int)
    requires x in xs
    ensures Occurrences(xs, x) >= 1
  {
    if xs[0] != x {
      OccursWhenMember(xs[1..], x);
    }
  }

  lemma {:induction false} OccurrencesWithout(xs: seq<int>, x: int, y: int)
    requires x != y
    ensures Occurrences(Without(xs, x), y) == Occurrences(xs, y)
  {
    if xs != [] {
      OccurrencesWithout(xs[1..], x, y);
      var head := if xs[0] == x then [] else [xs[0]];
      OccurrencesAppend(head, Without(xs[1..], x), y);
    }
  }

  function MinOf(xs: seq<int>): (m: int)
    requires xs != []
    ensures m in xs && forall y :: y in xs ==> m <= y
  {
    if |xs| == 1 then xs[0]
    else
      var m := MinOf(xs[1..]);
      assert forall y :: y in xs ==> y == xs[0] || y in xs[1..];
      if xs[0] <= m then xs[0] else m
  }

  /** The distinct values of `xs`, ascending: the order `ORDER BY telegram_id`
      gives the keys of the grouped dictionary. */
  function SortedDistinct(xs: seq<int>): (r: seq<int>)
    ensures forall i, j :: 0 <= i < j < |r| ==> r[i] < r[j]
    ensures forall y :: y in r <==> y in xs
    decreases |xs|
  {
    if xs == [] then []
    else
      var m := MinOf(xs);
      OccursWhenMember(xs, m);
      var rest := SortedDistinct(Without(xs, m));
      assert forall j :: 0 <= j < |rest| ==> rest[j] in Without(xs, m);
      [m] + rest
  }

  /** One entry of the dictionary `get_all_active_game_ids` returns. */
  datatype Group = Group(user: int, ids: seq<string>)

  /** `get_all_active_game_ids`: the active rows grouped by user. Users come
      in ascending id order, each exactly once, each with a non-empty list;
      exactly the users with an active row appear; a user's list holds the
      game ids of that user's active rows in row order. */
  function GetAllActiveGameIds(s: Store): (g: seq<Group>)
    ensures forall i, j :: 0 <= i < j < |g| ==> g[i].user < g[j].user
    ensures forall k :: 0 <= k < |g| ==> g[k].ids == IdsOf(s.gameIds, g[k].user) && g[k].ids != []
    ensures forall u :: u in Users(g) <==> u in ActiveOwners(s.gameIds)
  {
    var us := SortedDistinct(ActiveOwners(s.gameIds));
    var g := seq(|us|, k requires 0 <= k < |us| => Group(us[k], IdsOf(s.gameIds, us[k])));
    forall k | 0 <= k < |g| ensures g[k].ids != [] {
      IdsOfCount(s.gameIds, us[k]);
      OccursWhenMember(ActiveOwners(s.gameIds), us[k]);
    }
    assert Users(g) == us;
    g
  }

  function Users(groups: seq<Group>): (r: seq<int>)
    ensures |r| == |groups| && forall k :: 0 <= k < |groups| ==> r[k] == groups[k].user
  {
    if groups == [] then [] else [groups[0].user] + Users(groups[1..])
  }

  /** `sum(len(ids) for ids in users_ids.values())` */
  function TotalIds(groups: seq<Group>): nat {
    if groups == [] then 0 else |groups[0].ids| + TotalIds(groups[1..])
  }

  function SumOccurrences(us: seq<int>, xs: seq<int>): nat {
    if us == [] then 0 else Occurrences(xs, us[0]) + SumOccurrences(us[1..], xs)
  }

  lemma {:induction false} SumOccurrencesWithout(us: seq<int>, xs: seq<int>, m: int)
    requires m !in us
    ensures SumOccurrences(us, Without(xs, m)) == SumOccurrences(us, xs)
  {
    if us != [] {
      OccurrencesWithout(xs, m, us[0]);
      SumOccurrencesWithout(us[1..], xs, m);
    }
  }

  /** Counting each distinct value's occurrences counts every element once. */
  lemma {:induction false} SortedDistinctPartition(xs: seq<int>)
    ensures SumOccurrences(SortedDistinct(xs), xs) == |xs|
    decreases |xs|
  {
    if xs != [] {
      var m := MinOf(xs);
      OccursWhenMember(xs, m);
      var w := Without(xs, m);
      var rest := SortedDistinct(w);
      SortedDistinctPartition(w);
      assert m !in rest;
      SumOccurrencesWithout(rest, xs, m);
      assert SortedDistinct(xs) == [m] + rest;
      assert ([m] + rest)[1..] == rest;
    }
  }

  /** The grouping loses no row and invents none: the list lengths add up to
      the number of active rows. */
  lemma GroupedCountsActiveRows(s: Store)
    ensures TotalIds(GetAllActiveGameIds(s)) == CountActive(s.gameIds)
  {
    var owners := ActiveOwners(s.gameIds);
    var us := SortedDistinct(owners);
    SortedDistinctPartition(owners);
    ActiveOwnersCount(s.gameIds);
    TotalIdsIsSum(GetAllActiveGameIds(s), us, s.gameIds);
  }

  lemma {:induction false} TotalIdsIsSum(g: seq<Group>, us: seq<int>, rows: seq<GameIdRow>)
    requires |g| == |us|
    requires forall k :: 0 <= k < |g| ==> g[k] == Group(us[k], IdsOf(rows, us[k]))
    ensures TotalIds(g) == SumOccurrences(us, ActiveOwners(rows))
  {
    if g != [] {
      IdsOfCount(rows, us[0]);
      TotalIdsIsSum(g[1..], us[1..], rows);
    }
  }

  // ------------------------------------------------------------- statistics

  function CountSuccesses(h: seq<SendRecord>): (n: nat)
    ensures n <= |h|
  {
    if h == [] then 0 else (if h[0].success then 1 else 0) + CountSuccesses(h[1..])
  }

  /** `COALESCE(SUM(likes_sent), 0) ... WHERE success = 1` */
  function SuccessLikes(h: seq<SendRecord>): int {
    if h == [] then 0 else (if h[0].success then h[0].likesSent else 0) + SuccessLikes(h[1..])
  }

  lemma {:induction false} HistoryAppend(a: seq<SendRecord>, b: seq<SendRecord>)
    ensures CountSuccesses(a + b) == CountSuccesses(a) + CountSuccesses(b)
    ensures SuccessLikes(a + b) == SuccessLikes(a) + SuccessLikes(b)
  {
    if a != [] {
      assert (a + b)[1..] == a[1..] + b;
      HistoryAppend(a[1..], b);
    } else {
      assert a + b == b;
    }
  }

  function ActiveUserCount(users: map<int, UserRecord>): nat {
    |set u | u in users && users[u].active|
  }

  /** The integer parts of `get_stats` (the day count and the percentage are
      not modelled). */
  datatype Stats = Stats(totalUsers: nat, totalIds: nat, totalLikes: int, successes: nat, totalSends: nat)

  /** `get_stats`: the active users, the active registrations, the likes of
      the successful sends, and the successes among all the sends; the
      successes are among the sends, so the success rate's denominator is
      non-zero whenever it has a success to count. */
  function GetStats(s: Store): (st: Stats)
    ensures st.successes <= st.totalSends && st.totalSends == |s.history|
    ensures st.totalIds == CountActive(s.gameIds)
    ensures st.totalUsers == ActiveUserCount(s.users)
    ensures st.totalLikes == SuccessLikes(s.history)
    ensures st.successes == CountSuccesses(s.history)
  {
    Stats(ActiveUserCount(s.users), CountActive(s.gameIds), SuccessLikes(s.history),
          CountSuccesses(s.history), |s.history|)
  }

  /** An empty store reports zero everywhere. */
  lemma EmptyStoreStats()
    ensures GetStats(EmptyStore) == Stats(0, 0, 0, 0, 0)
  {
    assert (set u | u in EmptyStore.users && EmptyStore.users[u].active) == {};
  }

  /** Logging a send adds one to the send count, and one success and its
      likes exactly when the row records a success. */
  lemma LogSendStats(s: Store, record: SendRecord)
    ensures var before, after := GetStats(s), GetStats(LogSend(s, record));
      && after.totalSends == before.totalSends + 1
      && after.successes == before.successes + (if record.success then 1 else 0)
      && after.totalLikes == before.totalLikes + (if record.success then record.likesSent else 0)
      && after.totalIds == before.totalIds && after.totalUsers == before.totalUsers
  {
    HistoryAppend(s.history, [record]);
  }

  // ---------------------------------------------------------------- effects

  /** A write the send paths make to the store. */
  datatype Effect =
    | UpdateInfo(user: int, gameId: string, player: string, likes: int)
    | AppendHistory(record: SendRecord)

  /** One write: a registration update touches only the registrations, a
      history write only appends its record. */
  function Apply(s: Store, e: Effect, now: string): (r: Store)
    ensures r.users == s.users && |r.gameIds| == |s.gameIds|
    ensures e.AppendHistory? ==> r.history == s.history + [e.record] && r.gameIds == s.gameIds
    ensures e.UpdateInfo? ==> r.history == s.history
    ensures SameRowKeys(s.gameIds, r.gameIds)
  {
    match e
    case UpdateInfo(user, gameId, player, likes) => UpdateGameIdInfo(s, user, gameId, player, likes, now)
    case AppendHistory(record) => LogSend(s, record)
  }

  /** Writes applied in order: the users are untouched, no registration
      appears or disappears, and the history only grows at its end. */
  function ApplyAll(s: Store, es: seq<Effect>, now: string): (r: Store)
    ensures r.users == s.users && |r.gameIds| == |s.gameIds|
    ensures |s.history| <= |r.history| && r.history[..|s.history|] == s.history
    decreases |es|
  {
    if es == [] then s else ApplyAll(Apply(s, es[0], now), es[1..], now)
  }

  /** The history rows a list of writes appends, in order. */
  function Records(es: seq<Effect>): seq<SendRecord> {
    if es == [] then []
    else (if es[0].AppendHistory? then [es[0].record] else []) + Records(es[1..])
  }

  lemma {:induction false} RecordsAppend(a: seq<Effect>, b: seq<Effect>)
    ensures Records(a + b) == Records(a) + Records(b)
  {
    if a != [] {
      assert (a + b)[1..] == a[1..] + b;
      RecordsAppend(a[1..], b);
    } else {
      assert a + b == b;
    }
  }

  /** The number of registration updates among a list of writes. */
  function UpdateCount(es: seq<Effect>): nat {
    if es == [] then 0 else (if es[0].UpdateInfo? then 1 else 0) + UpdateCount(es[1..])
  }

  lemma {:induction false} UpdateCountAppend(a: seq<Effect>, b: seq<Effect>)
    ensures UpdateCount(a + b) == UpdateCount(a) + UpdateCount(b)
  {
    if a != [] {
      assert (a + b)[1..] == a[1..] + b;
      UpdateCountAppend(a[1..], b);
    } else {
      assert a + b == b;
    }
  }

  /** Two registration tables with the same rows under the same owners, ids
      and active flags, whatever their names, dates and totals. */
  predicate SameRowKeys(a: seq<GameIdRow>, b: seq<GameIdRow>) {
    |a| == |b| &&
    forall i :: 0 <= i < |a| ==>
      a[i].telegramId == b[i].telegramId && a[i].gameId == b[i].gameId && a[i].active == b[i].active
  }

  /** Applying writes only appends to the history, appending exactly their
      records, and never adds, drops, re-keys, activates or deactivates a
      registration. */
  lemma {:induction false} ApplyAllHistory(s: Store, es: seq<Effect>, now: string)
    ensures ApplyAll(s, es, now).history == s.history + Records(es)
    ensures ApplyAll(s, es, now).users == s.users
    ensures |ApplyAll(s, es, now).gameIds| == |s.gameIds|
    ensures SameRowKeys(s.gameIds, ApplyAll(s, es, now).gameIds)
    decreases |es|
  {
    if es != [] {
      ApplyAllHistory(Apply(s, es[0], now), es[1..], now);
    }
  }
}
