/** bot.py: the decision logic of the command and callback handlers. Each
    handler is a pure function from the store (or the key file), the caller
    and the command's arguments to the new store, the store writes made and
    the kind of reply sent; the reply texts and keyboards are layout and are
    not modelled. */
module Bot {
  import opened Wrappers
  import opened Text
  import Markdown
  import opened ApiClient
  import opened Registry
  import opened Classification
  import Scheduler

  /** `is_admin`: the caller is the configured admin, by Telegram id alone. */
  function IsAdmin(adminId: int, user: int): (b: bool)
    ensures b <==> user == adminId
  {
    user == adminId
  }

  /** Every registered game id is a non-empty string of ASCII digits: what
      `/addid` lets through. */
  predicate DigitIds(s: Store) {
    forall i :: 0 <= i < |s.gameIds| ==> IsDigits(s.gameIds[i].gameId)
  }

  // ------------------------------------------------------------------ /addid

  datatype AddIdReply = AddIdUsage | AddIdInvalid | AddIdStored(accepted: bool, message: string)

  /** The admin's notice of a new registration: the escaped username (or
      "N/A"), the new user's Telegram id and the game id. */
  datatype NewUserNotice = NewUserNotice(username: string, user: int, gameId: string)

  datatype AddIdResult = AddIdResult(store: Store, reply: AddIdReply, notice: Option<NewUserNotice>)

  /** `/addid [ID]`: no argument or a non-digit id is answered without
      touching the store; otherwise the user is registered if new, the id is
      added unless already active, and the admin hears of it only when both
      the user and the id are new. */
  function AddIdCommand(s: Store, user: int, username: Option<string>, args: seq<string>): (r: AddIdResult)
    ensures args == [] ==> r.store == s && r.reply == AddIdUsage && r.notice == None
    ensures args != [] && !IsDigits(args[0]) ==> r.store == s && r.reply == AddIdInvalid && r.notice == None
    ensures args != [] && IsDigits(args[0]) ==>
      && r.reply.AddIdStored?
      && (r.reply.accepted <==> !HasActive(s.gameIds, user, args[0]))
      && user in r.store.users && r.store.users.Keys == s.users.Keys + {user}
      && r.store.users == (if user in s.users then s.users else s.users[user := UserRecord(username, true)])
      && r.store.history == s.history
      && r.store.gameIds == s.gameIds + (if r.reply.accepted then [NewRow(user, args[0])] else [])
    ensures r.notice.Some? <==>
      (args != [] && IsDigits(args[0]) && user !in s.users && !HasActive(s.gameIds, user, args[0]))
    ensures r.notice.Some? ==> r.notice.value == NewUserNotice(Markdown.Escape(username.GetOr([])), user, args[0])
  {
    if args == [] then AddIdResult(s, AddIdUsage, None)
    else
      var gameId := args[0];
      if !IsDigits(gameId) then AddIdResult(s, AddIdInvalid, None)
      else
        var (s1, isNewUser) := AddUser(s, user, username);
        var (s2, success, message) := AddGameId(s1, user, gameId);
        var notice := if isNewUser && success
          then Some(NewUserNotice(Markdown.Escape(username.GetOr([])), user, gameId))
          else None;
        AddIdResult(s2, AddIdStored(success, message), notice)
  }

  /** `/addid` keeps every registered id a digit string. */
  lemma AddIdKeepsDigitIds(s: Store, user: int, username: Option<string>, args: seq<string>)
    requires DigitIds(s)
    ensures DigitIds(AddIdCommand(s, user, username, args).store)
  {
    var r := AddIdCommand(s, user, username, args);
    if args != [] && IsDigits(args[0]) && r.reply.accepted {
      assert r.store.gameIds[|s.gameIds|] == NewRow(user, args[0]);
    }
  }

  /** Repeating an `/addid` that was accepted: the store does not change, the
      duplicate message comes back and the admin is not told again. */
  lemma AddIdTwice(s: Store, user: int, username: Option<string>, gameId: string)
    requires IsDigits(gameId)
    ensures var first := AddIdCommand(s, user, username, [gameId]);
      var second := AddIdCommand(first.store, user, username, [gameId]);
      && second.store == first.store
      && second.reply == AddIdStored(false, DuplicateMessage)
      && second.notice == None
  {
    var first := AddIdCommand(s, user, username, [gameId]);
    var s1 := AddUser(s, user, username).0;
    AddGameIdRejectsRepeat(s1, user, gameId);
    assert first.store == AddGameId(s1, user, gameId).0;
  }

  // ------------------------------------------------------------------- /like

  /** The reply to a `/like` that reached the service, by outcome. */
  datatype LikeMessage =
    | SuccessMessage(view: PlayerView)
    | PartialMessage(partial: PartialView)
    | ErrorMessage(template: ErrorTemplate)

  datatype LikeReply =
    | LikeUsage
    | LikeInvalid
    | LikeNotConfigured
    | LikeAnswered(outcome: Outcome, message: LikeMessage)

  /** What one `/like` did: whether the service was called, the store writes
      in order, and the reply. */
  datatype LikeResult = LikeResult(called: bool, writes: seq<Effect>, reply: LikeReply)

  /** The reply text for one classified response. */
  function LikeMessageFor(o: Outcome, data: Response, gameId: string): (m: LikeMessage)
    ensures o.Success? <==> m.SuccessMessage?
    ensures o.Partial? <==> m.PartialMessage?
    ensures o.Error? ==> m.template.gameId == gameId
    ensures m.SuccessMessage? ==> m.view == FormatSuccessMessage(data)
    ensures m.PartialMessage? ==> m.partial == FormatPartialMessage(data)
    ensures m.ErrorMessage? ==> m.template == FormatErrorMessage(data, gameId)
  {
    match o
    case Success(_, _) => SuccessMessage(FormatSuccessMessage(data))
    case Partial(_, _) => PartialMessage(FormatPartialMessage(data))
    case Error(_) => ErrorMessage(FormatErrorMessage(data, gameId))
  }

  /** `/like [ID]`: the argument is checked, then the key; only then is the
      service called, once, and its answer classified exactly as the nightly
      cycle does, with the history row marked manual. */
  function LikeCommand(keyFile: KeyFile, user: int, args: seq<string>, api: Api, callNo: nat): (r: LikeResult)
    ensures r.called <==> args != [] && IsDigits(args[0]) && KeyUsable(LoadKey(keyFile))
    ensures args == [] ==> r.reply == LikeUsage
    ensures args != [] && !IsDigits(args[0]) ==> r.reply == LikeInvalid
    ensures args != [] && IsDigits(args[0]) && !KeyUsable(LoadKey(keyFile)) ==> r.reply == LikeNotConfigured
    ensures !r.called ==> r.writes == []
    ensures r.called ==>
      var data := SendLikes(api, args[0], LoadKey(keyFile).value, callNo);
      && r.reply.LikeAnswered?
      && r.reply.outcome == Classify(data)
      && r.writes == AttemptEffects(user, args[0], r.reply.outcome, false)
      && Records(r.writes) == [RecordFor(user, args[0], r.reply.outcome, false)]
      && UpdateCount(r.writes) == (if r.reply.outcome.Success? then 1 else 0)
      && r.reply.message == LikeMessageFor(r.reply.outcome, data, args[0])
  {
    if args == [] then LikeResult(false, [], LikeUsage)
    else if !IsDigits(args[0]) then LikeResult(false, [], LikeInvalid)
    else
      var key := LoadKey(keyFile);
      if !KeyUsable(key) then LikeResult(false, [], LikeNotConfigured)
      else
        var data := SendLikes(api, args[0], key.value, callNo);
        var o := Classify(data);
        LikeResult(true, AttemptEffects(user, args[0], o, false), LikeAnswered(o, LikeMessageFor(o, data, args[0])))
  }

  /** `/like` and the nightly cycle agree: given the same answer from the
      service, a manual send classifies it the same way and writes the same
      effects, except that its history row is marked manual. */
  lemma LikeAgreesWithCycle(keyFile: KeyFile, user: int, gameId: string, api: Api, run: Scheduler.Run)
    requires IsDigits(gameId) && KeyUsable(LoadKey(keyFile))
    ensures var manual := LikeCommand(keyFile, user, [gameId], api, |run.calls|);
      var auto := Scheduler.ProcessId(run, user, gameId, LoadKey(keyFile).value, api);
      && manual.reply.outcome == auto.result.outcome
      && auto.run.writes == run.writes + AttemptEffects(user, gameId, manual.reply.outcome, true)
      && manual.writes == AttemptEffects(user, gameId, auto.result.outcome, false)
      && Records(manual.writes) == [RecordFor(user, gameId, auto.result.outcome, true).(isAuto := false)]
  {
  }

  // ------------------------------------------------------ /setkey, /checkkey

  datatype KeyReply = NotAdmin | KeyUsage | KeySaved | KeyNotConfigured | KeyShown(masked: string)

  /** How much of the key `/checkkey` shows at each end. */
  const MaskVisible: nat := 8

  /** `key[:8] + "..." + key[-8:]`: at most eight characters from each end
      around an ellipsis. */
  function MaskKey(key: string): (m: string)
    ensures |m| == 2 * Min(MaskVisible, |key|) + 3
    ensures m[..Min(MaskVisible, |key|)] == key[..Min(MaskVisible, |key|)]
    ensures m[Min(MaskVisible, |key|)..Min(MaskVisible, |key|) + 3] == "..."
    ensures m[Min(MaskVisible, |key|) + 3..] == key[|key| - Min(MaskVisible, |key|)..]
  {
    var head := Take(key, MaskVisible);
    var tail := TakeLast(key, MaskVisible);
    var m := head + "..." + tail;
    assert m[..|head|] == head;
    assert m[|head|..|head| + 3] == "...";
    assert m[|head| + 3..] == tail;
    m
  }

  /** A key longer than sixteen characters is not determined by its mask:
      its ninth character is never shown, so any other character there gives
      the same mask; and once the key is longer than the mask itself, the
      mask cannot contain it. */
  lemma MaskHidesLongKeys(key: string, c: char)
    requires |key| > 2 * MaskVisible
    ensures MaskKey(key[MaskVisible := c]) == MaskKey(key)
    ensures |key| > 2 * MaskVisible + 3 ==> !Contains(MaskKey(key), key)
  {
    var key' := key[MaskVisible := c];
    assert key'[..MaskVisible] == key[..MaskVisible];
    assert key'[|key'| - MaskVisible..] == key[|key| - MaskVisible..];
    var m, m' := MaskKey(key), MaskKey(key');
    assert m == m[..MaskVisible] + m[MaskVisible..MaskVisible + 3] + m[MaskVisible + 3..];
    assert m' == m'[..MaskVisible] + m'[MaskVisible..MaskVisible + 3] + m'[MaskVisible + 3..];
  }

  /** The mask as written reveals every key of at most sixteen characters:
      the key is its shown head followed by the last characters of its shown
      tail, although the reply says the full key is never displayed. */
  lemma MaskRevealsShortKeys(key: string)
    requires |key| <= 2 * MaskVisible
    ensures var h := Min(MaskVisible, |key|);
      key == MaskKey(key)[..h] + MaskKey(key)[h + 3 + (2 * h - |key|)..]
  {
    var h := Min(MaskVisible, |key|);
    var d := 2 * h - |key|;
    var m := MaskKey(key);
    var tail := m[h + 3..];
    assert tail == key[|key| - h..];
    assert m[h + 3 + d..] == tail[d..];
    assert tail[d..] == key[h..];
    assert m[..h] == key[..h];
    assert key == key[..h] + key[h..];
  }

  /** How many characters the corrected mask shows at each end: eight, but
      fewer for a short key, so that at least one character stays hidden. */
  function MaskShown(n: nat): (h: nat)
    ensures h <= MaskVisible
    ensures n > 0 ==> 2 * h < n
    ensures n > 2 * MaskVisible ==> h == MaskVisible
  {
    if n == 0 then 0 else Min(MaskVisible, (n - 1) / 2)
  }

  /** The mask `/checkkey` evidently intends: the same as written for keys of
      more than sixteen characters, and never the whole of a shorter one. */
  function HidingMask(key: string): (m: string)
    ensures key != [] ==> 2 * MaskShown(|key|) < |key|
    ensures |key| > 2 * MaskVisible ==> m == MaskKey(key)
    ensures m == key[..MaskShown(|key|)] + "..." + key[|key| - MaskShown(|key|)..]
  {
    var h := MaskShown(|key|);
    if |key| > 2 * MaskVisible then
      assert Take(key, MaskVisible) == key[..h] && TakeLast(key, MaskVisible) == key[|key| - h..];
      MaskKey(key)
    else key[..h] + "..." + key[|key| - h..]
  }

  /** No key, however short, can be read back from the corrected mask: the
      first character it withholds can be anything. */
  lemma HidingMaskHides(key: string, c: char)
    requires key != []
    ensures HidingMask(key[MaskShown(|key|) := c]) == HidingMask(key)
  {
    var h := MaskShown(|key|);
    var key' := key[h := c];
    assert key'[..h] == key[..h];
    assert key'[|key'| - h..] == key[|key| - h..];
  }

  /** A key of at most eight characters is shown in full, twice: the input
      that shows the mask revealing a key. */
  lemma MaskShowsShortKeys(key: string)
    requires |key| <= MaskVisible
    ensures MaskKey(key) == key + "..." + key
  {
    var m := MaskKey(key);
    assert key[..|key|] == key && key[0..] == key;
    assert m == m[..|key|] + m[|key|..|key| + 3] + m[|key| + 3..];
  }

  /** `/setkey [KEY]`: admin only; the key is saved stripped. A failing
      write of the file is not modelled. */
  function SetKeyCommand(file: KeyFile, adminId: int, user: int, args: seq<string>): (r: (KeyFile, KeyReply))
    ensures !IsAdmin(adminId, user) ==> r == (file, NotAdmin)
    ensures IsAdmin(adminId, user) && args == [] ==> r == (file, KeyUsage)
    ensures IsAdmin(adminId, user) && args != [] ==> r.1 == KeySaved && LoadKey(r.0) == Some(Strip(args[0]))
  {
    if !IsAdmin(adminId, user) then (file, NotAdmin)
    else if args == [] then (file, KeyUsage)
    else (SaveKey(args[0]), KeySaved)
  }

  /** `/checkkey`: admin only; no usable key, or the masked key. */
  function CheckKeyCommand(file: KeyFile, adminId: int, user: int): (r: KeyReply)
    ensures !IsAdmin(adminId, user) ==> r == NotAdmin
    ensures IsAdmin(adminId, user) && !KeyUsable(LoadKey(file)) ==> r == KeyNotConfigured
    ensures IsAdmin(adminId, user) && KeyUsable(LoadKey(file)) ==> r == KeyShown(MaskKey(LoadKey(file).value))
  {
    if !IsAdmin(adminId, user) then NotAdmin
    else
      var key := LoadKey(file);
      if !KeyUsable(key) then KeyNotConfigured else KeyShown(MaskKey(key.value))
  }

  /** `/checkkey` as evidently intended: the same replies, but with the
      corrected mask, so that no configured key can be read back from the
      reply; it differs from the handler as written only on keys of at most
      sixteen characters. */
  function CheckKeyHiding(file: KeyFile, adminId: int, user: int): (r: KeyReply)
    ensures !IsAdmin(adminId, user) ==> r == NotAdmin
    ensures IsAdmin(adminId, user) && !KeyUsable(LoadKey(file)) ==> r == KeyNotConfigured
    ensures IsAdmin(adminId, user) && KeyUsable(LoadKey(file)) ==> r == KeyShown(HidingMask(LoadKey(file).value))
    ensures !IsAdmin(adminId, user) || !KeyUsable(LoadKey(file)) || |LoadKey(file).value| > 2 * MaskVisible ==>
      r == CheckKeyCommand(file, adminId, user)
  {
    if !IsAdmin(adminId, user) then NotAdmin
    else
      var key := LoadKey(file);
      if !KeyUsable(key) then KeyNotConfigured else KeyShown(HidingMask(key.value))
  }

  /** Anyone but the admin can neither change the key nor see any of it. */
  lemma OnlyAdminTouchesKey(file: KeyFile, adminId: int, user: int, args: seq<string>)
    requires !IsAdmin(adminId, user)
    ensures SetKeyCommand(file, adminId, user, args).0 == file
    ensures !SetKeyCommand(file, adminId, user, args).1.KeyShown?
    ensures !CheckKeyCommand(file, adminId, user).KeyShown?
  {
  }

  /** Setting a key and checking it: the admin sees the mask of the stripped
      key, or is told no key is configured when it strips to nothing. */
  lemma SetThenCheck(file: KeyFile, adminId: int, key: string)
    ensures var saved := SetKeyCommand(file, adminId, adminId, [key]).0;
      CheckKeyCommand(saved, adminId, adminId) ==
        (if Strip(key) == [] then KeyNotConfigured else KeyShown(MaskKey(Strip(key))))
  {
  }

  // ---------------------------------------------------- /removeids, callback

  const RemovePrefix: string := "remove_"
  const RemoveCancel: string := "remove_cancel"

  /** The callback data of the button that removes `gameId`. */
  function EncodeRemove(gameId: string): (data: string)
    ensures StartsWith(data, RemovePrefix) && data[|RemovePrefix|..] == gameId
  {
    RemovePrefix + gameId
  }

  datatype RemoveReply = Cancelled | Removed(gameId: string) | Ignored

  /** `remove_callback`: "remove_cancel" removes nothing; other data that
      starts with "remove_" has every "remove_" deleted and the rest removed
      from the caller's list; any other data is ignored. */
  function RemoveCallback(s: Store, user: int, data: string): (r: (Store, RemoveReply))
    ensures data == RemoveCancel ==> r == (s, Cancelled)
    ensures !StartsWith(data, RemovePrefix) ==> r == (s, Ignored)
    ensures StartsWith(data, RemovePrefix) && data != RemoveCancel ==>
      r.1 == Removed(ReplaceAll(data, RemovePrefix, ""))
    ensures r.1.Removed? ==>
      && r.0 == RemoveGameId(s, user, r.1.gameId).0
      && !HasActive(r.0.gameIds, user, r.1.gameId)
      && |r.0.gameIds| == |s.gameIds| && r.0.history == s.history && r.0.users == s.users
  {
    if data == RemoveCancel then (s, Cancelled)
    else if StartsWith(data, RemovePrefix) then
      var gameId := ReplaceAll(data, RemovePrefix, "");
      (RemoveGameId(s, user, gameId).0, Removed(gameId))
    else (s, Ignored)
  }

  /** Decoding a removal button gives its digit id back: the button removes
      exactly that id. */
  lemma RemoveRoundTrip(s: Store, user: int, gameId: string)
    requires IsDigits(gameId)
    ensures EncodeRemove(gameId) != RemoveCancel
    ensures RemoveCallback(s, user, EncodeRemove(gameId)) == (RemoveGameId(s, user, gameId).0, Removed(gameId))
  {
    var data := EncodeRemove(gameId);
    assert IsAsciiDigit(gameId[0]);
    assert data[7] == gameId[0];
    assert RemoveCancel[7] == 'c';
    assert data[..|RemovePrefix|] == RemovePrefix;
    assert data[|RemovePrefix|..] == gameId;
    assert RemovePrefix[0] == 'r';
    ReplaceAllAbsent(gameId, RemovePrefix, "");
    assert ReplaceAll(data, RemovePrefix, "") == "" + ReplaceAll(gameId, RemovePrefix, "");
    assert data != RemoveCancel;
    assert StartsWith(data, RemovePrefix);
    assert RemoveCallback(s, user, data).1 == Removed(gameId);
  }

  /** One button of the removal keyboard. */
  datatype Button = Button(caption: string, data: string)

  /** The most characters of a name a button shows. */
  const LabelLimit: nat := 30

  /** `player_name or gid`: the player name unless it is missing or empty;
      the label is empty only when the id itself is. */
  function NameOrId(row: GameIdRow): (r: string)
    ensures row.playerName.Some? && row.playerName.value != [] ==> r == row.playerName.value
    ensures row.playerName.None? || row.playerName.value == [] ==> r == row.gameId
    ensures r == [] ==> row.gameId == []
  {
    if row.playerName.Some? && row.playerName.value != [] then row.playerName.value else row.gameId
  }

  /** The keyboard of `/removeids`: one button per row, labelled with the
      first thirty characters of its name, then the cancel button. */
  function RemoveButtons(rows: seq<GameIdRow>): (bs: seq<Button>)
    ensures |bs| == |rows| + 1
    ensures bs[|rows|] == Button("Cancelar", RemoveCancel)
    ensures forall k :: 0 <= k < |rows| ==>
      && bs[k].data == EncodeRemove(rows[k].gameId)
      && |bs[k].caption| == Min(LabelLimit, |NameOrId(rows[k])|)
      && StartsWith(NameOrId(rows[k]), bs[k].caption)
  {
    seq(|rows|, k requires 0 <= k < |rows| => Button(Take(NameOrId(rows[k]), LabelLimit), EncodeRemove(rows[k].gameId)))
      + [Button("Cancelar", RemoveCancel)]
  }

  /** On a store whose ids came through `/addid`, pressing the k-th button
      of the caller's keyboard removes exactly the k-th listed id. */
  lemma ButtonRemovesItsId(s: Store, user: int, k: nat)
    requires DigitIds(s)
    requires k < |GetUserGameIds(s, user)|
    ensures var rows := GetUserGameIds(s, user);
      RemoveCallback(s, user, RemoveButtons(rows)[k].data).1 == Removed(rows[k].gameId)
  {
    var rows := GetUserGameIds(s, user);
    assert rows[k] in s.gameIds;
    RemoveRoundTrip(s, user, rows[k].gameId);
  }
}
