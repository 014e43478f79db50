/** scheduler.py: the nightly dispatch cycle `send_automatic_likes`. The run
    is a left fold over the active ids grouped by user. What it does to the
    outside world is kept channel by channel, each in the order it happened:
    the remote calls, the store writes and the messages sent. */
module Scheduler {
  import opened Wrappers
  import opened ApiClient
  import opened Registry
  import opened Classification

  /** One entry of `user_results`: the outcome ("success", "partial" or
      "error"), the game id and the raw response. */
  datatype IdResult = IdResult(outcome: Outcome, gameId: string, data: Response)

  datatype Message =
    | KeyMissingNotice(to: int)
    | UserReport(to: int, results: seq<IdResult>)
    | AdminReport(to: int, users: nat, ids: nat, likes: int, successes: nat, failures: nat)

  /** The cycle's running state: the game ids called so far, the store writes
      and messages so far, and the counters `total_likes_sent`,
      `total_successes` and `total_failures`. */
  datatype Run = Run(calls: seq<string>, writes: seq<Effect>, messages: seq<Message>,
                     likes: int, successes: nat, failures: nat)

  const InitialRun: Run := Run([], [], [], 0, 0, 0)

  // ------------------------------------------------------- per-user results

  function GameIdsOf(results: seq<IdResult>): (ids: seq<string>)
    ensures |ids| == |results| && forall i :: 0 <= i < |results| ==> ids[i] == results[i].gameId
  {
    if results == [] then [] else [results[0].gameId] + GameIdsOf(results[1..])
  }

  /** Every result carries the outcome its own response classifies to. */
  predicate Classified(results: seq<IdResult>) {
    forall i :: 0 <= i < |results| ==> results[i].outcome == Classify(results[i].data)
  }

  function CountSuccessResults(results: seq<IdResult>): (n: nat)
    ensures n <= |results|
  {
    if results == [] then 0
    else (if results[0].outcome.Success? then 1 else 0) + CountSuccessResults(results[1..])
  }

  /** The likes a user notification adds up: `likesAdded` of each success. */
  function SuccessResultLikes(results: seq<IdResult>): int {
    if results == [] then 0
    else
      var here := if results[0].outcome.Success? then results[0].data.likesAdded.GetOr(0) else 0;
      here + SuccessResultLikes(results[1..])
  }

  lemma {:induction false} ResultsAppend(a: seq<IdResult>, b: seq<IdResult>)
    ensures CountSuccessResults(a + b) == CountSuccessResults(a) + CountSuccessResults(b)
    ensures SuccessResultLikes(a + b) == SuccessResultLikes(a) + SuccessResultLikes(b)
  {
    if a != [] {
      assert (a + b)[1..] == a[1..] + b;
      ResultsAppend(a[1..], b);
    } else {
      assert a + b == b;
    }
  }

  /** The summary block of `send_user_notification`: the number of ids, the
      likes added by the successes and the number of successes, counted in
      one pass over the results as the notification is built. */
  method UserSummary(results: seq<IdResult>) returns (total: nat, likes: int, successCount: nat)
    ensures total == |results|
    ensures successCount == CountSuccessResults(results) && successCount <= total
    ensures likes == SuccessResultLikes(results)
  {
    total := |results|;
    likes, successCount := 0, 0;
    var i := 0;
    while i < |results|
      invariant 0 <= i <= |results|
      invariant successCount == CountSuccessResults(results[..i])
      invariant likes == SuccessResultLikes(results[..i])
    {
      var r := results[i];
      if r.outcome.Success? {
        likes := likes + r.data.likesAdded.GetOr(0);
        successCount := successCount + 1;
      }
      ResultsAppend(results[..i], [r]);
      assert results[..i + 1] == results[..i] + [r];
      i := i + 1;
    }
    assert results[..i] == results;
  }

  /** The store writes one user's results call for, in order. */
  function ResultWrites(user: int, results: seq<IdResult>): seq<Effect> {
    if results == [] then []
    else AttemptEffects(user, results[0].gameId, results[0].outcome, true) + ResultWrites(user, results[1..])
  }

  /** Every history row is marked automatic (`is_auto = 1`). */
  predicate AllAutomatic(recs: seq<SendRecord>) {
    forall k :: 0 <= k < |recs| ==> recs[k].isAuto
  }

  /** One user's writes log one automatic history row per result for that
      user, a success row exactly for each success, with the likes the
      notification counts, and update a registration once per success. */
  lemma {:induction false} ResultWritesFacts(user: int, results: seq<IdResult>)
    requires Classified(results)
    ensures var recs := Records(ResultWrites(user, results));
      && |recs| == |results|
      && CountSuccesses(recs) == CountSuccessResults(results)
      && SuccessLikes(recs) == SuccessResultLikes(results)
      && UpdateCount(ResultWrites(user, results)) == CountSuccessResults(results)
      && (forall k :: 0 <= k < |recs| ==> recs[k].isAuto && recs[k].telegramId == user)
  {
    if results != [] {
      var r := results[0];
      var head := AttemptEffects(user, r.gameId, r.outcome, true);
      var rest := ResultWrites(user, results[1..]);
      assert Classified(results[1..]) by {
        forall i | 0 <= i < |results[1..]| ensures results[1..][i].outcome == Classify(results[1..][i].data) {
          assert results[1..][i] == results[i + 1];
        }
      }
      ResultWritesFacts(user, results[1..]);
      RecordsAppend(head, rest);
      UpdateCountAppend(head, rest);
      HistoryAppend(Records(head), Records(rest));
      assert r.outcome == Classify(r.data);
    }
  }

  // ------------------------------------------------------------ the fold

  /** The run after one id, with that id's result. */
  datatype IdStep = IdStep(run: Run, result: IdResult)

  /** One id: call the service (the call's number is the count of calls
      before it), classify the answer, write, count. */
  function ProcessId(run: Run, user: int, gameId: string, key: string, api: Api): (out: IdStep)
    ensures out.result.gameId == gameId && out.result.outcome == Classify(out.result.data)
    ensures out.result.data == SendLikes(api, gameId, key, |run.calls|)
    ensures out.run.calls == run.calls + [gameId]
    ensures out.run.writes == run.writes + AttemptEffects(user, gameId, out.result.outcome, true)
    ensures out.run.messages == run.messages
    ensures out.run.successes == run.successes + (if out.result.outcome.Success? then 1 else 0)
    ensures out.run.failures == run.failures + (if out.result.outcome.Success? then 0 else 1)
    ensures out.run.likes == run.likes + (if out.result.outcome.Success? then out.result.data.likesAdded.GetOr(0) else 0)
  {
    var response := SendLikes(api, gameId, key, |run.calls|);
    var o := Classify(response);
    IdStep(Run(run.calls + [gameId],
               run.writes + AttemptEffects(user, gameId, o, true),
               run.messages,
               run.likes + (if o.Success? then o.likes else 0),
               run.successes + (if o.Success? then 1 else 0),
               run.failures + (if o.Success? then 0 else 1)),
           IdResult(o, gameId, response))
  }

  /** The run after some ids, with their results in order. */
  datatype Step = Step(run: Run, results: seq<IdResult>)

  /** The inner loop over one user's ids: one result per id, each id called
      once and in order after the calls already made, and no message. */
  function ProcessIds(run: Run, user: int, ids: seq<string>, key: string, api: Api): (st: Step)
    ensures |st.results| == |ids|
    ensures st.run.calls == run.calls + ids
    ensures st.run.messages == run.messages
    decreases |ids|
  {
    if ids == [] then Step(run, [])
    else
      var first := ProcessId(run, user, ids[0], key, api);
      var rest := ProcessIds(first.run, user, ids[1..], key, api);
      assert ids == [ids[0]] + ids[1..];
      Step(rest.run, [first.result] + rest.results)
  }

  /** The inner loop yields one result per id, in order, each carrying the
      service's answer to that id's own call, numbered after the calls
      already made, and classified from it. */
  lemma {:induction false} ProcessIdsResults(run: Run, user: int, ids: seq<string>, key: string, api: Api)
    ensures var st := ProcessIds(run, user, ids, key, api);
      && GameIdsOf(st.results) == ids && Classified(st.results)
      && forall k :: 0 <= k < |ids| ==> st.results[k].data == SendLikes(api, ids[k], key, |run.calls| + k)
    decreases |ids|
  {
    if ids != [] {
      var first := ProcessId(run, user, ids[0], key, api);
      var rest := ProcessIds(first.run, user, ids[1..], key, api);
      ProcessIdsResults(first.run, user, ids[1..], key, api);
      var results := [first.result] + rest.results;
      assert results[1..] == rest.results;
      assert GameIdsOf(results) == [ids[0]] + ids[1..];
      assert Classified(results) by {
        forall i | 0 <= i < |results| ensures results[i].outcome == Classify(results[i].data) {
          if i > 0 {
            assert results[i] == rest.results[i - 1];
          }
        }
      }
    }
    ProcessIdsData(run, user, ids, key, api);
  }

  /** Result k of the inner loop carries the answer to call number
      `|run.calls| + k`, made for ids[k]. */
  lemma {:induction false} ProcessIdsData(run: Run, user: int, ids: seq<string>, key: string, api: Api)
    ensures var st := ProcessIds(run, user, ids, key, api);
      forall k :: 0 <= k < |ids| ==> st.results[k].data == SendLikes(api, ids[k], key, |run.calls| + k)
    decreases |ids|
  {
    if ids != [] {
      var first := ProcessId(run, user, ids[0], key, api);
      var rest := ProcessIds(first.run, user, ids[1..], key, api);
      ProcessIdsData(first.run, user, ids[1..], key, api);
      var results := [first.result] + rest.results;
      assert ProcessIds(run, user, ids, key, api).results == results;
      forall k | 0 <= k < |ids| ensures results[k].data == SendLikes(api, ids[k], key, |run.calls| + k) {
        if k > 0 {
          assert results[k] == rest.results[k - 1] && ids[k] == ids[1..][k - 1];
        }
      }
    }
  }

  /** The inner loop adds the user's successes, failures and success likes
      to the counters. */
  lemma {:induction false} ProcessIdsCounters(run: Run, user: int, ids: seq<string>, key: string, api: Api)
    ensures var st := ProcessIds(run, user, ids, key, api);
      && |st.results| == |ids|
      && st.run.successes == run.successes + CountSuccessResults(st.results)
      && st.run.failures == run.failures + |ids| - CountSuccessResults(st.results)
      && st.run.likes == run.likes + SuccessResultLikes(st.results)
    decreases |ids|
  {
    if ids != [] {
      var first := ProcessId(run, user, ids[0], key, api);
      var rest := ProcessIds(first.run, user, ids[1..], key, api);
      ProcessIdsCounters(first.run, user, ids[1..], key, api);
      var results := [first.result] + rest.results;
      assert results[1..] == rest.results;
    }
  }

  /** The inner loop calls each id once, in order, makes exactly the writes
      its results call for and sends no message. */
  lemma {:induction false} ProcessIdsChannels(run: Run, user: int, ids: seq<string>, key: string, api: Api)
    ensures var st := ProcessIds(run, user, ids, key, api);
      && st.run.calls == run.calls + ids
      && st.run.writes == run.writes + ResultWrites(user, st.results)
      && st.run.messages == run.messages
    decreases |ids|
  {
    if ids != [] {
      var first := ProcessId(run, user, ids[0], key, api);
      var rest := ProcessIds(first.run, user, ids[1..], key, api);
      ProcessIdsChannels(first.run, user, ids[1..], key, api);
      var results := [first.result] + rest.results;
      assert results[1..] == rest.results;
      assert ResultWrites(user, results) == AttemptEffects(user, ids[0], first.result.outcome, true) + ResultWrites(user, rest.results);
      assert ids == [ids[0]] + ids[1..];
    }
  }

  // ------------------------------------------------- message-level summaries

  /** The (user, game ids) shape of the user notifications, in order. */
  function ReportGroups(ms: seq<Message>): seq<Group> {
    if ms == [] then []
    else (if ms[0].UserReport? then [Group(ms[0].to, GameIdsOf(ms[0].results))] else []) + ReportGroups(ms[1..])
  }

  function ReportSuccesses(ms: seq<Message>): nat {
    if ms == [] then 0
    else (if ms[0].UserReport? then CountSuccessResults(ms[0].results) else 0) + ReportSuccesses(ms[1..])
  }

  /** All notified results, notification after notification. */
  function ReportResults(ms: seq<Message>): seq<IdResult> {
    if ms == [] then []
    else (if ms[0].UserReport? then ms[0].results else []) + ReportResults(ms[1..])
  }

  function ReportLikes(ms: seq<Message>): int {
    if ms == [] then 0
    else (if ms[0].UserReport? then SuccessResultLikes(ms[0].results) else 0) + ReportLikes(ms[1..])
  }

  /** The writes the notified results call for. */
  function ExpectedWrites(ms: seq<Message>): seq<Effect> {
    if ms == [] then []
    else (if ms[0].UserReport? then ResultWrites(ms[0].to, ms[0].results) else []) + ExpectedWrites(ms[1..])
  }

  predicate ReportsClassified(ms: seq<Message>) {
    forall k :: 0 <= k < |ms| && ms[k].UserReport? ==> Classified(ms[k].results)
  }

  predicate AllUserReports(ms: seq<Message>) {
    forall k :: 0 <= k < |ms| ==> ms[k].UserReport?
  }

  /** All game ids of the groups, group after group. */
  function Flatten(groups: seq<Group>): (ids: seq<string>)
    ensures |ids| == TotalIds(groups)
  {
    if groups == [] then [] else groups[0].ids + Flatten(groups[1..])
  }

  lemma {:induction false} MessagesAppend(a: seq<Message>, b: seq<Message>)
    ensures ReportGroups(a + b) == ReportGroups(a) + ReportGroups(b)
    ensures ReportSuccesses(a + b) == ReportSuccesses(a) + ReportSuccesses(b)
    ensures ReportLikes(a + b) == ReportLikes(a) + ReportLikes(b)
    ensures ExpectedWrites(a + b) == ExpectedWrites(a) + ExpectedWrites(b)
    ensures ReportResults(a + b) == ReportResults(a) + ReportResults(b)
  {
    if a != [] {
      assert (a + b)[1..] == a[1..] + b;
      MessagesAppend(a[1..], b);
    } else {
      assert a + b == b;
    }
  }

  lemma {:induction false} FlattenAppend(a: seq<Group>, b: seq<Group>)
    ensures Flatten(a + b) == Flatten(a) + Flatten(b)
  {
    if a != [] {
      assert (a + b)[1..] == a[1..] + b;
      FlattenAppend(a[1..], b);
    } else {
      assert a + b == b;
    }
  }

  lemma {:induction false} TotalIdsAppend(a: seq<Group>, b: seq<Group>)
    ensures TotalIds(a + b) == TotalIds(a) + TotalIds(b)
  {
    if a != [] {
      assert (a + b)[1..] == a[1..] + b;
      TotalIdsAppend(a[1..], b);
    } else {
      assert a + b == b;
    }
  }

  /** Across all notified results: one automatic history row per result,
      success rows and their likes as the notifications count them, one
      registration update per success. */
  lemma {:induction false} ExpectedWritesFacts(ms: seq<Message>)
    requires ReportsClassified(ms)
    ensures var recs := Records(ExpectedWrites(ms));
      && |recs| == TotalIds(ReportGroups(ms))
      && CountSuccesses(recs) == ReportSuccesses(ms)
      && SuccessLikes(recs) == ReportLikes(ms)
      && UpdateCount(ExpectedWrites(ms)) == ReportSuccesses(ms)
      && AllAutomatic(recs)
  {
    if ms != [] {
      assert ReportsClassified(ms[1..]) by {
        forall k | 0 <= k < |ms[1..]| && ms[1..][k].UserReport? ensures Classified(ms[1..][k].results) {
          assert ms[1..][k] == ms[k + 1];
        }
      }
      ExpectedWritesFacts(ms[1..]);
      var head := if ms[0].UserReport? then ResultWrites(ms[0].to, ms[0].results) else [];
      var rest := ExpectedWrites(ms[1..]);
      RecordsAppend(head, rest);
      UpdateCountAppend(head, rest);
      HistoryAppend(Records(head), Records(rest));
      var g := if ms[0].UserReport? then [Group(ms[0].to, GameIdsOf(ms[0].results))] else [];
      TotalIdsAppend(g, ReportGroups(ms[1..]));
      if ms[0].UserReport? {
        ResultWritesFacts(ms[0].to, ms[0].results);
        assert TotalIds(g) == |ms[0].results|;
      }
    }
  }

  /** What holds of the run at every user boundary: the calls are exactly the
      notified ids in order, the writes exactly those the notified results
      call for, and the counters agree with the notifications. */
  predicate Consistent(run: Run) {
    && run.calls == Flatten(ReportGroups(run.messages))
    && run.writes == ExpectedWrites(run.messages)
    && ReportsClassified(run.messages)
    && ReportSuccesses(run.messages) == run.successes
    && ReportLikes(run.messages) == run.likes
    && |run.calls| == run.successes + run.failures
  }

  /** The result the cycle records for call number `callNo`, to `gameId`:
      the service's answer and its classification. */
  function AnswerTo(api: Api, gameId: string, key: string, callNo: nat): (r: IdResult)
    ensures r.gameId == gameId && r.outcome == Classify(r.data)
    ensures r.data == SendLikes(api, gameId, key, callNo)
  {
    var data := SendLikes(api, gameId, key, callNo);
    IdResult(Classify(data), gameId, data)
  }

  /** The notified results are, one for one and in order, the answers to
      the calls made: result i answers call number i. */
  predicate AnswersCalls(calls: seq<string>, ms: seq<Message>, key: string, api: Api) {
    && |ReportResults(ms)| == |calls|
    && forall i :: 0 <= i < |calls| ==> ReportResults(ms)[i] == AnswerTo(api, calls[i], key, i)
  }

  /** One user: the inner loop, then one notification to that user with
      all of that user's results, classified, for that user's ids in order;
      each id is called once and counted once. */
  function AfterUser(run: Run, g: Group, key: string, api: Api): (r: Run)
    ensures r.calls == run.calls + g.ids
    ensures |r.messages| == |run.messages| + 1 && r.messages[..|run.messages|] == run.messages
    ensures var m := r.messages[|run.messages|];
      m.UserReport? && m.to == g.user && GameIdsOf(m.results) == g.ids && Classified(m.results)
    ensures r.successes + r.failures == run.successes + run.failures + |g.ids|
  {
    var st := ProcessIds(run, g.user, g.ids, key, api);
    ProcessIdsResults(run, g.user, g.ids, key, api);
    ProcessIdsCounters(run, g.user, g.ids, key, api);
    st.run.(messages := st.run.messages + [UserReport(g.user, st.results)])
  }

  /** The outer loop over the users, in the order of `groups`: the run
      after all of them is the run after all but the last, followed by the
      last one. It calls the ids group after group, sends one message per
      group, and counts every id once. */
  function ProcessUsers(groups: seq<Group>, key: string, api: Api): (r: Run)
    ensures r.calls == Flatten(groups)
    ensures |r.messages| == |groups|
    ensures r.successes + r.failures == TotalIds(groups)
    decreases |groups|
  {
    if groups == [] then InitialRun
    else
      var prefix, g := groups[..|groups| - 1], groups[|groups| - 1];
      FlattenAppend(prefix, [g]);
      TotalIdsAppend(prefix, [g]);
      assert prefix + [g] == groups;
      assert Flatten([g]) == g.ids + Flatten([]);
      AfterUser(ProcessUsers(prefix, key, api), g, key, api)
  }

  /** One step of the outer loop adds exactly one message, the user's
      notification, whose shape is the user's group. */
  lemma {:induction false} UserStep(run: Run, g: Group, key: string, api: Api)
    ensures var r2 := AfterUser(run, g, key, api);
      && |r2.messages| == |run.messages| + 1
      && r2.messages[..|run.messages|] == run.messages
      && r2.messages[|run.messages|].UserReport?
      && ReportGroups(r2.messages) == ReportGroups(run.messages) + [g]
  {
    var st := ProcessIds(run, g.user, g.ids, key, api);
    ProcessIdsChannels(run, g.user, g.ids, key, api);
    ProcessIdsResults(run, g.user, g.ids, key, api);
    var report := UserReport(g.user, st.results);
    MessagesAppend(run.messages, [report]);
    assert ReportGroups([report]) == [g];
  }

  /** One step of the outer loop keeps the run consistent. */
  lemma {:induction false} UserStepConsistent(run: Run, g: Group, key: string, api: Api)
    requires Consistent(run)
    ensures Consistent(AfterUser(run, g, key, api))
  {
    var st := ProcessIds(run, g.user, g.ids, key, api);
    var results := st.results;
    ProcessIdsChannels(run, g.user, g.ids, key, api);
    ProcessIdsResults(run, g.user, g.ids, key, api);
    ProcessIdsCounters(run, g.user, g.ids, key, api);
    var report := UserReport(g.user, results);
    var ms := run.messages;
    var r2 := AfterUser(run, g, key, api);
    assert r2 == st.run.(messages := ms + [report]);
    MessagesAppend(ms, [report]);
    assert ReportGroups([report]) == [g];
    assert ExpectedWrites([report]) == ResultWrites(g.user, results);
    assert ReportSuccesses([report]) == CountSuccessResults(results);
    assert ReportLikes([report]) == SuccessResultLikes(results);
    FlattenAppend(ReportGroups(ms), [g]);
    assert Flatten([g]) == g.ids;
    ReportsClassifiedExtend(ms, report);
    assert r2.calls == Flatten(ReportGroups(r2.messages));
    assert r2.writes == ExpectedWrites(r2.messages);
  }

  lemma ReportsClassifiedExtend(ms: seq<Message>, report: Message)
    requires ReportsClassified(ms) && report.UserReport? && Classified(report.results)
    ensures ReportsClassified(ms + [report])
  {
    forall k | 0 <= k < |ms + [report]| && (ms + [report])[k].UserReport?
      ensures Classified((ms + [report])[k].results)
    {
      if k < |ms| {
        assert (ms + [report])[k] == ms[k];
      }
    }
  }

  /** One step of the outer loop keeps every notified result the answer to
      its own call. */
  lemma {:induction false} UserStepAnswered(run: Run, g: Group, key: string, api: Api)
    requires AnswersCalls(run.calls, run.messages, key, api)
    ensures var r2 := AfterUser(run, g, key, api); AnswersCalls(r2.calls, r2.messages, key, api)
  {
    var st := ProcessIds(run, g.user, g.ids, key, api);
    ProcessIdsResults(run, g.user, g.ids, key, api);
    var report := UserReport(g.user, st.results);
    MessagesAppend(run.messages, [report]);
    assert ReportResults([report]) == st.results;
    var r2 := AfterUser(run, g, key, api);
    var before, after := ReportResults(run.messages), ReportResults(r2.messages);
    assert after == before + st.results;
    forall i | 0 <= i < |r2.calls| ensures after[i] == AnswerTo(api, r2.calls[i], key, i) {
      if i < |run.calls| {
        assert after[i] == before[i] && r2.calls[i] == run.calls[i];
      } else {
        var k := i - |run.calls|;
        assert after[i] == st.results[k] && r2.calls[i] == g.ids[k];
        assert st.results[k].gameId == GameIdsOf(st.results)[k];
      }
    }
  }

  lemma {:induction false} InitialRunConsistent()
    ensures Consistent(InitialRun)
  {
    assert ReportGroups([]) == [];
  }

  /** A consistent run whose notifications have the shape `groups` has
      called exactly the ids of `groups`, in order, and counted each once. */
  lemma {:induction false} ConsistentCalls(run: Run, groups: seq<Group>)
    requires Consistent(run) && ReportGroups(run.messages) == groups
    ensures run.calls == Flatten(groups)
    ensures |run.calls| == run.successes + run.failures == TotalIds(groups)
  {
  }

  /** The outer loop keeps the run consistent. */
  lemma {:induction false} ProcessUsersConsistent(groups: seq<Group>, key: string, api: Api)
    ensures Consistent(ProcessUsers(groups, key, api))
    decreases |groups|
  {
    if groups == [] {
      InitialRunConsistent();
    } else {
      var prefix := groups[..|groups| - 1];
      ProcessUsersConsistent(prefix, key, api);
      UserStepConsistent(ProcessUsers(prefix, key, api), groups[|groups| - 1], key, api);
    }
  }

  /** The outer loop: result i of the notifications is the service's
      answer to call number i, classified. */
  lemma {:induction false} ProcessUsersAnswered(groups: seq<Group>, key: string, api: Api)
    ensures var run := ProcessUsers(groups, key, api); AnswersCalls(run.calls, run.messages, key, api)
    decreases |groups|
  {
    if groups == [] {
      assert ReportResults([]) == [];
    } else {
      var prefix := groups[..|groups| - 1];
      ProcessUsersAnswered(prefix, key, api);
      UserStepAnswered(ProcessUsers(prefix, key, api), groups[|groups| - 1], key, api);
    }
  }

  /** The outer loop: the notifications name the users and their ids
      exactly in the order of `groups`, and are all user notifications. */
  lemma {:induction false} ProcessUsersMessages(groups: seq<Group>, key: string, api: Api)
    ensures var ms := ProcessUsers(groups, key, api).messages;
      ReportGroups(ms) == groups && AllUserReports(ms)
    decreases |groups|
  {
    if groups != [] {
      var prefix := groups[..|groups| - 1];
      var g := groups[|groups| - 1];
      var r1 := ProcessUsers(prefix, key, api);
      ProcessUsersMessages(prefix, key, api);
      UserStep(r1, g, key, api);
      assert ProcessUsers(groups, key, api) == AfterUser(r1, g, key, api);
      SplitLast(groups);
      UserReportsExtend(r1.messages, AfterUser(r1, g, key, api).messages);
    }
  }

  lemma SplitLast(groups: seq<Group>)
    requires groups != []
    ensures groups[..|groups| - 1] + [groups[|groups| - 1]] == groups
  {
  }

  /** Extending user notifications by one more keeps them all user
      notifications. */
  lemma UserReportsExtend(m1: seq<Message>, m2: seq<Message>)
    requires AllUserReports(m1)
    requires |m2| == |m1| + 1 && m2[..|m1|] == m1 && m2[|m1|].UserReport?
    ensures AllUserReports(m2)
  {
    forall k | 0 <= k < |m2| ensures m2[k].UserReport? {
      if k < |m1| {
        assert m2[k] == m2[..|m1|][k];
      }
    }
  }

  /** The fold over all users: every id is called once, user after user,
      counted once as a success or a failure, and reported with the answer
      to its own call. */
  lemma {:induction false} FullRun(groups: seq<Group>, key: string, api: Api)
    ensures var run := ProcessUsers(groups, key, api);
      && Consistent(run)
      && ReportGroups(run.messages) == groups
      && AllUserReports(run.messages)
      && run.calls == Flatten(groups)
      && run.successes + run.failures == TotalIds(groups)
      && AnswersCalls(run.calls, run.messages, key, api)
  {
    ProcessUsersConsistent(groups, key, api);
    ProcessUsersMessages(groups, key, api);
    ProcessUsersAnswered(groups, key, api);
    ConsistentCalls(ProcessUsers(groups, key, api), groups);
  }

  /** A consistent run has written one automatic history row per call, the
      successes and likes of its counters, one registration update per
      success. */
  lemma {:induction false} ConsistentRecords(run: Run)
    requires Consistent(run)
    ensures var recs := Records(run.writes);
      && |recs| == |run.calls|
      && CountSuccesses(recs) == run.successes == UpdateCount(run.writes)
      && SuccessLikes(recs) == run.likes
      && AllAutomatic(recs)
  {
    ExpectedWritesFacts(run.messages);
  }

  // ------------------------------------------------------------ the cycle

  /** What one cycle did: whether it read the active ids, and its calls,
      writes and messages, each in order. */
  datatype Cycle = Cycle(readIds: bool, calls: seq<string>, writes: seq<Effect>, messages: seq<Message>)

  /** The dispatch proper, once the key is known and the ids are grouped:
      nothing when there is no group, otherwise the fold over all users
      followed by one report to the admin, which counts the users and,
      once each, their ids. */
  function Dispatch(groups: seq<Group>, key: string, admin: int, api: Api): (c: Cycle)
    ensures c.readIds && c.calls == Flatten(groups)
    ensures groups == [] ==> c.messages == [] && c.writes == []
    ensures groups != [] ==>
      && |c.messages| == |groups| + 1
      && var rep := c.messages[|groups|];
      && rep.AdminReport? && rep.to == admin && rep.users == |groups|
      && rep.ids == TotalIds(groups) == rep.successes + rep.failures
  {
    if groups == [] then Cycle(true, [], [], [])
    else
      var run := ProcessUsers(groups, key, api);
      var report := AdminReport(admin, |groups|, TotalIds(groups), run.likes, run.successes, run.failures);
      Cycle(true, run.calls, run.writes, run.messages + [report])
  }

  /** `send_automatic_likes`: no usable key, one notice to the admin and
      nothing else; otherwise the dispatch over the active ids grouped by
      user: every active id is called, and the run ends with a report to the
      admin counting them all, or with no message when there is none. */
  function SendAutomaticLikes(keyFile: KeyFile, s: Store, admin: int, api: Api): (c: Cycle)
    ensures !KeyUsable(LoadKey(keyFile)) ==> c == Cycle(false, [], [], [KeyMissingNotice(admin)])
    ensures KeyUsable(LoadKey(keyFile)) ==>
      c.readIds && c.calls == Flatten(GetAllActiveGameIds(s)) && |c.calls| == CountActive(s.gameIds)
    ensures KeyUsable(LoadKey(keyFile)) && CountActive(s.gameIds) == 0 ==> c.messages == [] && c.writes == []
    ensures KeyUsable(LoadKey(keyFile)) && CountActive(s.gameIds) > 0 ==>
      && |c.messages| >= 1
      && var rep := c.messages[|c.messages| - 1];
      && rep.AdminReport? && rep.to == admin && rep.ids == CountActive(s.gameIds)
  {
    GroupedCountsActiveRows(s);
    var key := LoadKey(keyFile);
    if !KeyUsable(key) then Cycle(false, [], [], [KeyMissingNotice(admin)])
    else Dispatch(GetAllActiveGameIds(s), key.value, admin, api)
  }

  /** The calls of a dispatch: every id of the groups exactly once, group
      after group, each group's ids in order. */
  lemma {:induction false} DispatchCalls(groups: seq<Group>, key: string, admin: int, api: Api)
    ensures var c := Dispatch(groups, key, admin, api);
      c.readIds && c.calls == Flatten(groups) && |c.calls| == TotalIds(groups)
  {
    if groups != [] {
      FullRun(groups, key, api);
    }
  }

  /** The messages of a dispatch with work to do: the admin report last,
      the only one not to a user; the user notifications have the shape of
      the groups. */
  lemma {:induction false} DispatchMessages(groups: seq<Group>, key: string, admin: int, api: Api)
    requires groups != []
    ensures var ms := Dispatch(groups, key, admin, api).messages;
      && |ms| >= 1 && ms[|ms| - 1].AdminReport? && ms[|ms| - 1].to == admin
      && ms[|ms| - 1].users == |groups|
      && AllUserReports(ms[..|ms| - 1])
      && ReportGroups(ms) == groups
      && AnswersCalls(Dispatch(groups, key, admin, api).calls, ms, key, api)
  {
    var run := ProcessUsers(groups, key, api);
    FullRun(groups, key, api);
    var rep := AdminReport(admin, |groups|, TotalIds(groups), run.likes, run.successes, run.failures);
    MessagesAppend(run.messages, [rep]);
    assert ReportGroups([rep]) == [] && ReportResults([rep]) == [];
    var ms := run.messages + [rep];
    assert ms[..|ms| - 1] == run.messages;
  }

  /** A consistent run followed by a report carrying its counters: the
      report's figures are those of the history rows written. */
  lemma {:induction false} ReportFigures(run: Run, rep: Message)
    requires Consistent(run) && rep.AdminReport?
    requires rep.successes == run.successes && rep.failures == run.failures && rep.likes == run.likes
    ensures var recs := Records(run.writes);
      var ms := run.messages + [rep];
      && rep.successes + rep.failures == |recs| == |run.calls|
      && AllAutomatic(recs)
      && rep.successes == CountSuccesses(recs) == UpdateCount(run.writes) == ReportSuccesses(ms)
      && rep.likes == SuccessLikes(recs) == ReportLikes(ms)
  {
    ConsistentRecords(run);
    MessagesAppend(run.messages, [rep]);
    assert ReportSuccesses([rep]) == 0 && ReportLikes([rep]) == 0;
  }

  /** The figures of a dispatch with work to do: the report counts every id
      once, as a success or a failure, with one call and one automatic history
      row each; its successes and likes are those of the success rows
      written and the sums over the user notifications, and there is one
      registration update per success. */
  lemma {:induction false} DispatchFigures(groups: seq<Group>, key: string, admin: int, api: Api)
    requires groups != []
    ensures var c := Dispatch(groups, key, admin, api);
      var recs := Records(c.writes);
      && |c.messages| >= 1 && c.messages[|c.messages| - 1].AdminReport?
      && var rep := c.messages[|c.messages| - 1];
      && rep.ids == TotalIds(groups) == |recs| == |c.calls| == rep.successes + rep.failures
      && AllAutomatic(recs)
      && rep.successes == CountSuccesses(recs) == UpdateCount(c.writes) == ReportSuccesses(c.messages)
      && rep.likes == SuccessLikes(recs) == ReportLikes(c.messages)
  {
    var run := ProcessUsers(groups, key, api);
    FullRun(groups, key, api);
    var rep := AdminReport(admin, |groups|, TotalIds(groups), run.likes, run.successes, run.failures);
    ReportFigures(run, rep);
    var ms := run.messages + [rep];
    assert ms[|ms| - 1] == rep;
  }

  /** A missing or empty key: exactly one message, to the admin, and no read
      of the ids, no call, no write. */
  lemma {:induction false} KeyMissingAborts(keyFile: KeyFile, s: Store, admin: int, api: Api)
    requires !KeyUsable(LoadKey(keyFile))
    ensures var c := SendAutomaticLikes(keyFile, s, admin, api);
      c.messages == [KeyMissingNotice(admin)] && !c.readIds && c.calls == [] && c.writes == []
  {
  }

  /** No active id: the ids are read and nothing else happens; no message at
      all, not even to the admin. */
  lemma {:induction false} NoActiveIdsIsQuiet(keyFile: KeyFile, s: Store, admin: int, api: Api)
    requires KeyUsable(LoadKey(keyFile)) && CountActive(s.gameIds) == 0
    ensures var c := SendAutomaticLikes(keyFile, s, admin, api);
      c.readIds && c.messages == [] && c.calls == [] && c.writes == []
  {
    GroupedCountsActiveRows(s);
  }

  /** The calls of a cycle: every active id exactly once, user by user in
      ascending order, each user's ids in row order. */
  lemma {:induction false} CycleCalls(keyFile: KeyFile, s: Store, admin: int, api: Api)
    requires KeyUsable(LoadKey(keyFile))
    ensures var c := SendAutomaticLikes(keyFile, s, admin, api);
      && c.readIds
      && c.calls == Flatten(GetAllActiveGameIds(s))
      && |c.calls| == CountActive(s.gameIds)
  {
    GroupedCountsActiveRows(s);
    DispatchCalls(GetAllActiveGameIds(s), LoadKey(keyFile).value, admin, api);
  }

  /** The messages of a cycle with active ids: the admin report last, the
      only one not to a user; the user notifications name the grouped users
      and ids in order, and the results they carry are, one for one, the
      service's answers to the calls made, classified. */
  lemma {:induction false} CycleMessages(keyFile: KeyFile, s: Store, admin: int, api: Api)
    requires KeyUsable(LoadKey(keyFile)) && CountActive(s.gameIds) > 0
    ensures var c := SendAutomaticLikes(keyFile, s, admin, api);
      var ms := c.messages;
      && |ms| >= 1 && ms[|ms| - 1].AdminReport? && ms[|ms| - 1].to == admin
      && AllUserReports(ms[..|ms| - 1])
      && ReportGroups(ms) == GetAllActiveGameIds(s)
      && ms[|ms| - 1].users == |GetAllActiveGameIds(s)|
      && AnswersCalls(c.calls, ms, LoadKey(keyFile).value, api)
  {
    GroupedCountsActiveRows(s);
    DispatchMessages(GetAllActiveGameIds(s), LoadKey(keyFile).value, admin, api);
  }

  /** The figures of a cycle with active ids: the report's ids are the active
      rows, one call and one automatic history row each; successes plus
      failures equal them and are at least one, so the success rate is
      defined; the report's successes and likes are those of the success
      rows written. */
  lemma {:induction false} CycleFigures(keyFile: KeyFile, s: Store, admin: int, api: Api)
    requires KeyUsable(LoadKey(keyFile)) && CountActive(s.gameIds) > 0
    ensures var c := SendAutomaticLikes(keyFile, s, admin, api);
      var recs := Records(c.writes);
      && |c.messages| >= 1 && c.messages[|c.messages| - 1].AdminReport?
      && var rep := c.messages[|c.messages| - 1];
      && rep.ids == CountActive(s.gameIds) == |recs| == |c.calls|
      && rep.successes + rep.failures == rep.ids >= 1
      && AllAutomatic(recs)
      && rep.successes == CountSuccesses(recs) == UpdateCount(c.writes)
      && rep.likes == SuccessLikes(recs)
  {
    GroupedCountsActiveRows(s);
    DispatchFigures(GetAllActiveGameIds(s), LoadKey(keyFile).value, admin, api);
  }

  /** Applying a cycle's writes to the store it read: the send count grows by
      the ids processed, the successes and total likes of `get_stats` by the
      figures of the admin report, and the registrations keep their number. */
  lemma {:induction false} CycleStats(keyFile: KeyFile, s: Store, admin: int, api: Api, now: string)
    requires KeyUsable(LoadKey(keyFile)) && CountActive(s.gameIds) > 0
    ensures var c := SendAutomaticLikes(keyFile, s, admin, api);
      var s' := ApplyAll(s, c.writes, now);
      && |c.messages| >= 1 && c.messages[|c.messages| - 1].AdminReport?
      && var rep := c.messages[|c.messages| - 1];
      && GetStats(s').totalSends == GetStats(s).totalSends + rep.ids
      && GetStats(s').successes == GetStats(s).successes + rep.successes
      && GetStats(s').totalLikes == GetStats(s).totalLikes + rep.likes
      && |s'.gameIds| == |s.gameIds|
  {
    var c := SendAutomaticLikes(keyFile, s, admin, api);
    CycleFigures(keyFile, s, admin, api);
    ApplyAllHistory(s, c.writes, now);
    HistoryAppend(s.history, Records(c.writes));
  }
}
