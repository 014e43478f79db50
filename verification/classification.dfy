/** The three-way reading of one response, shared by the nightly cycle
    (scheduler.py) and the `/like` command (bot.py), and the store writes
    each outcome causes. */
module Classification {
  import opened Wrappers
  import opened ApiClient
  import opened Registry

  /** `MIN_LIKES_REQUIRED` of config.py. */
  const MinLikesRequired: int := 100

  const InsufficientLikesCode: string := "INSUFFICIENT_LIKES"
  const PartialErrorMessage: string := "Menos de 100 likes"

  datatype Outcome =
    | Success(likes: int, player: string)
    | Partial(likes: int, player: string)
    | Error(message: string)

  /** First match wins: success when `success` is truthy and at least the
      minimum was added; partial when `success` is not truthy and the error
      code is INSUFFICIENT_LIKES; error otherwise, which includes a truthy
      `success` with fewer likes than the minimum. A success always carries at
      least the minimum. */
  function Classify(r: Response): (o: Outcome)
    ensures o.Success? <==> SuccessTruthy(r) && r.likesAdded.GetOr(0) >= MinLikesRequired
    ensures o.Partial? <==> !SuccessTruthy(r) && r.error == Some(InsufficientLikesCode)
    ensures o.Error? <==> !o.Success? && !o.Partial?
    ensures o.Success? ==> o.likes >= MinLikesRequired
    ensures !o.Error? ==> o.likes == r.likesAdded.GetOr(0) && o.player == r.player.GetOr("N/A")
    ensures o.Error? ==> o.message == r.message.GetOr(UnknownMessage)
  {
    if SuccessTruthy(r) && r.likesAdded.GetOr(0) >= MinLikesRequired then
      Success(r.likesAdded.GetOr(0), r.player.GetOr("N/A"))
    else if !SuccessTruthy(r) && r.error == Some(InsufficientLikesCode) then
      Partial(r.likesAdded.GetOr(0), r.player.GetOr("N/A"))
    else
      Error(r.message.GetOr(UnknownMessage))
  }

  /** The source's gap: a truthy `success` with fewer likes than the minimum
      matches neither the success nor the partial test and is read as an
      error, whatever error code it carries. */
  lemma SuccessBelowMinimumIsError(r: Response)
    requires r.success == Some(true) && r.likesAdded.GetOr(0) < MinLikesRequired
    ensures Classify(r).Error?
  {
  }

  /** Every failure the client synthesises reads as an error carrying its
      message, never as a partial send. */
  lemma SynthesizedFailuresAreErrors(kind: FailureKind, detail: string)
    ensures var r := SynthesizedFailure(kind, detail);
      Classify(r).Error? && Classify(r).message == r.message.value
  {
  }

  /** The sample responses: 150 likes for "Ana" is a success of 150; an
      insufficient-likes answer with 30 is a partial of 30. */
  lemma ClassifyExamples()
    ensures Classify(EmptyResponse.(success := Some(true), likesAdded := Some(150), player := Some("Ana")))
      == Success(150, "Ana")
    ensures Classify(EmptyResponse.(success := Some(false), error := Some(InsufficientLikesCode), likesAdded := Some(30)))
      == Partial(30, "N/A")
  {
  }

  /** The history row one attempt writes. */
  function RecordFor(user: int, gameId: string, o: Outcome, isAuto: bool): (rec: SendRecord)
    ensures rec.telegramId == user && rec.gameId == gameId && rec.isAuto == isAuto
    ensures rec.success <==> o.Success?
    ensures rec.likesSent == (if o.Error? then 0 else o.likes)
    ensures rec.errorMessage ==
      (match o
       case Success(_, _) => None
       case Partial(_, _) => Some(PartialErrorMessage)
       case Error(msg) => Some(msg))
    ensures rec.playerName == (if o.Error? then None else Some(o.player))
  {
    match o
    case Success(likes, player) => SendRecord(user, gameId, likes, true, None, Some(player), isAuto)
    case Partial(likes, player) => SendRecord(user, gameId, likes, false, Some(PartialErrorMessage), Some(player), isAuto)
    case Error(msg) => SendRecord(user, gameId, 0, false, Some(msg), None, isAuto)
  }

  /** The store writes of one attempt, in the order the source makes them: a
      success updates the registration and then logs; partial and error only
      log. */
  function AttemptEffects(user: int, gameId: string, o: Outcome, isAuto: bool): (es: seq<Effect>)
    ensures Records(es) == [RecordFor(user, gameId, o, isAuto)]
    ensures |es| == (if o.Success? then 2 else 1)
    ensures o.Success? ==> es[0] == UpdateInfo(user, gameId, o.player, o.likes)
    ensures UpdateCount(es) == (if o.Success? then 1 else 0)
  {
    var log := [AppendHistory(RecordFor(user, gameId, o, isAuto))];
    assert Records(log) == [RecordFor(user, gameId, o, isAuto)];
    if o.Success? then
      var es := [UpdateInfo(user, gameId, o.player, o.likes)] + log;
      assert es[1..] == log;
      es
    else log
  }

  /** What one attempt does to the store: exactly one history row is
      appended; only a success touches the registrations, raising the total
      of the user's active rows for that id by the likes added; partial and
      error sends leave every registration as it was. */
  lemma AttemptOnStore(s: Store, user: int, gameId: string, o: Outcome, isAuto: bool, now: string)
    ensures var s' := ApplyAll(s, AttemptEffects(user, gameId, o, isAuto), now);
      && s'.history == s.history + [RecordFor(user, gameId, o, isAuto)]
      && s'.users == s.users
      && |s'.gameIds| == |s.gameIds|
      && (!o.Success? ==> s'.gameIds == s.gameIds)
      && (forall i :: 0 <= i < |s.gameIds| ==>
            s'.gameIds[i].totalLikesReceived == s.gameIds[i].totalLikesReceived +
              (if o.Success? && s.gameIds[i].active && Matches(s.gameIds[i], user, gameId) then o.likes else 0))
  {
    var es := AttemptEffects(user, gameId, o, isAuto);
    ApplyAllHistory(s, es, now);
    var rec := RecordFor(user, gameId, o, isAuto);
    if o.Success? {
      assert es == [UpdateInfo(user, gameId, o.player, o.likes), AppendHistory(rec)];
      var s1 := Apply(s, es[0], now);
      assert es[1..] == [AppendHistory(rec)] && es[1..][1..] == [];
      assert ApplyAll(s1, es[1..], now) == ApplyAll(LogSend(s1, rec), [], now);
    } else {
      assert es[1..] == [];
      assert ApplyAll(s, es, now) == LogSend(s, es[0].record);
    }
  }
}
