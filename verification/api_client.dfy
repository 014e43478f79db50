/** api_client.py: the response record of the remote likes service, the
    failure records the client synthesises when the HTTP call raises, the
    message views built from a response, and the key file. */
module ApiClient {
  import opened Wrappers
  import Text
  import Markdown
  import NumberFormat

  /** A parsed JSON response. Every field may be absent from the payload;
      `None` is an absent key, and `GetOr` is `response.get(key, default)`. */
  datatype Response = Response(
    success: Option<bool>,
    error: Option<string>,
    message: Option<string>,
    likesAdded: Option<int>,
    player: Option<string>,
    uid: Option<string>,
    region: Option<string>,
    initialLikes: Option<int>,
    finalLikes: Option<int>,
    level: Option<string>,
    exp: Option<int>,
    status: Option<int>,
    timestamp: Option<string>,
    minLikesRequired: Option<int>,
    usageCounted: Option<bool>)

  /** The payload with no keys at all. */
  const EmptyResponse: Response :=
    Response(None, None, None, None, None, None, None, None, None, None, None, None, None, None, None)

  /** Python truthiness of `response.get("success")`. */
  predicate SuccessTruthy(r: Response) {
    r.success == Some(true)
  }

  /** The exception classes `send_likes` distinguishes. */
  datatype FailureKind = Timeout | ConnectionError | UnknownError

  /** What one HTTP call produced: a parsed payload, or an exception of some
      kind whose text is `detail`. The call itself is outside the model. */
  datatype CallResult = Payload(body: Response) | Raised(kind: FailureKind, detail: string)

  /** The remote service, as an oracle: game id, key, and the number of calls
      made before this one. */
  type Api = (string, string, nat) -> CallResult

  const TimeoutCode: string := "timeout"
  const ConnectionErrorCode: string := "connection_error"
  const UnknownErrorCode: string := "unknown_error"

  function ErrorCode(kind: FailureKind): string {
    match kind
    case Timeout => TimeoutCode
    case ConnectionError => ConnectionErrorCode
    case UnknownError => UnknownErrorCode
  }

  /** The record `send_likes` returns in place of a payload when the call
      raises: an error code naming the failure, a message, `usageCounted`
      false, and no other key: in particular no `success` or `likesAdded`.
      Each exception class has its own code, and the text of a connection
      or unknown error ends with the exception's text. */
  function SynthesizedFailure(kind: FailureKind, detail: string): (r: Response)
    ensures r.error.Some? && r.error.value in {TimeoutCode, ConnectionErrorCode, UnknownErrorCode}
    ensures r.usageCounted == Some(false)
    ensures r.success.None? && r.likesAdded.None?
    ensures r.message.Some?
    ensures kind.Timeout? <==> r.error == Some(TimeoutCode)
    ensures kind.ConnectionError? <==> r.error == Some(ConnectionErrorCode)
    ensures kind.UnknownError? <==> r.error == Some(UnknownErrorCode)
    ensures !kind.Timeout? ==>
      |detail| <= |r.message.value| && r.message.value[|r.message.value| - |detail|..] == detail
    ensures r.(error := None, message := None, usageCounted := None) == EmptyResponse
  {
    var msg :=
      match kind
      case Timeout => "Tempo de resposta esgotado. Tente novamente."
      case ConnectionError => "Erro de conexão: " + detail
      case UnknownError => "Erro desconhecido: " + detail;
    EmptyResponse.(error := Some(ErrorCode(kind)), message := Some(msg), usageCounted := Some(false))
  }

  /** `send_likes(game_id, api_key)`: the payload when the call returned one,
      the synthesised failure record otherwise. */
  function SendLikes(api: Api, gameId: string, key: string, callNo: nat): (r: Response)
    ensures api(gameId, key, callNo).Payload? ==> r == api(gameId, key, callNo).body
    ensures api(gameId, key, callNo).Raised? ==> r.usageCounted == Some(false) && r.success.None?
    ensures api(gameId, key, callNo).Raised? ==>
      r == SynthesizedFailure(api(gameId, key, callNo).kind, api(gameId, key, callNo).detail)
  {
    match api(gameId, key, callNo)
    case Payload(body) => body
    case Raised(kind, detail) => SynthesizedFailure(kind, detail)
  }

  /** `get_status_text`: "Online" exactly for status 1. */
  function StatusText(status: int): (r: string)
    ensures r == "Online" <==> status == 1
    ensures r == "Offline" <==> status != 1
  {
    if status == 1 then "Online" else "Offline"
  }

  /** The fields shown in the success and partial messages, each with the
      default the source uses when the key is absent. */
  datatype PlayerView = PlayerView(
    player: string, uid: string, region: string,
    initialLikes: string, finalLikes: string, likesAdded: int,
    level: string, exp: string, status: string, timestamp: string)

  datatype PartialView = PartialView(view: PlayerView, minRequired: int)

  /** The player name as displayed: "N/A" when absent or empty, otherwise the
      name with every special character escaped, which reads back unchanged. */
  function PlayerName(player: Option<string>): (r: string)
    ensures player.None? ==> r == "N/A"
    ensures player == Some([]) ==> r == "N/A"
    ensures player.Some? && player.value != [] ==> r == Markdown.EscapeChars(player.value)
    ensures player.Some? && player.value != [] ==> Markdown.Unescape(r) == player.value
  {
    var name := player.GetOr("N/A");
    Markdown.UnescapeEscapeChars(name);
    Markdown.EscapePlaceholder();
    Markdown.Escape(name)
  }

  /** A count as displayed, "0" when absent. */
  function CountText(n: Option<int>): (r: string)
    ensures n.None? ==> r == "0"
    ensures n.Some? ==> r == NumberFormat.FormatNumber(n.value)
  {
    NumberFormat.FormatNumberZero();
    NumberFormat.FormatNumber(n.GetOr(0))
  }

  /** Each field shows the response's value when present; the defaults are
      "N/A" for text fields, 0 for counts, and "Offline" for a missing
      status. */
  function ViewOf(data: Response): (v: PlayerView)
    ensures v.player == PlayerName(data.player)
    ensures data.likesAdded.None? ==> v.likesAdded == 0
    ensures data.likesAdded.Some? ==> v.likesAdded == data.likesAdded.value
    ensures data.uid.None? ==> v.uid == "N/A"
    ensures data.uid.Some? ==> v.uid == data.uid.value
    ensures data.region.None? ==> v.region == "N/A"
    ensures data.region.Some? ==> v.region == data.region.value
    ensures data.level.None? ==> v.level == "N/A"
    ensures data.level.Some? ==> v.level == data.level.value
    ensures data.timestamp.None? ==> v.timestamp == "N/A"
    ensures data.timestamp.Some? ==> v.timestamp == data.timestamp.value
    ensures v.initialLikes == CountText(data.initialLikes)
    ensures v.finalLikes == CountText(data.finalLikes)
    ensures v.exp == CountText(data.exp)
    ensures data.status.None? ==> v.status == "Offline"
    ensures data.status.Some? ==> v.status == StatusText(data.status.value)
  {
    PlayerView(
      PlayerName(data.player),
      data.uid.GetOr("N/A"),
      data.region.GetOr("N/A"),
      CountText(data.initialLikes),
      CountText(data.finalLikes),
      data.likesAdded.GetOr(0),
      data.level.GetOr("N/A"),
      CountText(data.exp),
      StatusText(data.status.GetOr(0)),
      data.timestamp.GetOr("N/A"))
  }

  /** `format_success_message`: the player view of the response, the same
      fields the partial message shows; it reports the likes the response
      says were added and shows an online player as "Online". */
  function FormatSuccessMessage(data: Response): (v: PlayerView)
    ensures v == ViewOf(data)
    ensures v == FormatPartialMessage(data).view
    ensures data.likesAdded.Some? ==> v.likesAdded == data.likesAdded.value
    ensures data.status == Some(1) ==> v.status == "Online"
  {
    ViewOf(data)
  }

  const DefaultMinRequired: int := 100

  /** `format_partial_message`: the player view plus the minimum the service
      reports, 100 when it reports none. */
  function FormatPartialMessage(data: Response): (p: PartialView)
    ensures p.view == ViewOf(data)
    ensures data.minLikesRequired.None? ==> p.minRequired == DefaultMinRequired
    ensures data.minLikesRequired.Some? ==> p.minRequired == data.minLikesRequired.value
  {
    PartialView(ViewOf(data), data.minLikesRequired.GetOr(DefaultMinRequired))
  }

  /** A payload with no fields renders with every default. */
  lemma PartialDefaults()
    ensures FormatPartialMessage(EmptyResponse) ==
      PartialView(PlayerView("N/A", "N/A", "N/A", "0", "0", 0, "N/A", "0", "Offline", "N/A"), 100)
  {
  }

  /** The three error templates; each names the game id. */
  datatype ErrorTemplate =
    | PlayerNotFound(gameId: string)
    | TimedOut(gameId: string, message: string)
    | GenericError(gameId: string, message: string)

  const PlayerNotFoundCode: string := "player_not_found"
  const UnknownMessage: string := "Erro desconhecido"

  /** `format_error_message`: the player-not-found template for that code,
      else the timeout template for "timeout", else the generic one; the
      message defaults to "Erro desconhecido"; the game id is always shown. */
  function FormatErrorMessage(data: Response, gameId: string): (t: ErrorTemplate)
    ensures t.gameId == gameId
    ensures t.PlayerNotFound? <==> data.error == Some(PlayerNotFoundCode)
    ensures t.TimedOut? <==> data.error == Some(TimeoutCode)
    ensures t.GenericError? <==> data.error != Some(PlayerNotFoundCode) && data.error != Some(TimeoutCode)
    ensures !t.PlayerNotFound? ==> t.message == data.message.GetOr(UnknownMessage)
  {
    var error := data.error.GetOr("unknown");
    var message := data.message.GetOr(UnknownMessage);
    if error == PlayerNotFoundCode then PlayerNotFound(gameId)
    else if error == TimeoutCode then TimedOut(gameId, message)
    else GenericError(gameId, message)
  }

  /** A client-side timeout is always shown with the timeout template. */
  lemma TimeoutUsesTimeoutTemplate(detail: string, gameId: string)
    ensures FormatErrorMessage(SynthesizedFailure(Timeout, detail), gameId) ==
      TimedOut(gameId, "Tempo de resposta esgotado. Tente novamente.")
  {
  }

  /** The key file: `None` when the file does not exist. */
  type KeyFile = Option<string>

  /** `load_key`: no key without a file; otherwise the stripped contents. */
  function LoadKey(file: KeyFile): (k: Option<string>)
    ensures file.None? <==> k.None?
    ensures k.Some? ==> k.value == Text.Strip(file.value)
  {
    match file
    case None => None
    case Some(contents) => Some(Text.Strip(contents))
  }

  /** `save_key`: writes the stripped key; loading it back yields the
      stripped key. */
  function SaveKey(key: string): (file: KeyFile)
    ensures LoadKey(file) == Some(Text.Strip(key))
  {
    Text.StripIdempotent(key);
    Some(Text.Strip(key))
  }

  /** `if not api_key`: a missing key and an empty key both count as absent. */
  predicate KeyUsable(k: Option<string>) {
    k.Some? && k.value != []
  }
}
