/**
  The browser's gateway to the spreadsheet endpoint (src/services/googleSheets.ts). Each
  operation guards the configured URL, issues one request and classifies the answer. The
  network is abstracted: the answer is a `Response` given as a parameter, and each operation
  returns the request it sent (`None` when it stopped before sending) with its outcome, a
  returned value or a thrown error message.
*/
module Gateway {
  import opened Wrappers
  import opened Types
  import Text

  const UrlPrefix := "https://script.google.com/macros/s/"
  const UrlSuffix := "/exec"
  const DeploymentId := "AKfycbzGt5tFG0biXxQ3WwoJ_NJe7lTMA9WMEliaEq_tygLRp1LFn7rubddmsI43UOziZsfXtA"

  /** The configured endpoint, `WEB_APP_URL`. */
  const WebAppUrl := UrlPrefix + DeploymentId + UrlSuffix

  const ConfigMessage := "Google Apps Script Web App URL ayarlanmamış. Lütfen README talimatlarını takip edin."

  /**
    What a request can come back as: `fetch` rejected, a non-2xx status with its body text,
    a 2xx body that is not JSON, or a parsed JSON envelope.
  */
  datatype Response =
    | NetworkFailure(message: string)
    | NotOk(status: nat, text: string)
    | BadJson(text: string)
    | Json(body: Envelope)

  /** A method's settled promise: a value, or a rejection with an error message. */
  datatype Outcome<+T> = Returned(value: T) | Threw(message: string)

  /** The request an operation sent, if any, and how it ended. */
  datatype Exchange<+T> = Exchange(sent: Option<Request>, result: Outcome<T>)

  /** `isValidUrl` */
  predicate IsValidUrl(url: string)
    ensures IsValidUrl(url) ==> |UrlPrefix| <= |url| && url[..|UrlPrefix|] == UrlPrefix
    ensures IsValidUrl(url) ==> |UrlSuffix| <= |url| && url[|url| - |UrlSuffix|..] == UrlSuffix
  {
    url != "" && Text.StartsWith(url, UrlPrefix) && Text.EndsWith(url, UrlSuffix)
  }

  /** The URL guard accepts exactly the script-execution URLs. */
  lemma ValidUrlShape(url: string)
    ensures IsValidUrl(url) <==>
      && |UrlPrefix| <= |url| && url[..|UrlPrefix|] == UrlPrefix
      && |UrlSuffix| <= |url| && url[|url| - |UrlSuffix|..] == UrlSuffix
  {
  }

  /** The configured endpoint passes the guard. */
  lemma ConfiguredUrlIsValid()
    ensures IsValidUrl(WebAppUrl)
  {
    assert WebAppUrl[..|UrlPrefix|] == UrlPrefix;
    assert WebAppUrl == (UrlPrefix + DeploymentId) + UrlSuffix;
    assert WebAppUrl[|WebAppUrl| - |UrlSuffix|..] == UrlSuffix;
  }

  /** JavaScript truthiness of the envelope's `error` member. */
  predicate HasError(e: Envelope) {
    e.error.Some? && e.error.value != ""
  }

  function HttpMessage(status: nat, text: string): string {
    "HTTP error! status: " + Text.NatToString(status) + ", response: " + Text.Take(text, 200)
  }

  function InvalidJsonMessage(text: string): string {
    "Invalid JSON response: " + Text.Take(text, 200)
  }

  /** `getAllNotes`: every failure is rethrown; a missing `notes` member reads as no notes. */
  function GetAllNotes(url: string, resp: Response): (x: Exchange<seq<WireNote>>)
    ensures x.sent == if IsValidUrl(url) then Some(Get("getAllNotes")) else None
    ensures !IsValidUrl(url) ==> x.result == Threw(ConfigMessage)
    ensures x.result.Returned? <==> IsValidUrl(url) && resp.Json? && !HasError(resp.body)
    ensures x.result.Returned? ==> x.result.value == resp.body.notes.GetOr([])
    ensures IsValidUrl(url) ==> match resp
      case NetworkFailure(m) => x.result == Threw(m)
      case NotOk(status, text) => x.result == Threw(HttpMessage(status, text))
      case BadJson(text) => x.result == Threw(InvalidJsonMessage(text))
      case Json(e) => HasError(e) ==> x.result == Threw(e.error.value)
  {
    if !IsValidUrl(url) then Exchange(None, Threw(ConfigMessage))
    else
      var result := match resp
        case NetworkFailure(m) => Threw(m)
        case NotOk(status, text) => Threw(HttpMessage(status, text))
        case BadJson(text) => Threw(InvalidJsonMessage(text))
        case Json(e) =>
          if e.error.Some? && e.error.value != "" then Threw(e.error.value)
          else Returned(match e.notes case Some(ns) => ns case None => []);
      Exchange(Some(Get("getAllNotes")), result)
  }

  /**
    The shared shape of the four mutating calls: the URL guard throws, and past it every
    failure is swallowed into `false`; `true` needs `success` to be exactly `true` and no
    error member.
  */
  function Mutate(url: string, body: PostBody, resp: Response): (x: Exchange<bool>)
    ensures x.sent == if IsValidUrl(url) then Some(Post(body)) else None
    ensures x.result.Threw? <==> !IsValidUrl(url)
    ensures x.result.Threw? ==> x.result.message == ConfigMessage
    ensures x.result == Returned(true) <==>
      IsValidUrl(url) && resp.Json? && !HasError(resp.body) && resp.body.success == Some(true)
  {
    if !IsValidUrl(url) then Exchange(None, Threw(ConfigMessage))
    else
      var ok := match resp
        case Json(e) => if e.error.Some? && e.error.value != "" then false else e.success == Some(true)
        case _ => false;
      Exchange(Some(Post(body)), Returned(ok))
  }

  /** `addNote` */
  function AddNote(url: string, note: WireNote, resp: Response): (x: Exchange<bool>)
    ensures x.sent.Some? ==> x.sent.value == Post(PostBody("addNote", None, Some(note)))
  {
    Mutate(url, PostBody("addNote", None, Some(note)), resp)
  }

  /** `updateNote` */
  function UpdateNote(url: string, noteId: string, note: WireNote, resp: Response): (x: Exchange<bool>)
    ensures x.sent.Some? ==> x.sent.value == Post(PostBody("updateNote", Some(noteId), Some(note)))
  {
    Mutate(url, PostBody("updateNote", Some(noteId), Some(note)), resp)
  }

  /** `deleteNote` */
  function DeleteNote(url: string, noteId: string, resp: Response): (x: Exchange<bool>)
    ensures x.sent.Some? ==> x.sent.value == Post(PostBody("deleteNote", Some(noteId), None))
  {
    Mutate(url, PostBody("deleteNote", Some(noteId), None), resp)
  }

  /** `initializeSheet` */
  function InitializeSheet(url: string, resp: Response): (x: Exchange<bool>)
    ensures x.sent.Some? ==> x.sent.value == Post(PostBody("initializeSheet", None, None))
  {
    Mutate(url, PostBody("initializeSheet", None, None), resp)
  }

  /** `testConnection`: never throws; every failure, the URL guard included, is `false`. */
  function TestConnection(url: string, resp: Response): (x: Exchange<bool>)
    ensures x.sent == if IsValidUrl(url) then Some(Get("testConnection")) else None
    ensures x.result.Returned?
    ensures x.result.value <==>
      IsValidUrl(url) && resp.Json? && !HasError(resp.body) && resp.body.success == Some(true)
  {
    if !IsValidUrl(url) then Exchange(None, Returned(false))
    else
      var ok := match resp
        case Json(e) => if e.error.Some? && e.error.value != "" then false else e.success == Some(true)
        case _ => false;
      Exchange(Some(Get("testConnection")), Returned(ok))
  }

  /**
    What the script endpoint answers is classified as it meant it: `{ success: b }` is `b`,
    `{ error: m }` is `false` for the mutating calls and a thrown `m` for `getAllNotes`, and
    `{ notes: ns }` is `ns`.
  */
  lemma ServerEnvelopes(url: string, body: PostBody, b: bool, m: string, ns: seq<WireNote>)
    requires IsValidUrl(url)
    requires m != ""
    ensures Mutate(url, body, Json(SuccessEnvelope(b))).result == Returned(b)
    ensures Mutate(url, body, Json(ErrorEnvelope(m))).result == Returned(false)
    ensures TestConnection(url, Json(SuccessEnvelope(true))).result == Returned(true)
    ensures TestConnection(url, Json(ErrorEnvelope(m))).result == Returned(false)
    ensures GetAllNotes(url, Json(NotesEnvelope(ns))).result == Returned(ns)
    ensures GetAllNotes(url, Json(ErrorEnvelope(m))).result == Threw(m)
  {
  }
}
