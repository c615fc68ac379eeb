/**
  The records exchanged by the notes application: the in-memory note
  (src/types/note.ts), the draft the form produces, the all-string row the
  spreadsheet script stores (src/services/googleSheets.ts), and the request and
  response bodies of the script's web endpoint.
*/
module Types {
  import opened Wrappers

  /** A note as the browser holds it. */
  datatype Note = Note(
    id: string,
    title: string,
    content: string,
    category: string,
    tags: seq<string>,
    createdAt: string,
    updatedAt: string,
    isPinned: bool)

  /** A note without the fields the synchronisation layer assigns (the id and both timestamps left out). */
  datatype NoteDraft = NoteDraft(
    title: string,
    content: string,
    category: string,
    tags: seq<string>,
    isPinned: bool)

  /** A note as one spreadsheet row carries it: tags comma-joined, the pin flag as a string. */
  datatype WireNote = WireNote(
    id: string,
    title: string,
    content: string,
    category: string,
    tags: string,
    createdAt: string,
    updatedAt: string,
    isPinned: string)

  /** The JSON body of a POST: `{ action, noteId?, note? }`; an absent member is `None`. */
  datatype PostBody = PostBody(action: string, noteId: Option<string>, note: Option<WireNote>)

  /** What the browser sends to the endpoint: a GET with `?action=…` or a POST with a body. */
  datatype Request = Get(action: string) | Post(body: PostBody)

  /**
    A JSON response envelope `{ error?, success?, notes? }`. `success` is `Some(b)` only when
    the member is a JSON boolean; an absent member or one of another JSON type is `None`.
  */
  datatype Envelope = Envelope(error: Option<string>, success: Option<bool>, notes: Option<seq<WireNote>>)

  function ErrorEnvelope(message: string): Envelope {
    Envelope(Some(message), None, None)
  }

  function SuccessEnvelope(b: bool): Envelope {
    Envelope(None, Some(b), None)
  }

  function NotesEnvelope(notes: seq<WireNote>): Envelope {
    Envelope(None, None, Some(notes))
  }

  /** The fallback category, "General". */
  const DefaultCategory := "Genel"
}
