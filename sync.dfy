/**
  The synchronisation layer (src/hooks/useGoogleSheets.ts): the conversion between the wire
  row and the in-memory note, and the store of `notes`, `loading` and `error` that every
  operation updates only after the gateway has acknowledged the write. Each operation is
  specified by a pure transition function (a `Step`), and the store's methods are proved to
  perform exactly that transition.
*/
module Sync {
  import opened Wrappers
  import opened Types
  import Text
  import Gateway

  /** A tag that survives a round trip through the wire: non-empty, trimmed, comma-free. */
  predicate WellFormedTag(t: string) {
    t != "" && Text.IsTrimmed(t) && ',' !in t
  }

  predicate WellFormedTags(tags: seq<string>) {
    forall k :: 0 <= k < |tags| ==> WellFormedTag(tags[k])
  }

  /** The pieces of a split, each trimmed, with the empty ones dropped. */
  function Clean(pieces: seq<string>): (tags: seq<string>)
    ensures |tags| <= |pieces|
  {
    if pieces == [] then []
    else
      var t := Text.Trim(pieces[0]);
      (if t != "" then [t] else []) + Clean(pieces[1..])
  }

  /** A piece without a comma that does not trim to nothing gives a well-formed tag. */
  lemma CleanedPieceIsTag(p: string)
    requires ',' !in p && Text.Trim(p) != ""
    ensures WellFormedTag(Text.Trim(p))
  {
    Text.TrimIsTrimmedInfix(p);
  }

  /** Cleaned pieces of a split are well-formed tags. */
  lemma {:induction false} CleanWellFormed(pieces: seq<string>)
    requires forall k :: 0 <= k < |pieces| ==> ',' !in pieces[k]
    ensures WellFormedTags(Clean(pieces))
  {
    if pieces != [] {
      var t := Text.Trim(pieces[0]);
      var rest := Clean(pieces[1..]);
      assert forall k :: 0 <= k < |pieces[1..]| ==> ',' !in pieces[1..][k] by {
        forall k | 0 <= k < |pieces[1..]| ensures ',' !in pieces[1..][k] {
          assert pieces[1..][k] == pieces[k + 1];
        }
      }
      CleanWellFormed(pieces[1..]);
      if t != "" {
        CleanedPieceIsTag(pieces[0]);
        assert Clean(pieces) == [t] + rest;
        forall k | 0 <= k < |[t] + rest| ensures WellFormedTag(([t] + rest)[k]) {
          if k > 0 {
            assert ([t] + rest)[k] == rest[k - 1];
          }
        }
      } else {
        assert Clean(pieces) == rest;
      }
    }
  }

  /** Decoding the wire `tags`: an empty string is no tags; otherwise split on `,`, trim, drop empties. */
  function DecodeTags(s: string): (tags: seq<string>)
    ensures WellFormedTags(tags)
    ensures s == "" ==> tags == []
  {
    if s == "" then []
    else
      CleanWellFormed(Text.Split(s, ','));
      Clean(Text.Split(s, ','))
  }

  function EncodeTags(tags: seq<string>): string {
    Text.Join(tags, ", ")
  }

  function EncodePinned(b: bool): string {
    if b then "true" else "false"
  }

  /** `convertFromGoogleSheets` */
  function FromWire(w: WireNote): (n: Note)
    ensures WellFormedTags(n.tags) && (w.tags == "" ==> n.tags == [])
    ensures n.isPinned <==> w.isPinned == "true"
  {
    Note(w.id, w.title, w.content, w.category, DecodeTags(w.tags), w.createdAt, w.updatedAt, w.isPinned == "true")
  }

  /** `convertToGoogleSheets` */
  function ToWire(n: Note): (w: WireNote)
    ensures w.isPinned == "true" || w.isPinned == "false"
    ensures w.isPinned == "true" <==> n.isPinned
    ensures n.tags == [] ==> w.tags == ""
  {
    WireNote(n.id, n.title, n.content, n.category, EncodeTags(n.tags), n.createdAt, n.updatedAt, EncodePinned(n.isPinned))
  }

  /** The pin flag decodes to true exactly for the string "true", and encodes to "true" or "false". */
  lemma PinnedCoding(w: WireNote, n: Note)
    ensures FromWire(w).isPinned <==> w.isPinned == "true"
    ensures ToWire(n).isPinned == (if n.isPinned then "true" else "false")
    ensures FromWire(ToWire(n)).isPinned == n.isPinned
  {
  }

  /** Every tag after the first, as it stands after a split of the `", "`-joined string. */
  function Spaced(tags: seq<string>): (r: seq<string>)
    ensures |r| == |tags|
  {
    if tags == [] then [] else [" " + tags[0]] + Spaced(tags[1..])
  }

  lemma {:induction false} SplitJoin(p: string, tags: seq<string>)
    requires |tags| >= 1
    requires ',' !in p
    requires forall k :: 0 <= k < |tags| ==> ',' !in tags[k]
    ensures Text.Split(p + Text.Join(tags, ", "), ',') == [p + tags[0]] + Spaced(tags[1..])
    decreases tags
  {
    if |tags| == 1 {
      Text.SplitWithoutSeparator(p + tags[0], ',');
      assert Spaced(tags[1..]) == [];
    } else {
      var rest := Text.Join(tags[1..], ", ");
      assert p + Text.Join(tags, ", ") == (p + tags[0]) + [','] + (" " + rest);
      Text.SplitAtSeparator(p + tags[0], ',', " " + rest);
      SplitJoin(" ", tags[1..]);
      assert tags[1..][1..] == tags[2..];
    }
  }

  lemma {:induction false} CleanSpaced(tags: seq<string>)
    requires WellFormedTags(tags)
    ensures Clean(Spaced(tags)) == tags
  {
    if tags != [] {
      var s := Spaced(tags);
      assert s[0] == " " + tags[0] && s[1..] == Spaced(tags[1..]);
      Text.TrimSkipsLeadingSpace(" ", tags[0]);
      Text.TrimOfTrimmed(tags[0]);
      CleanSpaced(tags[1..]);
    }
  }

  lemma CommaFree(tags: seq<string>)
    requires WellFormedTags(tags)
    ensures forall k :: 0 <= k < |tags| ==> ',' !in tags[k]
  {
    forall k | 0 <= k < |tags| ensures ',' !in tags[k] {
      assert WellFormedTag(tags[k]);
    }
  }

  lemma EncodeNonEmpty(tags: seq<string>)
    requires tags != [] && tags[0] != ""
    ensures EncodeTags(tags) != ""
  {
    if |tags| > 1 {
      assert EncodeTags(tags) == tags[0] + ", " + Text.Join(tags[1..], ", ");
    }
  }

  /** The encoding of well-formed tags splits into the first tag and the others, each after a space. */
  lemma SplitEncoded(tags: seq<string>)
    requires tags != [] && WellFormedTags(tags)
    ensures Text.Split(EncodeTags(tags), ',') == [tags[0]] + Spaced(tags[1..])
  {
    CommaFree(tags);
    SplitJoin("", tags);
    assert "" + EncodeTags(tags) == EncodeTags(tags);
    assert "" + tags[0] == tags[0];
  }

  /** Cleaning keeps a leading well-formed tag. */
  lemma CleanKeepsTag(t: string, pieces: seq<string>)
    requires WellFormedTag(t)
    ensures Clean([t] + pieces) == [t] + Clean(pieces)
  {
    Text.TrimOfTrimmed(t);
    assert ([t] + pieces)[1..] == pieces;
  }

  /** The tail of well-formed tags is well-formed. */
  lemma WellFormedTail(tags: seq<string>)
    requires tags != [] && WellFormedTags(tags)
    ensures WellFormedTags(tags[1..])
  {
    forall k | 0 <= k < |tags[1..]| ensures WellFormedTag(tags[1..][k]) {
      assert tags[1..][k] == tags[k + 1];
    }
  }

  /** Well-formed tags are decoded back from their encoding. */
  lemma TagsRoundTrip(tags: seq<string>)
    requires WellFormedTags(tags)
    ensures DecodeTags(EncodeTags(tags)) == tags
  {
    if tags != [] {
      var s := EncodeTags(tags);
      assert WellFormedTag(tags[0]);
      EncodeNonEmpty(tags);
      SplitEncoded(tags);
      CleanKeepsTag(tags[0], Spaced(tags[1..]));
      WellFormedTail(tags);
      CleanSpaced(tags[1..]);
      assert DecodeTags(s) == Clean(Text.Split(s, ','));
    }
  }

  /** Decoding an encoded note gives the note back when its tags are well-formed. */
  lemma RoundTrip(n: Note)
    requires WellFormedTags(n.tags)
    ensures FromWire(ToWire(n)) == n
  {
    TagsRoundTrip(n.tags);
  }

  /** A decoded note is already in normal form: encoding and decoding it again changes nothing. */
  lemma DecodeIsStable(w: WireNote)
    ensures FromWire(ToWire(FromWire(w))) == FromWire(w)
  {
    RoundTrip(FromWire(w));
  }

  /** A tag with a comma splits in two on the way back. */
  lemma CommaTagSplits(n: Note)
    requires n.tags == ["a,b"]
    ensures FromWire(ToWire(n)).tags == ["a", "b"]
  {
    var s := EncodeTags(n.tags);
    assert s == "a" + [','] + "b";
    Text.SplitAtSeparator("a", ',', "b");
    Text.SplitWithoutSeparator("b", ',');
    var pieces := Text.Split(s, ',');
    assert pieces == ["a", "b"];
    Text.TrimOfTrimmed("a");
    Text.TrimOfTrimmed("b");
    assert pieces[1..] == ["b"] && pieces[1..][1..] == [];
    assert Clean(pieces) == ["a", "b"];
  }

  // ---------------------------------------------------------------------------
  // The in-memory collection

  function Ids(notes: seq<Note>): set<string> {
    set n | n in notes :: n.id
  }

  predicate UniqueIds(notes: seq<Note>) {
    forall i, j :: 0 <= i < j < |notes| ==> notes[i].id != notes[j].id
  }

  /** The first note with the given id, if any. */
  function FindById(notes: seq<Note>, id: string): (r: Option<Note>)
    ensures r.None? <==> id !in Ids(notes)
    ensures r.Some? ==> r.value in notes && r.value.id == id
    ensures r.Some? ==>
      (exists k :: 0 <= k < |notes| && notes[k] == r.value && (forall j :: 0 <= j < k ==> notes[j].id != id))
  {
    if notes == [] then None
    else if notes[0].id == id then Some(notes[0])
    else
      var r := FindById(notes[1..], id);
      assert Ids(notes) == {notes[0].id} + Ids(notes[1..]) by {
        assert forall n :: n in notes <==> n == notes[0] || n in notes[1..];
      }
      if r.Some? then
        var k :| 0 <= k < |notes[1..]| && notes[1..][k] == r.value
          && forall j :: 0 <= j < k ==> notes[1..][j].id != id;
        assert notes[k + 1] == r.value;
        r
      else r
  }

  /** With distinct ids, the note found is the one with that id. */
  lemma FindByIdUnique(notes: seq<Note>, k: nat)
    requires UniqueIds(notes) && k < |notes|
    ensures FindById(notes, notes[k].id) == Some(notes[k])
  {
  }

  /** Every note with the given id replaced by `n`, the others kept in place. */
  function ReplaceById(notes: seq<Note>, id: string, n: Note): (r: seq<Note>)
    ensures |r| == |notes|
    ensures forall k :: 0 <= k < |notes| ==> r[k] == if notes[k].id == id then n else notes[k]
  {
    if notes == [] then [] else [if notes[0].id == id then n else notes[0]] + ReplaceById(notes[1..], id, n)
  }

  /** The notes whose id differs from the given one, in order. */
  function RemoveById(notes: seq<Note>, id: string): (r: seq<Note>)
    ensures |r| <= |notes|
    ensures forall x :: x in r <==> x in notes && x.id != id
  {
    if notes == [] then []
    else (if notes[0].id != id then [notes[0]] else []) + RemoveById(notes[1..], id)
  }

  /** Removal keeps the remaining notes in their order: it distributes over concatenation. */
  lemma {:induction false} RemoveByIdAppend(a: seq<Note>, b: seq<Note>, id: string)
    ensures RemoveById(a + b, id) == RemoveById(a, id) + RemoveById(b, id)
  {
    if a == [] {
      assert a + b == b;
    } else {
      assert (a + b)[1..] == a[1..] + b;
      RemoveByIdAppend(a[1..], b, id);
    }
  }

  /** Removing an id that is not present changes nothing. */
  lemma {:induction false} RemoveAbsentId(notes: seq<Note>, id: string)
    requires id !in Ids(notes)
    ensures RemoveById(notes, id) == notes
  {
    if notes != [] {
      assert notes[0] in notes;
      assert Ids(notes[1..]) <= Ids(notes) by {
        forall x | x in Ids(notes[1..]) ensures x in Ids(notes) {
          var m :| m in notes[1..] && m.id == x;
          assert m in notes;
        }
      }
      RemoveAbsentId(notes[1..], id);
    }
  }

  /** Replacing a note by one with the same id keeps the set of ids. */
  lemma IdsOfReplace(notes: seq<Note>, id: string, n: Note)
    requires n.id == id
    ensures Ids(ReplaceById(notes, id, n)) == Ids(notes)
  {
    var r := ReplaceById(notes, id, n);
    forall x | x in Ids(r) ensures x in Ids(notes) {
      var m :| m in r && m.id == x;
      var k :| 0 <= k < |r| && r[k] == m;
      assert notes[k] in notes;
    }
    forall x | x in Ids(notes) ensures x in Ids(r) {
      var m :| m in notes && m.id == x;
      var k :| 0 <= k < |notes| && notes[k] == m;
      assert r[k] in r;
    }
  }

  lemma UniqueReplace(notes: seq<Note>, id: string, n: Note)
    requires UniqueIds(notes) && n.id == id
    ensures UniqueIds(ReplaceById(notes, id, n))
  {
  }

  lemma {:induction false} UniqueRemove(notes: seq<Note>, id: string)
    requires UniqueIds(notes)
    ensures UniqueIds(RemoveById(notes, id))
  {
    if notes != [] {
      assert UniqueIds(notes[1..]);
      UniqueRemove(notes[1..], id);
      var rest := RemoveById(notes[1..], id);
      forall x | x in rest ensures x.id != notes[0].id {
        assert x in notes[1..];
        var k :| 0 <= k < |notes[1..]| && notes[1..][k] == x;
        assert notes[k + 1] == x;
      }
    }
  }

  // ---------------------------------------------------------------------------
  // Transitions

  const NotFoundMessage := "Not bulunamadı"
  const AddErrorMessage := "Not eklenirken hata oluştu"
  const UpdateErrorMessage := "Not güncellenirken hata oluştu"
  const DeleteErrorMessage := "Not silinirken hata oluştu"
  const ConnectionMessage := "Google Sheets bağlantısı kurulamadı. Lütfen internet bağlantınızı kontrol edin."

  /** The store after an operation, the operation's boolean, and the requests it sent, in order. */
  datatype Step = Step(notes: seq<Note>, error: Option<string>, ok: bool, sent: seq<Request>)

  function Sent(r: Option<Request>): seq<Request> {
    match r
    case Some(q) => [q]
    case None => []
  }

  /** The gateway acknowledged the write. */
  predicate Acked(r: Gateway.Outcome<bool>) {
    r == Gateway.Returned(true)
  }

  /** The note `addNote` builds: the id from the clock in milliseconds, both timestamps `now`. */
  function NewNote(draft: NoteDraft, nowMillis: nat, now: string): (n: Note)
    ensures n.id != [] && forall k :: 0 <= k < |n.id| ==> '0' <= n.id[k] <= '9'
    ensures n.createdAt == n.updatedAt
    ensures NoteDraft(n.title, n.content, n.category, n.tags, n.isPinned) == draft
  {
    Note(Text.NatToString(nowMillis), draft.title, draft.content, draft.category, draft.tags, now, now, draft.isPinned)
  }

  /** The note `updateNote` builds: the draft's fields, the old creation time, a fresh update time. */
  function Edited(existing: Note, id: string, draft: NoteDraft, now: string): (m: Note)
    ensures m.id == id && m.createdAt == existing.createdAt && m.updatedAt == now
    ensures NoteDraft(m.title, m.content, m.category, m.tags, m.isPinned) == draft
  {
    Note(id, draft.title, draft.content, draft.category, draft.tags, existing.createdAt, now, draft.isPinned)
  }

  /** The note `togglePin` builds. */
  function Toggled(n: Note, now: string): (m: Note)
    ensures m.isPinned == !n.isPinned && m.updatedAt == now
    ensures m.(isPinned := n.isPinned, updatedAt := n.updatedAt) == n
  {
    n.(isPinned := !n.isPinned, updatedAt := now)
  }

  /** `addNote`: prepend on acknowledgement, otherwise set the error and keep the notes. */
  function AddStep(notes: seq<Note>, error: Option<string>, url: string, draft: NoteDraft,
                   now: string, nowMillis: nat, resp: Gateway.Response): (s: Step)
    ensures var n := NewNote(draft, nowMillis, now);
      var x := Gateway.AddNote(url, ToWire(n), resp);
      && s.sent == Sent(x.sent)
      && (s.ok <==> Acked(x.result))
      && (s.ok ==> s.notes == [n] + notes && s.error == error)
      && (!s.ok ==> s.notes == notes && s.error == Some(AddErrorMessage))
  {
    var n := NewNote(draft, nowMillis, now);
    var x := Gateway.AddNote(url, ToWire(n), resp);
    if Acked(x.result) then Step([n] + notes, error, true, Sent(x.sent))
    else Step(notes, Some(AddErrorMessage), false, Sent(x.sent))
  }

  /** `updateNote`: an id not in memory fails locally, without a request. */
  function UpdateStep(notes: seq<Note>, error: Option<string>, url: string, id: string,
                      draft: NoteDraft, now: string, resp: Gateway.Response): (s: Step)
    ensures id !in Ids(notes) ==> s == Step(notes, Some(NotFoundMessage), false, [])
    ensures id in Ids(notes) ==>
      var x := Gateway.UpdateNote(url, id, ToWire(Edited(FindById(notes, id).value, id, draft, now)), resp);
      && s.sent == Sent(x.sent)
      && (s.ok <==> Acked(x.result))
      && (!s.ok ==> s.error == Some(UpdateErrorMessage))
    ensures !s.ok ==> s.notes == notes && s.error.Some?
    ensures s.ok ==> s.error == error && |s.sent| == 1 && |s.notes| == |notes|
    ensures s.ok ==> forall k :: 0 <= k < |notes| ==>
      if notes[k].id == id then
        var m := s.notes[k];
        && m == Edited(FindById(notes, id).value, id, draft, now)
        && m.createdAt == FindById(notes, id).value.createdAt && m.updatedAt == now
      else s.notes[k] == notes[k]
  {
    match FindById(notes, id)
    case None => Step(notes, Some(NotFoundMessage), false, [])
    case Some(existing) =>
      var n := Edited(existing, id, draft, now);
      var x := Gateway.UpdateNote(url, id, ToWire(n), resp);
      if Acked(x.result) then Step(ReplaceById(notes, id, n), error, true, Sent(x.sent))
      else Step(notes, Some(UpdateErrorMessage), false, Sent(x.sent))
  }

  /** `deleteNote`: filter out on acknowledgement, otherwise set the error and keep the notes. */
  function DeleteStep(notes: seq<Note>, error: Option<string>, url: string, id: string,
                      resp: Gateway.Response): (s: Step)
    ensures s.sent == Sent(Gateway.DeleteNote(url, id, resp).sent)
    ensures s.ok <==> Acked(Gateway.DeleteNote(url, id, resp).result)
    ensures s.ok ==> s.error == error && forall x :: x in s.notes <==> x in notes && x.id != id
    ensures !s.ok ==> s.notes == notes && s.error == Some(DeleteErrorMessage)
  {
    var x := Gateway.DeleteNote(url, id, resp);
    if Acked(x.result) then Step(RemoveById(notes, id), error, true, Sent(x.sent))
    else Step(notes, Some(DeleteErrorMessage), false, Sent(x.sent))
  }

  /** `togglePin`: an absent id returns false without an error and without a request. */
  function TogglePinStep(notes: seq<Note>, error: Option<string>, url: string, id: string,
                         now: string, resp: Gateway.Response): (s: Step)
    ensures id !in Ids(notes) ==> s == Step(notes, error, false, [])
    ensures id in Ids(notes) ==>
      var x := Gateway.UpdateNote(url, id, ToWire(Toggled(FindById(notes, id).value, now)), resp);
      && s.sent == Sent(x.sent)
      && (s.ok <==> Acked(x.result))
      && (!s.ok ==> s.error == Some(UpdateErrorMessage))
    ensures !s.ok ==> s.notes == notes
    ensures s.ok ==> s.error == error && |s.notes| == |notes|
    ensures s.ok ==> forall k :: 0 <= k < |notes| && notes[k].id != id ==> s.notes[k] == notes[k]
    ensures s.ok ==> forall k :: 0 <= k < |notes| && notes[k].id == id ==>
      s.notes[k] == Toggled(FindById(notes, id).value, now)
  {
    match FindById(notes, id)
    case None => Step(notes, error, false, [])
    case Some(n) =>
      var t := Toggled(n, now);
      var x := Gateway.UpdateNote(url, id, ToWire(t), resp);
      if Acked(x.result) then Step(ReplaceById(notes, id, t), error, true, Sent(x.sent))
      else Step(notes, Some(UpdateErrorMessage), false, Sent(x.sent))
  }

  function DecodeAll(ws: seq<WireNote>): (r: seq<Note>)
    ensures |r| == |ws| && forall k :: 0 <= k < |ws| ==> r[k] == FromWire(ws[k])
  {
    if ws == [] then [] else [FromWire(ws[0])] + DecodeAll(ws[1..])
  }

  /**
    `loadNotes`: connection check, then schema initialisation (its boolean is ignored), then
    the list. The error is cleared first; only a complete load replaces the notes.
  */
  function LoadStep(notes: seq<Note>, url: string, connResp: Gateway.Response,
                    initResp: Gateway.Response, listResp: Gateway.Response): (s: Step)
    ensures !Gateway.TestConnection(url, connResp).result.value ==>
      s == Step(notes, Some(ConnectionMessage), false, Sent(Gateway.TestConnection(url, connResp).sent))
    ensures s.ok <==> (Gateway.TestConnection(url, connResp).result.value &&
      Gateway.GetAllNotes(url, listResp).result.Returned?)
    ensures s.ok ==> s.error == None && s.notes == DecodeAll(Gateway.GetAllNotes(url, listResp).result.value)
    ensures !s.ok ==> s.notes == notes && s.error.Some?
    ensures Gateway.TestConnection(url, connResp).result.value ==>
      var g := Gateway.GetAllNotes(url, listResp);
      && s.sent == Sent(Gateway.TestConnection(url, connResp).sent)
                   + Sent(Gateway.InitializeSheet(url, initResp).sent) + Sent(g.sent)
      && (g.result.Threw? ==> s.error == Some(g.result.message))
  {
    var c := Gateway.TestConnection(url, connResp);
    if !c.result.value then Step(notes, Some(ConnectionMessage), false, Sent(c.sent))
    else
      // A passed connection check means the URL is valid, so the initialisation cannot throw
      // and its `catch` path is never taken; its boolean is ignored.
      var i := Gateway.InitializeSheet(url, initResp);
      assert i.result.Returned?;
      var g := Gateway.GetAllNotes(url, listResp);
      match g.result
      case Threw(m) => Step(notes, Some(m), false, Sent(c.sent) + Sent(i.sent) + Sent(g.sent))
      case Returned(ws) => Step(DecodeAll(ws), None, true, Sent(c.sent) + Sent(i.sent) + Sent(g.sent))
  }

  /** The outcome of the schema initialisation never influences the load. */
  lemma LoadIgnoresInitialize(notes: seq<Note>, url: string, connResp: Gateway.Response,
                              init1: Gateway.Response, init2: Gateway.Response, listResp: Gateway.Response)
    ensures LoadStep(notes, url, connResp, init1, listResp).notes == LoadStep(notes, url, connResp, init2, listResp).notes
    ensures LoadStep(notes, url, connResp, init1, listResp).error == LoadStep(notes, url, connResp, init2, listResp).error
  {
  }

  /** A successful add puts the new note first, with equal timestamps, and adds its id. */
  lemma AddPrepends(notes: seq<Note>, error: Option<string>, url: string, draft: NoteDraft,
                    now: string, nowMillis: nat, resp: Gateway.Response)
    requires AddStep(notes, error, url, draft, now, nowMillis, resp).ok
    ensures var s := AddStep(notes, error, url, draft, now, nowMillis, resp);
      && |s.notes| == |notes| + 1 && s.notes[1..] == notes
      && s.notes[0].createdAt == s.notes[0].updatedAt == now
      && Ids(s.notes) == Ids(notes) + {Text.NatToString(nowMillis)}
  {
    var s := AddStep(notes, error, url, draft, now, nowMillis, resp);
    assert s.notes[1..] == notes;
    assert forall x :: x in s.notes <==> x == s.notes[0] || x in notes;
  }

  /** A new note ends up carrying a fresh id when the clock has moved past every existing id. */
  lemma AddKeepsIdsUnique(notes: seq<Note>, error: Option<string>, url: string, draft: NoteDraft,
                          now: string, nowMillis: nat, resp: Gateway.Response)
    requires UniqueIds(notes)
    requires forall k :: 0 <= k < |notes| ==> notes[k].id != Text.NatToString(nowMillis)
    ensures UniqueIds(AddStep(notes, error, url, draft, now, nowMillis, resp).notes)
  {
  }

  /** Two notes added at different milliseconds get different ids. */
  lemma NewNoteIdsDiffer(d1: NoteDraft, d2: NoteDraft, t1: nat, t2: nat, now1: string, now2: string)
    requires t1 != t2
    ensures NewNote(d1, t1, now1).id != NewNote(d2, t2, now2).id
  {
    Text.NatToStringInjective(t1, t2);
  }

  /** Update keeps the set of ids, and distinct ids stay distinct. */
  lemma UpdateKeepsIds(notes: seq<Note>, error: Option<string>, url: string, id: string,
                       draft: NoteDraft, now: string, resp: Gateway.Response)
    ensures Ids(UpdateStep(notes, error, url, id, draft, now, resp).notes) == Ids(notes)
    ensures UniqueIds(notes) ==> UniqueIds(UpdateStep(notes, error, url, id, draft, now, resp).notes)
  {
    if FindById(notes, id).Some? {
      var n := Edited(FindById(notes, id).value, id, draft, now);
      IdsOfReplace(notes, id, n);
      if UniqueIds(notes) { UniqueReplace(notes, id, n); }
    }
  }

  /** A successful delete removes exactly that id, keeps the others in order, and keeps ids distinct. */
  lemma DeleteRemovesId(notes: seq<Note>, error: Option<string>, url: string, id: string, resp: Gateway.Response)
    requires DeleteStep(notes, error, url, id, resp).ok
    ensures var s := DeleteStep(notes, error, url, id, resp);
      && Ids(s.notes) == Ids(notes) - {id}
      && s.notes == RemoveById(notes, id)
      && (UniqueIds(notes) ==> UniqueIds(s.notes))
  {
    var s := DeleteStep(notes, error, url, id, resp);
    forall x | x in Ids(notes) - {id} ensures x in Ids(s.notes) {
      var m :| m in notes && m.id == x;
      assert m in s.notes;
    }
    if UniqueIds(notes) { UniqueRemove(notes, id); }
  }

  /** With distinct ids, a successful toggle flips the pin and refreshes `updatedAt` of that note only. */
  lemma ToggleChangesOnlyPin(notes: seq<Note>, error: Option<string>, url: string, id: string,
                             now: string, resp: Gateway.Response, k: nat)
    requires UniqueIds(notes)
    requires k < |notes| && notes[k].id == id
    requires TogglePinStep(notes, error, url, id, now, resp).ok
    ensures var m := TogglePinStep(notes, error, url, id, now, resp).notes[k];
      m == notes[k].(isPinned := !notes[k].isPinned, updatedAt := now)
  {
    FindByIdUnique(notes, k);
  }

  /** The optimistic store of the hook. */
  class NoteStore {
    const url: string
    var notes: seq<Note>
    var loading: bool
    var error: Option<string>

    /** The hook's initial state: no notes, loading, no error. */
    constructor (url: string)
      ensures this.url == url && notes == [] && loading && error == None
    {
      this.url := url;
      notes := [];
      loading := true;
      error := None;
    }

    method LoadNotes(connResp: Gateway.Response, initResp: Gateway.Response, listResp: Gateway.Response)
      returns (sent: seq<Request>)
      modifies this
      ensures var s := LoadStep(old(notes), url, connResp, initResp, listResp);
        notes == s.notes && error == s.error && sent == s.sent
      ensures !loading
    {
      ghost var s := LoadStep(notes, url, connResp, initResp, listResp);
      loading := true;
      error := None;
      var c := Gateway.TestConnection(url, connResp);
      sent := Sent(c.sent);
      if !c.result.value {
        error := Some(ConnectionMessage);
        assert s == Step(notes, error, false, sent);
      } else {
        // A passed connection check means the URL is valid, so this call cannot throw.
        var i := Gateway.InitializeSheet(url, initResp);
        assert i.result.Returned?;
        sent := sent + Sent(i.sent);
        var g := Gateway.GetAllNotes(url, listResp);
        sent := sent + Sent(g.sent);
        if g.result.Threw? {
          error := Some(g.result.message);
          assert s == Step(notes, error, false, sent);
        } else {
          notes := DecodeAll(g.result.value);
          assert s == Step(notes, error, true, sent);
        }
      }
      loading := false;
    }

    method AddNote(draft: NoteDraft, now: string, nowMillis: nat, resp: Gateway.Response)
      returns (ok: bool, sent: seq<Request>)
      modifies this
      ensures Step(notes, error, ok, sent) == AddStep(old(notes), old(error), url, draft, now, nowMillis, resp)
      ensures loading == old(loading)
    {
      var newNote := NewNote(draft, nowMillis, now);
      var x := Gateway.AddNote(url, ToWire(newNote), resp);
      sent := Sent(x.sent);
      if x.result == Gateway.Returned(true) {
        notes := [newNote] + notes;
        ok := true;
      } else {
        error := Some(AddErrorMessage);
        ok := false;
      }
    }

    method UpdateNote(id: string, draft: NoteDraft, now: string, resp: Gateway.Response)
      returns (ok: bool, sent: seq<Request>)
      modifies this
      ensures Step(notes, error, ok, sent) == UpdateStep(old(notes), old(error), url, id, draft, now, resp)
      ensures loading == old(loading)
    {
      var existing := FindById(notes, id);
      if existing.None? {
        error := Some(NotFoundMessage);
        return false, [];
      }
      var updated := Edited(existing.value, id, draft, now);
      var x := Gateway.UpdateNote(url, id, ToWire(updated), resp);
      sent := Sent(x.sent);
      if x.result == Gateway.Returned(true) {
        notes := ReplaceById(notes, id, updated);
        ok := true;
      } else {
        error := Some(UpdateErrorMessage);
        ok := false;
      }
    }

    method DeleteNote(id: string, resp: Gateway.Response) returns (ok: bool, sent: seq<Request>)
      modifies this
      ensures Step(notes, error, ok, sent) == DeleteStep(old(notes), old(error), url, id, resp)
      ensures loading == old(loading)
    {
      var x := Gateway.DeleteNote(url, id, resp);
      sent := Sent(x.sent);
      if x.result == Gateway.Returned(true) {
        notes := RemoveById(notes, id);
        ok := true;
      } else {
        error := Some(DeleteErrorMessage);
        ok := false;
      }
    }

    method TogglePin(id: string, now: string, resp: Gateway.Response) returns (ok: bool, sent: seq<Request>)
      modifies this
      ensures Step(notes, error, ok, sent) == TogglePinStep(old(notes), old(error), url, id, now, resp)
      ensures loading == old(loading)
    {
      var note := FindById(notes, id);
      if note.None? {
        return false, [];
      }
      var updated := Toggled(note.value, now);
      var x := Gateway.UpdateNote(url, id, ToWire(updated), resp);
      sent := Sent(x.sent);
      if x.result == Gateway.Returned(true) {
        notes := ReplaceById(notes, id, updated);
        ok := true;
      } else {
        error := Some(UpdateErrorMessage);
        ok := false;
      }
    }
  }
}
