/**
  The spreadsheet side of the application (google-apps-script.js): a web endpoint that
  dispatches on an action name and reads or rewrites the rows of one sheet. Row 0 is the
  header; every other row holds one note in eight columns. Cells are strings, and a cell
  beyond the end of a row reads as empty, as the padded values of a data range do.
*/
module AppsScript {
  import opened Wrappers
  import opened Types

  type Row = seq<string>

  /** The fixed header written by `initializeSheet`. */
  const Header: Row := ["ID", "Başlık", "İçerik", "Kategori", "Etiketler", "Oluşturulma", "Güncellenme", "Sabitlenmiş"]

  const InvalidAction := "Invalid action"

  function Cell(row: Row, i: nat): string {
    if i < |row| then row[i] else ""
  }

  /** JavaScript's `s || fallback` on a string: the empty string is falsy. */
  function OrElse(s: string, fallback: string): string {
    if s != "" then s else fallback
  }

  /** The record `getAllNotes` builds from one row; `now` stands for the server clock's ISO timestamp. */
  function RowToNote(row: Row, now: string): (n: WireNote)
    ensures n.category != "" && n.isPinned != ""
    ensures now != "" ==> n.createdAt != "" && n.updatedAt != ""
    ensures |row| >= 8 && (forall k :: 0 <= k < 8 ==> row[k] != "") ==> Values(n) == row[..8]
  {
    WireNote(
      OrElse(Cell(row, 0), ""),
      OrElse(Cell(row, 1), ""),
      OrElse(Cell(row, 2), ""),
      OrElse(Cell(row, 3), DefaultCategory),
      OrElse(Cell(row, 4), ""),
      OrElse(Cell(row, 5), now),
      OrElse(Cell(row, 6), now),
      OrElse(Cell(row, 7), "false"))
  }

  /** Empty cells decode to the defaults; the other cells are copied. */
  lemma RowToNoteDefaults(row: Row, now: string)
    ensures var n := RowToNote(row, now);
      && n.id == Cell(row, 0) && n.title == Cell(row, 1) && n.content == Cell(row, 2)
      && n.tags == Cell(row, 4)
      && n.category == (if Cell(row, 3) == "" then DefaultCategory else Cell(row, 3))
      && n.createdAt == (if Cell(row, 5) == "" then now else Cell(row, 5))
      && n.updatedAt == (if Cell(row, 6) == "" then now else Cell(row, 6))
      && n.isPinned == (if Cell(row, 7) == "" then "false" else Cell(row, 7))
  {
  }

  /** The eight cells `addNote` and `updateNote` write for a note, in column order. */
  function Values(n: WireNote): (r: Row)
    ensures |r| == 8
  {
    [n.id, n.title, n.content, n.category, n.tags, n.createdAt, n.updatedAt, n.isPinned]
  }

  /** A note whose defaulted fields are filled is read back exactly as it was written. */
  lemma RowRoundTrip(n: WireNote, now: string)
    requires n.category != "" && n.createdAt != "" && n.updatedAt != "" && n.isPinned != ""
    ensures RowToNote(Values(n), now) == n
  {
  }

  /** Writing `values` over the first columns of a row (the 1-by-8 range write). */
  function PutRow(row: Row, values: Row): (r: Row)
    ensures |r| >= |values| && r[..|values|] == values
    ensures forall k :: |values| <= k < |row| ==> k < |r| && r[k] == row[k]
  {
    values + (if |row| > |values| then row[|values|..] else [])
  }

  /** The data rows (header excluded) turned into records, rows with an empty id dropped. */
  function RowsToNotes(rows: seq<Row>, now: string): (notes: seq<WireNote>)
    ensures |notes| <= |rows|
    ensures forall k :: 0 <= k < |notes| ==> notes[k].id != "" && notes[k].category != ""
  {
    if rows == [] then []
    else (if Cell(rows[0], 0) != "" then [RowToNote(rows[0], now)] else []) + RowsToNotes(rows[1..], now)
  }

  /** Decoding distributes over concatenation, so records come out in sheet order. */
  lemma {:induction false} RowsToNotesAppend(a: seq<Row>, b: seq<Row>, now: string)
    ensures RowsToNotes(a + b, now) == RowsToNotes(a, now) + RowsToNotes(b, now)
  {
    if a != [] {
      var head := if Cell(a[0], 0) != "" then [RowToNote(a[0], now)] else [];
      assert (a + b)[0] == a[0];
      assert (a + b)[1..] == a[1..] + b;
      assert RowsToNotes(a + b, now) == head + RowsToNotes(a[1..] + b, now);
      RowsToNotesAppend(a[1..], b, now);
      assert RowsToNotes(a, now) == head + RowsToNotes(a[1..], now);
    } else {
      assert a + b == b;
    }
  }

  /** A record is returned exactly when some row with a non-empty id decodes to it. */
  lemma {:induction false} RowsToNotesMembers(rows: seq<Row>, now: string, n: WireNote)
    ensures n in RowsToNotes(rows, now) <==>
      exists k :: 0 <= k < |rows| && Cell(rows[k], 0) != "" && n == RowToNote(rows[k], now)
  {
    if rows != [] {
      RowsToNotesMembers(rows[1..], now, n);
      if n in RowsToNotes(rows[1..], now) {
        var k :| 0 <= k < |rows[1..]| && Cell(rows[1..][k], 0) != "" && n == RowToNote(rows[1..][k], now);
        assert rows[k + 1] == rows[1..][k];
      }
      if exists k :: 0 <= k < |rows| && Cell(rows[k], 0) != "" && n == RowToNote(rows[k], now) {
        var k :| 0 <= k < |rows| && Cell(rows[k], 0) != "" && n == RowToNote(rows[k], now);
        if k > 0 {
          assert rows[1..][k - 1] == rows[k];
        }
      }
    }
  }

  /** `getAllNotes` over the values of the sheet's data range. */
  function GetAllNotes(data: seq<Row>, now: string): (notes: seq<WireNote>)
    ensures |data| <= 1 ==> notes == []
    ensures |data| > 1 ==> |notes| <= |data| - 1
    ensures forall k :: 0 <= k < |notes| ==> notes[k].id != "" && notes[k].category != ""
  {
    if |data| <= 1 then [] else RowsToNotes(data[1..], now)
  }

  /** The header row is never returned as a note, whatever its first cell holds. */
  lemma GetAllNotesSkipsHeader(header: Row, rest: seq<Row>, now: string)
    ensures GetAllNotes([header] + rest, now) == RowsToNotes(rest, now)
  {
    assert ([header] + rest)[1..] == rest;
  }

  /** True when the first cell of the first row is exactly `'ID'` or `'id'`. */
  predicate HasHeader(rows: seq<Row>) {
    |rows| > 0 && (Cell(rows[0], 0) == "ID" || Cell(rows[0], 0) == "id")
  }

  /** The rows after `initializeSheet`. */
  function Initialized(rows: seq<Row>): (r: seq<Row>)
    ensures HasHeader(r)
    ensures HasHeader(rows) ==> r == rows
    ensures !HasHeader(rows) ==> |r[0]| >= 8 && r[0][..8] == Header
    ensures |r| == if rows == [] then 1 else |rows|
    ensures forall k :: 1 <= k < |rows| ==> r[k] == rows[k]
  {
    if HasHeader(rows) then rows
    else if rows == [] then [Header]
    else rows[0 := PutRow(rows[0], Header)]
  }

  /** Initialising twice is the same as initialising once. */
  lemma InitializedIdempotent(rows: seq<Row>)
    ensures Initialized(Initialized(rows)) == Initialized(rows)
  {
  }

  /** The `findIndex` of `updateNote` and `deleteNote`: the first row after `start` whose id cell is `noteId`. */
  function FindRowFrom(data: seq<Row>, noteId: string, start: nat): (r: Option<nat>)
    requires start >= 1
    ensures r.Some? ==> start <= r.value < |data| && Cell(data[r.value], 0) == noteId
    ensures r.Some? ==> forall k :: start <= k < r.value ==> Cell(data[k], 0) != noteId
    ensures r.None? ==> forall k :: start <= k < |data| ==> Cell(data[k], 0) != noteId
    decreases |data| - start
  {
    if start >= |data| then None
    else if Cell(data[start], 0) == noteId then Some(start)
    else FindRowFrom(data, noteId, start + 1)
  }

  /** The index skips the header. An absent `noteId` (`undefined`) matches no cell. */
  function FindRow(data: seq<Row>, noteId: Option<string>): (r: Option<nat>)
    ensures r.Some? ==> noteId.Some? && 0 < r.value < |data| && Cell(data[r.value], 0) == noteId.value
    ensures r.Some? ==> forall k :: 0 < k < r.value ==> Cell(data[k], 0) != noteId.value
    ensures r.None? && noteId.Some? ==> forall k :: 0 < k < |data| ==> Cell(data[k], 0) != noteId.value
  {
    match noteId
    case None => None
    case Some(id) => FindRowFrom(data, id, 1)
  }

  /** The rows after `updateNote`, or `None` when it returns false and writes nothing. */
  function UpdateRows(rows: seq<Row>, noteId: Option<string>, note: Option<WireNote>): (r: Option<seq<Row>>)
    ensures r.Some? <==> FindRow(rows, noteId).Some? && note.Some?
    ensures r.Some? ==> var i := FindRow(rows, noteId).value;
      && |r.value| == |rows|
      && |r.value[i]| >= 8 && r.value[i][..8] == Values(note.value)
      && forall k :: 0 <= k < |rows| && k != i ==> r.value[k] == rows[k]
  {
    match FindRow(rows, noteId)
    case None => None
    case Some(i) =>
      match note
      case None => None
      case Some(n) => Some(rows[i := PutRow(rows[i], Values(n))])
  }

  /** The rows after `deleteNote`, or `None` when it returns false and deletes nothing. */
  function DeleteRows(rows: seq<Row>, noteId: Option<string>): (r: Option<seq<Row>>)
    ensures r.Some? <==> FindRow(rows, noteId).Some?
    ensures r.Some? ==> var i := FindRow(rows, noteId).value;
      && |r.value| == |rows| - 1
      && r.value[0] == rows[0]
      && (forall k :: 0 <= k < i ==> r.value[k] == rows[k])
      && (forall k :: i <= k < |r.value| ==> r.value[k] == rows[k + 1])
  {
    match FindRow(rows, noteId)
    case None => None
    case Some(i) => Some(rows[..i] + rows[i + 1..])
  }

  /** After a successful update the changed row reads back as the note that was sent. */
  lemma UpdateThenRead(rows: seq<Row>, noteId: string, n: WireNote, now: string)
    requires UpdateRows(rows, Some(noteId), Some(n)).Some?
    requires n.category != "" && n.createdAt != "" && n.updatedAt != "" && n.isPinned != ""
    ensures var i := FindRow(rows, Some(noteId)).value;
      RowToNote(UpdateRows(rows, Some(noteId), Some(n)).value[i], now) == n
  {
    var i := FindRow(rows, Some(noteId)).value;
    var row := UpdateRows(rows, Some(noteId), Some(n)).value[i];
    assert row[..8] == Values(n);
    assert forall k :: 0 <= k < 8 ==> Cell(row, k) == Values(n)[k] by {
      forall k | 0 <= k < 8 ensures Cell(row, k) == Values(n)[k] {
        assert row[..8][k] == row[k];
      }
    }
    RowRoundTrip(n, now);
  }

  /** A note the sheet reported as added is read back, last, by `getAllNotes`. */
  lemma AddThenRead(rows: seq<Row>, n: WireNote, now: string)
    requires n.id != "" && n.category != "" && n.createdAt != "" && n.updatedAt != "" && n.isPinned != ""
    ensures var base := if rows == [] then [Header] else rows;
      var after := GetAllNotes(base + [Values(n)], now);
      after != [] && after[|after| - 1] == n
  {
    var base := if rows == [] then [Header] else rows;
    assert (base + [Values(n)])[1..] == base[1..] + [Values(n)];
    RowsToNotesAppend(base[1..], [Values(n)], now);
    RowRoundTrip(n, now);
  }

  /** One spreadsheet. `rows` are the values of its data range. */
  class Sheet {
    var rows: seq<Row>

    constructor (rows0: seq<Row>)
      ensures rows == rows0
    {
      rows := rows0;
    }

    /** `initializeSheet`: writes the header unless the first cell already names the id column. */
    method InitializeSheet() returns (ok: bool)
      modifies this
      ensures ok
      ensures rows == Initialized(old(rows))
    {
      if |rows| > 0 {
        var first := Cell(rows[0], 0);
        if first == "ID" || first == "id" {
          return true;
        }
      }
      if rows == [] {
        rows := [Header];
      } else {
        rows := rows[0 := PutRow(rows[0], Header)];
      }
      ok := true;
    }

    /**
      `addNote`: on an empty sheet the header is written first; then the note's eight cells
      are appended. An absent note (`undefined`) fails when its fields are read, after the
      header has been written.
    */
    method AddNote(note: Option<WireNote>) returns (ok: bool)
      modifies this
      ensures ok <==> note.Some?
      ensures var base := if old(rows) == [] then [Header] else old(rows);
        rows == if ok then base + [Values(note.value)] else base
    {
      if |rows| == 0 {
        var _ := InitializeSheet();
      }
      match note
      case None =>
        ok := false;
      case Some(n) =>
        rows := rows + [Values(n)];
        ok := true;
    }

    /** `updateNote`: overwrites the first matching data row, or returns false and changes nothing. */
    method UpdateNote(noteId: Option<string>, note: Option<WireNote>) returns (ok: bool)
      modifies this
      ensures ok <==> UpdateRows(old(rows), noteId, note).Some?
      ensures rows == UpdateRows(old(rows), noteId, note).GetOr(old(rows))
    {
      var rowIndex := FindRow(rows, noteId);
      if rowIndex.None? {
        return false;
      }
      if note.None? {
        return false;
      }
      rows := rows[rowIndex.value := PutRow(rows[rowIndex.value], Values(note.value))];
      ok := true;
    }

    /** `deleteNote`: removes the first matching data row, or returns false and changes nothing. */
    method DeleteNote(noteId: Option<string>) returns (ok: bool)
      modifies this
      ensures ok <==> DeleteRows(old(rows), noteId).Some?
      ensures rows == DeleteRows(old(rows), noteId).GetOr(old(rows))
    {
      var rowIndex := FindRow(rows, noteId);
      if rowIndex.None? {
        return false;
      }
      rows := rows[..rowIndex.value] + rows[rowIndex.value + 1..];
      ok := true;
    }

    /** `doGet`: answers `getAllNotes` and `testConnection`; any other action is refused. */
    method DoGet(action: string, now: string) returns (out: Envelope)
      ensures action == "getAllNotes" ==> out == NotesEnvelope(GetAllNotes(rows, now))
      ensures action == "testConnection" ==> out == SuccessEnvelope(true)
      ensures action != "getAllNotes" && action != "testConnection" ==> out == ErrorEnvelope(InvalidAction)
    {
      if action == "getAllNotes" {
        out := NotesEnvelope(GetAllNotes(rows, now));
      } else if action == "testConnection" {
        out := SuccessEnvelope(true);
      } else {
        out := ErrorEnvelope(InvalidAction);
      }
    }

    /**
      `doPost`: dispatches the parsed body on its action and reports the operation's boolean as
      `success`. A body that does not parse is answered with the parser's message as `error`.
    */
    method DoPost(body: Result<PostBody, string>) returns (out: Envelope)
      modifies this
      ensures body.Failure? ==> out == ErrorEnvelope(body.error) && rows == old(rows)
      ensures body.Success? ==> var b := body.value;
        match b.action
        case "addNote" =>
          var base := if old(rows) == [] then [Header] else old(rows);
          out == SuccessEnvelope(b.note.Some?)
          && rows == if b.note.Some? then base + [Values(b.note.value)] else base
        case "updateNote" =>
          out == SuccessEnvelope(UpdateRows(old(rows), b.noteId, b.note).Some?)
          && rows == UpdateRows(old(rows), b.noteId, b.note).GetOr(old(rows))
        case "deleteNote" =>
          out == SuccessEnvelope(DeleteRows(old(rows), b.noteId).Some?)
          && rows == DeleteRows(old(rows), b.noteId).GetOr(old(rows))
        case "initializeSheet" =>
          out == SuccessEnvelope(true) && rows == Initialized(old(rows))
        case _ =>
          out == ErrorEnvelope(InvalidAction) && rows == old(rows)
    {
      match body
      case Failure(message) =>
        out := ErrorEnvelope(message);
      case Success(b) =>
        match b.action
        case "addNote" =>
          var r := AddNote(b.note);
          out := SuccessEnvelope(r);
        case "updateNote" =>
          var r := UpdateNote(b.noteId, b.note);
          out := SuccessEnvelope(r);
        case "deleteNote" =>
          var r := DeleteNote(b.noteId);
          out := SuccessEnvelope(r);
        case "initializeSheet" =>
          var r := InitializeSheet();
          out := SuccessEnvelope(r);
        case _ =>
          out := ErrorEnvelope(InvalidAction);
    }
  }
}
