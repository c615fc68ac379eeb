/**
  The view the page derives from the store (src/App.tsx): the search and category filter,
  the pinned-first, newest-first ordering, the pinned count, and the handlers that open the
  form and hand a saved draft to the store. `toLowerCase` is the parameter `lower` and the
  date parse of `updatedAt` is the parameter `time`.
*/
module AppView {
  import opened Wrappers
  import opened Types
  import Text
  import Gateway
  import Sync

  const Categories: seq<string> := ["Genel", "İş", "Kişisel", "Proje", "Fikirler", "Yapılacaklar"]

  /** Some tag, lower-cased, contains the lower-cased term. */
  predicate SomeTagMatches(tags: seq<string>, t: string, lower: string -> string) {
    exists k :: 0 <= k < |tags| && Text.Includes(lower(tags[k]), t)
  }

  predicate MatchesSearch(n: Note, term: string, lower: string -> string) {
    var t := lower(term);
    Text.Includes(lower(n.title), t) || Text.Includes(lower(n.content), t) || SomeTagMatches(n.tags, t, lower)
  }

  /** An empty selection passes every note; otherwise the category must be equal. */
  predicate MatchesCategory(n: Note, selected: string) {
    selected == "" || n.category == selected
  }

  predicate Visible(n: Note, term: string, selected: string, lower: string -> string) {
    MatchesSearch(n, term, lower) && MatchesCategory(n, selected)
  }

  /** `filteredNotes` */
  function FilterNotes(notes: seq<Note>, term: string, selected: string, lower: string -> string): (r: seq<Note>)
    ensures |r| <= |notes|
    ensures forall x :: x in r <==> x in notes && Visible(x, term, selected, lower)
  {
    if notes == [] then []
    else
      (if Visible(notes[0], term, selected, lower) then [notes[0]] else [])
      + FilterNotes(notes[1..], term, selected, lower)
  }

  /** The filter keeps the surviving notes in order, duplicates included: it distributes over concatenation. */
  lemma {:induction false} FilterNotesAppend(a: seq<Note>, b: seq<Note>, term: string, selected: string,
                                             lower: string -> string)
    ensures FilterNotes(a + b, term, selected, lower)
         == FilterNotes(a, term, selected, lower) + FilterNotes(b, term, selected, lower)
  {
    if a != [] {
      assert (a + b)[0] == a[0];
      assert (a + b)[1..] == a[1..] + b;
      FilterNotesAppend(a[1..], b, term, selected, lower);
    } else {
      assert a + b == b;
    }
  }

  /** With an empty term (whose lower case is empty) every note matches the search. */
  lemma EmptyTermMatches(n: Note, lower: string -> string)
    requires lower("") == ""
    ensures MatchesSearch(n, "", lower)
  {
    Text.IncludesEmpty(lower(n.title));
  }

  /** With no term and no category the filter keeps every note, in order. */
  lemma {:induction false} NoFilterKeepsAll(notes: seq<Note>, lower: string -> string)
    requires lower("") == ""
    ensures FilterNotes(notes, "", "", lower) == notes
  {
    if notes != [] {
      EmptyTermMatches(notes[0], lower);
      NoFilterKeepsAll(notes[1..], lower);
    }
  }

  /** The comparator of `sortedNotes`: negative when `a` belongs first. */
  function Compare(a: Note, b: Note, time: string -> int): (c: int)
    ensures a.isPinned != b.isPinned ==> (c < 0 <==> a.isPinned)
    ensures a.isPinned == b.isPinned ==> (c <= 0 <==> time(a.updatedAt) >= time(b.updatedAt))
  {
    if a.isPinned && !b.isPinned then -1
    else if !a.isPinned && b.isPinned then 1
    else time(b.updatedAt) - time(a.updatedAt)
  }

  /** `a` may stand before `b`. */
  predicate Before(a: Note, b: Note, time: string -> int) {
    Compare(a, b, time) <= 0
  }

  /** The comparator is a total preorder, so a sorted order exists and is well defined. */
  lemma CompareIsTotalPreorder(a: Note, b: Note, c: Note, time: string -> int)
    ensures Before(a, b, time) || Before(b, a, time)
    ensures Before(a, b, time) && Before(b, c, time) ==> Before(a, c, time)
  {
  }

  predicate Sorted(s: seq<Note>, time: string -> int) {
    forall i, j :: 0 <= i < j < |s| ==> Before(s[i], s[j], time)
  }

  /** In a sorted list no unpinned note precedes a pinned note. */
  lemma SortedPinnedFirst(s: seq<Note>, time: string -> int, i: nat, j: nat)
    requires Sorted(s, time)
    requires i < j < |s|
    ensures s[j].isPinned ==> s[i].isPinned
  {
    assert Before(s[i], s[j], time);
  }

  /** In a sorted list, notes with the same pin state are newest first. */
  lemma SortedNewestFirst(s: seq<Note>, time: string -> int, i: nat, j: nat)
    requires Sorted(s, time)
    requires i < j < |s| && s[i].isPinned == s[j].isPinned
    ensures time(s[i].updatedAt) >= time(s[j].updatedAt)
  {
    assert Before(s[i], s[j], time);
  }

  /** The sort of `filteredNotes`, in place: an insertion sort by the page's comparator. */
  method SortNotes(a: array<Note>, time: string -> int)
    modifies a
    ensures Sorted(a[..], time)
    ensures multiset(a[..]) == multiset(old(a[..]))
  {
    if a.Length == 0 {
      return;
    }
    var i := 1;
    while i < a.Length
      invariant 1 <= i <= a.Length
      invariant forall k, l :: 0 <= k < l < i ==> Before(a[k], a[l], time)
      invariant multiset(a[..]) == multiset(old(a[..]))
    {
      var j := i;
      while j > 0 && !Before(a[j - 1], a[j], time)
        invariant 0 <= j <= i
        invariant forall k, l :: 0 <= k < l <= i && k != j && l != j ==> Before(a[k], a[l], time)
        invariant forall l :: j < l <= i ==> Before(a[j], a[l], time)
        invariant multiset(a[..]) == multiset(old(a[..]))
      {
        a[j - 1], a[j] := a[j], a[j - 1];
        j := j - 1;
      }
      i := i + 1;
    }
  }

  /** The list the page shows: the filtered notes, sorted. */
  method DisplayedNotes(notes: seq<Note>, term: string, selected: string,
                        lower: string -> string, time: string -> int)
    returns (shown: seq<Note>)
    ensures multiset(shown) == multiset(FilterNotes(notes, term, selected, lower))
    ensures Sorted(shown, time)
  {
    var filtered := FilterNotes(notes, term, selected, lower);
    var a := new Note[|filtered|](k requires 0 <= k < |filtered| => filtered[k]);
    assert a[..] == filtered;
    SortNotes(a, time);
    shown := a[..];
  }

  /** `pinnedCount`: the pinned notes among all notes. */
  function PinnedCount(notes: seq<Note>): (c: nat)
    ensures c <= |notes|
  {
    if notes == [] then 0 else (if notes[0].isPinned then 1 else 0) + PinnedCount(notes[1..])
  }

  lemma {:induction false} PinnedCountAppend(a: seq<Note>, b: seq<Note>)
    ensures PinnedCount(a + b) == PinnedCount(a) + PinnedCount(b)
  {
    if a == [] {
      assert a + b == b;
    } else {
      assert (a + b)[1..] == a[1..] + b;
      PinnedCountAppend(a[1..], b);
    }
  }

  /** Reordering does not change the pinned count. */
  lemma {:induction false} PinnedCountPermutation(a: seq<Note>, b: seq<Note>)
    requires multiset(a) == multiset(b)
    ensures PinnedCount(a) == PinnedCount(b)
    decreases |a|
  {
    if a != [] {
      var x := a[0];
      assert x in multiset(b);
      var i :| 0 <= i < |b| && b[i] == x;
      var b' := b[..i] + b[i + 1..];
      assert b == b[..i] + [x] + b[i + 1..];
      assert a == [x] + a[1..];
      assert multiset(b) == multiset(b[..i]) + multiset([x]) + multiset(b[i + 1..]);
      assert multiset(b') == multiset(b[..i]) + multiset(b[i + 1..]);
      assert multiset(a) == multiset([x]) + multiset(a[1..]);
      assert multiset(a[1..]) == multiset(a) - multiset{x};
      assert multiset(b') == multiset(b) - multiset{x};
      PinnedCountAppend(b[..i] + [x], b[i + 1..]);
      PinnedCountAppend(b[..i], [x]);
      PinnedCountAppend(b[..i], b[i + 1..]);
      PinnedCountPermutation(a[1..], b');
    }
  }

  /** The filter can only lower the count, so the page's count over all notes bounds the visible one. */
  lemma {:induction false} PinnedCountOfFilter(notes: seq<Note>, term: string, selected: string, lower: string -> string)
    ensures PinnedCount(FilterNotes(notes, term, selected, lower)) <= PinnedCount(notes)
  {
    if notes != [] {
      var head := if Visible(notes[0], term, selected, lower) then [notes[0]] else [];
      PinnedCountAppend(head, FilterNotes(notes[1..], term, selected, lower));
      PinnedCountOfFilter(notes[1..], term, selected, lower);
    }
  }

  /** A sorted list is its pinned notes followed by its unpinned notes. */
  lemma {:induction false} SortedPinnedPrefix(s: seq<Note>, time: string -> int)
    requires Sorted(s, time)
    ensures forall k :: 0 <= k < |s| ==> (s[k].isPinned <==> k < PinnedCount(s))
  {
    if s != [] {
      var t := s[1..];
      assert Sorted(t, time);
      SortedPinnedPrefix(t, time);
      if !s[0].isPinned {
        forall k | 1 <= k < |s| ensures !s[k].isPinned {
          assert Before(s[0], s[k], time);
        }
        if PinnedCount(t) > 0 {
          assert t[0] == s[1];
        }
      }
      forall k | 1 <= k < |s| ensures s[k] == t[k - 1] { }
    }
  }

  /** The displayed list starts with exactly as many pinned notes as the filter passes. */
  lemma DisplayedPinnedPrefix(shown: seq<Note>, filtered: seq<Note>, time: string -> int)
    requires multiset(shown) == multiset(filtered)
    requires Sorted(shown, time)
    ensures forall k :: 0 <= k < |shown| ==> (shown[k].isPinned <==> k < PinnedCount(filtered))
  {
    SortedPinnedPrefix(shown, time);
    PinnedCountPermutation(shown, filtered);
  }

  /** The page's own state, with the store it reads and writes through. */
  class App {
    const store: Sync.NoteStore
    var isModalOpen: bool
    var editingNote: Option<Note>

    constructor (store: Sync.NoteStore)
      ensures this.store == store && !isModalOpen && editingNote == None
    {
      this.store := store;
      isModalOpen := false;
      editingNote := None;
    }

    /** `handleSaveNote`: update the note being edited, otherwise add; then stop editing. */
    method HandleSaveNote(draft: NoteDraft, now: string, nowMillis: nat, resp: Gateway.Response)
      modifies this, store
      ensures editingNote == None && isModalOpen == old(isModalOpen)
      ensures store.loading == old(store.loading)
      ensures match old(editingNote)
        case Some(e) =>
          var s := Sync.UpdateStep(old(store.notes), old(store.error), store.url, e.id, draft, now, resp);
          store.notes == s.notes && store.error == s.error
        case None =>
          var s := Sync.AddStep(old(store.notes), old(store.error), store.url, draft, now, nowMillis, resp);
          store.notes == s.notes && store.error == s.error
    {
      if editingNote.Some? {
        var _, _ := store.UpdateNote(editingNote.value.id, draft, now, resp);
      } else {
        var _, _ := store.AddNote(draft, now, nowMillis, resp);
      }
      editingNote := None;
    }

    /** `handleEditNote` */
    method HandleEditNote(note: Note)
      modifies this
      ensures editingNote == Some(note) && isModalOpen
    {
      editingNote := Some(note);
      isModalOpen := true;
    }

    /** `handleDeleteNote`: `confirmed` is the user's answer to the confirmation prompt. */
    method HandleDeleteNote(id: string, confirmed: bool, resp: Gateway.Response)
      modifies store
      ensures store.loading == old(store.loading)
      ensures confirmed ==>
        var s := Sync.DeleteStep(old(store.notes), old(store.error), store.url, id, resp);
        store.notes == s.notes && store.error == s.error
      ensures !confirmed ==> store.notes == old(store.notes) && store.error == old(store.error)
    {
      if confirmed {
        var _, _ := store.DeleteNote(id, resp);
      }
    }

    /** `handleCloseModal` */
    method HandleCloseModal()
      modifies this
      ensures !isModalOpen && editingNote == None
    {
      isModalOpen := false;
      editingNote := None;
    }

    /** `handleCreateNote` */
    method HandleCreateNote()
      modifies this
      ensures isModalOpen && editingNote == None
    {
      editingNote := None;
      isModalOpen := true;
    }
  }
}
