/**
  The note form (src/components/NoteModal.tsx): its field state, the reset or copy when the
  form opens, the save guard, and tag editing.
*/
module NoteModal {
  import opened Wrappers
  import opened Types
  import Text

  predicate Distinct(tags: seq<string>) {
    forall i, j :: 0 <= i < j < |tags| ==> tags[i] != tags[j]
  }

  /** Every tag is non-empty and trimmed, as `addTag` makes them. */
  predicate TrimmedTags(tags: seq<string>) {
    forall k :: 0 <= k < |tags| ==> tags[k] != "" && Text.IsTrimmed(tags[k])
  }

  /** The tags after `addTag` with input `input`. */
  function WithTag(tags: seq<string>, input: string): (r: seq<string>)
    ensures |tags| <= |r| <= |tags| + 1 && r[..|tags|] == tags
    ensures forall x :: x in r <==> x in tags || (x == Text.Trim(input) && x != "")
  {
    var t := Text.Trim(input);
    if t != "" && t !in tags then tags + [t] else tags
  }

  /** The tags after `removeTag` of `t`: every tag equal to `t` dropped, the rest in order. */
  function WithoutTag(tags: seq<string>, t: string): (r: seq<string>)
    ensures |r| <= |tags|
    ensures forall x :: x in r <==> x in tags && x != t
  {
    if tags == [] then []
    else (if tags[0] != t then [tags[0]] else []) + WithoutTag(tags[1..], t)
  }

  /** Removal keeps the other tags in order: it distributes over concatenation. */
  lemma {:induction false} WithoutTagAppend(a: seq<string>, b: seq<string>, t: string)
    ensures WithoutTag(a + b, t) == WithoutTag(a, t) + WithoutTag(b, t)
  {
    if a == [] {
      assert a + b == b;
    } else {
      assert (a + b)[1..] == a[1..] + b;
      WithoutTagAppend(a[1..], b, t);
    }
  }

  lemma WithTagKeepsDistinct(tags: seq<string>, input: string)
    requires Distinct(tags)
    ensures Distinct(WithTag(tags, input))
  {
  }

  lemma {:induction false} WithoutTagKeepsDistinct(tags: seq<string>, t: string)
    requires Distinct(tags)
    ensures Distinct(WithoutTag(tags, t))
  {
    if tags != [] {
      assert Distinct(tags[1..]);
      WithoutTagKeepsDistinct(tags[1..], t);
      assert tags[0] !in tags[1..];
    }
  }

  lemma WithTagKeepsTrimmed(tags: seq<string>, input: string)
    requires TrimmedTags(tags)
    ensures TrimmedTags(WithTag(tags, input))
  {
    Text.TrimIsTrimmedInfix(input);
  }

  lemma {:induction false} WithoutTagKeepsTrimmed(tags: seq<string>, t: string)
    requires TrimmedTags(tags)
    ensures TrimmedTags(WithoutTag(tags, t))
  {
    if tags != [] {
      WithoutTagKeepsTrimmed(tags[1..], t);
    }
  }

  /** One tag edit in the form. */
  datatype TagEdit = Add(input: string) | Remove(tag: string)

  function ApplyEdits(tags: seq<string>, edits: seq<TagEdit>): seq<string>
    decreases |edits|
  {
    if edits == [] then tags
    else
      var next := match edits[0]
        case Add(input) => WithTag(tags, input)
        case Remove(t) => WithoutTag(tags, t);
      ApplyEdits(next, edits[1..])
  }

  /** Any sequence of tag edits keeps a duplicate-free, clean tag list so. */
  lemma {:induction false} EditsKeepDistinct(tags: seq<string>, edits: seq<TagEdit>)
    requires Distinct(tags) && TrimmedTags(tags)
    ensures Distinct(ApplyEdits(tags, edits)) && TrimmedTags(ApplyEdits(tags, edits))
    decreases |edits|
  {
    if edits != [] {
      match edits[0]
      case Add(input) =>
        WithTagKeepsDistinct(tags, input);
        WithTagKeepsTrimmed(tags, input);
        EditsKeepDistinct(WithTag(tags, input), edits[1..]);
      case Remove(t) =>
        WithoutTagKeepsDistinct(tags, t);
        WithoutTagKeepsTrimmed(tags, t);
        EditsKeepDistinct(WithoutTag(tags, t), edits[1..]);
    }
  }

  /** The form's fields. */
  class NoteForm {
    var title: string
    var content: string
    var category: string
    var tags: seq<string>
    var tagInput: string
    var isPinned: bool

    /** The initial `useState` values. */
    constructor ()
      ensures title == "" && content == "" && category == DefaultCategory
      ensures tags == [] && tagInput == "" && !isPinned
    {
      title, content, category := "", "", DefaultCategory;
      tags, tagInput, isPinned := [], "", false;
    }

    /**
      The effect run when the form opens or the edited note changes: copy the note's fields,
      leaving the tag input as it is, or reset every field.
    */
    method Reset(editingNote: Option<Note>)
      modifies this
      ensures match editingNote
        case Some(n) =>
          && title == n.title && content == n.content && category == n.category
          && tags == n.tags && isPinned == n.isPinned && tagInput == old(tagInput)
        case None =>
          && title == "" && content == "" && category == DefaultCategory
          && tags == [] && tagInput == "" && !isPinned
    {
      match editingNote
      case Some(n) =>
        title := n.title;
        content := n.content;
        category := n.category;
        tags := n.tags;
        isPinned := n.isPinned;
      case None =>
        title := "";
        content := "";
        category := DefaultCategory;
        tags := [];
        tagInput := "";
        isPinned := false;
    }

    /**
      `handleSave`: the draft handed to `onSave` (after which the form closes), or `None` when
      the trimmed title or content is empty and nothing happens.
    */
    method HandleSave() returns (saved: Option<NoteDraft>)
      ensures saved.Some? <==> Text.Trim(title) != "" && Text.Trim(content) != ""
      ensures saved.Some? ==> saved.value == NoteDraft(Text.Trim(title), Text.Trim(content), category, tags, isPinned)
      ensures saved.Some? ==> Text.IsTrimmed(saved.value.title) && Text.IsTrimmed(saved.value.content)
    {
      var t := Text.Trim(title);
      var c := Text.Trim(content);
      if t == "" || c == "" {
        return None;
      }
      Text.TrimIsTrimmedInfix(title);
      Text.TrimIsTrimmedInfix(content);
      saved := Some(NoteDraft(t, c, category, tags, isPinned));
    }

    /** `addTag`: appends the trimmed input unless it is empty or already present. */
    method AddTag()
      modifies this`tags, this`tagInput
      ensures var t := Text.Trim(old(tagInput));
        if t != "" && t !in old(tags) then tags == old(tags) + [t] && tagInput == ""
        else tags == old(tags) && tagInput == old(tagInput)
      ensures tags == WithTag(old(tags), old(tagInput))
    {
      var t := Text.Trim(tagInput);
      if t != "" && t !in tags {
        tags := tags + [t];
        tagInput := "";
      }
    }

    /** `removeTag` */
    method RemoveTag(t: string)
      modifies this`tags
      ensures tags == WithoutTag(old(tags), t)
    {
      tags := WithoutTag(tags, t);
    }
  }
}
