/**
 * The note list of the notes page: an ordered list of notes of which
 * exactly one is active, with the operations the sidebar and the editor
 * perform on it.
 */
module NoteStore {
  import opened Wrappers
  import opened JsText

  /** A note; `date` is the label shown in the sidebar. */
  datatype Note = Note(id: int, title: string, content: string, date: string, active: bool)

  ghost predicate UniqueIds(notes: seq<Note>) {
    forall i, j :: 0 <= i < j < |notes| ==> notes[i].id != notes[j].id
  }

  predicate HasId(notes: seq<Note>, id: int) {
    exists i :: 0 <= i < |notes| && notes[i].id == id
  }

  /** Note `k` is active and no other note is. */
  ghost predicate ActiveIndex(notes: seq<Note>, k: nat) {
    k < |notes| && notes[k].active && forall j :: 0 <= j < |notes| && notes[j].active ==> j == k
  }

  ghost predicate ExactlyOneActive(notes: seq<Note>) {
    exists k :: ActiveIndex(notes, k)
  }

  const WelcomeContent: string := "Welcome to Routino Notes! ✨\n\nThis is your personal space for thoughts, ideas, and memories. \n\nStart typing to begin your note. Use the toolbar above to format your text. \n\nTry the privacy toggle below to blur sensitive content when you're not actively working on it."
  const GoalsContent: string := "1. Learn a new language\n2. Read 24 books\n3. Run a half marathon\n4. Start meditation practice"
  const BooksContent: string := "To Read:\n- Atomic Habits by James Clear\n- Deep Work by Cal Newport\n- Sapiens by Yuval Noah Harari\n\nFavorites:\n- The Midnight Library by Matt Haig\n- Project Hail Mary by Andy Weir"

  /** The notes with which the page starts. */
  function InitialNotes(): (notes: seq<Note>)
    ensures UniqueIds(notes) && ActiveIndex(notes, 0)
  {
    [ Note(1, "Welcome to Routino Notes", WelcomeContent, "Today", true),
      Note(2, "Personal Goals 2023", GoalsContent, "Jun 12", false),
      Note(3, "Book Recommendations", BooksContent, "May 28", false) ]
  }

  /** `notes.find(note => note.active)`: the first active note, if any. */
  function ActiveNote(notes: seq<Note>): (r: Option<Note>)
    ensures r.None? <==> forall j :: 0 <= j < |notes| ==> !notes[j].active
    ensures r.Some? ==> r.value.active && r.value in notes
  {
    if notes == [] then None
    else if notes[0].active then Some(notes[0])
    else ActiveNote(notes[1..])
  }

  lemma ActiveNoteIsTheActiveOne(notes: seq<Note>, k: nat)
    requires ActiveIndex(notes, k)
    ensures ActiveNote(notes) == Some(notes[k])
  {
    if k > 0 {
      assert !notes[0].active;
      assert ActiveIndex(notes[1..], k - 1);
      ActiveNoteIsTheActiveOne(notes[1..], k - 1);
    }
  }

  /** `loadNote(id)`: exactly the notes with that id become active. */
  function LoadNote(notes: seq<Note>, id: int): (r: seq<Note>)
    ensures |r| == |notes|
  {
    seq(|notes|, i requires 0 <= i < |notes| => notes[i].(active := notes[i].id == id))
  }

  /**
   * Loading a listed note keeps every field but the active flag, and makes
   * that note the one active note.
   */
  lemma LoadNoteActivates(notes: seq<Note>, id: int)
    requires UniqueIds(notes) && HasId(notes, id)
    ensures UniqueIds(LoadNote(notes, id)) && ExactlyOneActive(LoadNote(notes, id))
    ensures ActiveNote(LoadNote(notes, id)).Some? && ActiveNote(LoadNote(notes, id)).value.id == id
    ensures forall i :: 0 <= i < |notes| ==> LoadNote(notes, id)[i].(active := notes[i].active) == notes[i]
    ensures ActiveNote(LoadNote(notes, id)) == Some(notes[FirstIndexOf(notes, id)].(active := true))
  {
    var r := LoadNote(notes, id);
    var k := FirstIndexOf(notes, id);
    assert ActiveIndex(r, k);
    ActiveNoteIsTheActiveOne(r, k);
  }

  function MaxId(notes: seq<Note>): (m: int)
    requires notes != []
    ensures forall i :: 0 <= i < |notes| ==> notes[i].id <= m
    ensures exists i :: 0 <= i < |notes| && notes[i].id == m
  {
    if |notes| == 1 then notes[0].id
    else
      var rest := MaxId(notes[1..]);
      assert forall i :: 1 <= i < |notes| ==> notes[i] == notes[1..][i - 1];
      if notes[0].id >= rest then notes[0].id else rest
  }

  /** The id `addNewNote` gives: one more than the largest id, or 1 for an empty list. */
  function NextId(notes: seq<Note>): (id: int)
    ensures forall i :: 0 <= i < |notes| ==> notes[i].id < id
    ensures !HasId(notes, id)
  {
    if |notes| > 0 then MaxId(notes) + 1 else 1
  }

  /** The title a note gets when it has none: `New Note <id>`. */
  function DefaultTitle(id: int): string {
    "New Note " + IntToString(id)
  }

  /**
   * `addNewNote`: a fresh, empty, active note is put first and every
   * existing note, otherwise unchanged, becomes inactive. The date label
   * is a parameter.
   */
  function AddNewNote(notes: seq<Note>, date: string): (r: seq<Note>)
    ensures |r| == |notes| + 1
    ensures r[0] == Note(NextId(notes), DefaultTitle(NextId(notes)), "", date, true)
    ensures forall i :: 0 <= i < |notes| ==> r[i + 1] == notes[i].(active := false)
  {
    var id := NextId(notes);
    var rest := seq(|notes|, i requires 0 <= i < |notes| => notes[i].(active := false));
    [Note(id, DefaultTitle(id), "", date, true)] + rest
  }

  /** Whatever the list was, after adding a note the new one is the only active note and ids stay unique. */
  lemma AddNewNoteActivatesNew(notes: seq<Note>, date: string)
    requires UniqueIds(notes)
    ensures ActiveIndex(AddNewNote(notes, date), 0)
    ensures UniqueIds(AddNewNote(notes, date))
    ensures forall i :: 0 <= i < |notes| ==> notes[i].id < AddNewNote(notes, date)[0].id
  {
    var r := AddNewNote(notes, date);
    forall i, j | 0 <= i < j < |r| ensures r[i].id != r[j].id {
      if i > 0 {
        assert r[i].id == notes[i - 1].id && r[j].id == notes[j - 1].id;
      } else {
        assert r[j].id == notes[j - 1].id;
      }
    }
  }

  /** `notes.filter(n => n.id !== id)`. */
  function Without(notes: seq<Note>, id: int): (r: seq<Note>)
    ensures |r| <= |notes|
    ensures HasId(notes, id) ==> |r| < |notes|
    ensures forall j :: 0 <= j < |r| ==> r[j].id != id
  {
    if notes == [] then []
    else
      assert HasId(notes, id) && notes[0].id != id ==> HasId(notes[1..], id) by {
        if HasId(notes, id) && notes[0].id != id {
          var i :| 0 <= i < |notes| && notes[i].id == id;
          assert notes[1..][i - 1] == notes[i];
        }
      }
      (if notes[0].id == id then [] else [notes[0]]) + Without(notes[1..], id)
  }

  /** `notes` with the note at `k` taken out. */
  function RemoveAt(notes: seq<Note>, k: nat): (r: seq<Note>)
    requires k < |notes|
    ensures |r| == |notes| - 1
    ensures forall i :: 0 <= i < |r| ==> r[i] == if i < k then notes[i] else notes[i + 1]
  {
    notes[..k] + notes[k + 1..]
  }

  lemma {:induction false} WithoutAbsent(notes: seq<Note>, id: int)
    requires forall i :: 0 <= i < |notes| ==> notes[i].id != id
    ensures Without(notes, id) == notes
  {
    if notes != [] {
      WithoutAbsent(notes[1..], id);
      assert notes == [notes[0]] + notes[1..];
    }
  }

  lemma UniqueTail(notes: seq<Note>)
    requires UniqueIds(notes) && notes != []
    ensures UniqueIds(notes[1..])
    ensures forall i :: 0 <= i < |notes[1..]| ==> notes[1..][i].id != notes[0].id
  {
  }

  /** With unique ids, filtering out a listed id removes just that note and keeps the order of the others. */
  lemma {:induction false} WithoutOne(notes: seq<Note>, k: nat)
    requires UniqueIds(notes) && k < |notes|
    ensures Without(notes, notes[k].id) == RemoveAt(notes, k)
  {
    var id := notes[k].id;
    UniqueTail(notes);
    if k == 0 {
      WithoutAbsent(notes[1..], id);
      assert Without(notes, id) == [] + notes[1..];
    } else {
      WithoutOne(notes[1..], k - 1);
      assert notes[1..][k - 1] == notes[k];
      var rest := RemoveAt(notes[1..], k - 1);
      assert Without(notes, id) == [notes[0]] + rest;
      assert [notes[0]] + rest == RemoveAt(notes, k);
    }
  }

  /** The first note of a non-empty list made active; an empty list is left alone. */
  function ActivateFirst(notes: seq<Note>): (r: seq<Note>)
    ensures |r| == |notes|
    ensures notes != [] ==> r[0] == notes[0].(active := true)
    ensures forall i :: 0 < i < |notes| ==> r[i] == notes[i]
  {
    if notes == [] then [] else notes[0 := notes[0].(active := true)]
  }

  /** Why `deleteNote` leaves the list as it was, or the list it leaves. */
  datatype DeleteOutcome =
    | LastNote                      // at most one note: refused with an alert
    | Declined                      // the confirmation was answered no
    | NotFound                      // no note has the id: reading `notes[-1].active` throws
    | Deleted(remaining: seq<Note>)

  /** `notes.findIndex(n => n.id === id)` for a listed id. */
  function FirstIndexOf(notes: seq<Note>, id: int): (k: nat)
    requires HasId(notes, id)
    ensures k < |notes| && notes[k].id == id
    ensures forall j :: 0 <= j < k ==> notes[j].id != id
  {
    if notes[0].id == id then 0
    else
      assert HasId(notes[1..], id) by {
        var i :| 0 <= i < |notes| && notes[i].id == id;
        assert notes[1..][i - 1] == notes[i];
      }
      1 + FirstIndexOf(notes[1..], id)
  }

  /**
   * `deleteNote(id)`, with the answer to the confirmation dialog as a
   * parameter. The remaining notes are those with another id, in their
   * order; when the deleted note was active, the first remaining note
   * becomes active.
   */
  function DeleteNote(notes: seq<Note>, id: int, confirmed: bool): (outcome: DeleteOutcome)
    ensures outcome == LastNote <==> |notes| <= 1
    ensures outcome == Declined <==> |notes| > 1 && !confirmed
    ensures outcome == NotFound <==> |notes| > 1 && confirmed && !HasId(notes, id)
    ensures outcome.Deleted? ==> forall j :: 0 <= j < |outcome.remaining| ==> outcome.remaining[j].id != id
    ensures outcome.Deleted? ==> |outcome.remaining| < |notes|
  {
    if |notes| <= 1 then LastNote
    else if !confirmed then Declined
    else if !HasId(notes, id) then NotFound
    else
      var kept := Without(notes, id);
      var k := FirstIndexOf(notes, id);
      assert notes[k] !in kept;
      Deleted(if notes[k].active then ActivateFirst(kept) else kept)
  }

  lemma RemoveAtUnique(notes: seq<Note>, k: nat)
    requires UniqueIds(notes) && k < |notes|
    ensures UniqueIds(RemoveAt(notes, k))
    ensures forall i :: 0 <= i < |notes| - 1 ==> RemoveAt(notes, k)[i].id != notes[k].id
  {
    var r := RemoveAt(notes, k);
    forall i, j | 0 <= i < j < |r| ensures r[i].id != r[j].id {
      var i' := if i < k then i else i + 1;
      var j' := if j < k then j else j + 1;
      assert r[i] == notes[i'] && r[j] == notes[j'];
    }
  }

  /**
   * Deleting a note from a list with unique ids and one active note, with
   * the dialog confirmed, removes exactly that note, keeps the others in
   * order and leaves one active note: the same one when another note was
   * deleted, the new first note when the active one was.
   */
  lemma DeleteKeepsOneActive(notes: seq<Note>, k: nat, a: nat)
    requires UniqueIds(notes) && ActiveIndex(notes, a) && |notes| > 1 && k < |notes|
    ensures DeleteNote(notes, notes[k].id, true).Deleted?
    ensures k == a ==> DeleteNote(notes, notes[k].id, true).remaining == ActivateFirst(RemoveAt(notes, k))
    ensures k != a ==> DeleteNote(notes, notes[k].id, true).remaining == RemoveAt(notes, k)
    ensures UniqueIds(DeleteNote(notes, notes[k].id, true).remaining)
    ensures k == a ==> ActiveIndex(DeleteNote(notes, notes[k].id, true).remaining, 0)
    ensures k != a ==> ActiveIndex(DeleteNote(notes, notes[k].id, true).remaining, if a < k then a else a - 1)
  {
    var id := notes[k].id;
    assert HasId(notes, id);
    WithoutOne(notes, k);
    RemoveAtUnique(notes, k);
    var f := FirstIndexOf(notes, id);
    assert f == k;
    var r := RemoveAt(notes, k);
    if k != a {
      var a' := if a < k then a else a - 1;
      assert r[a'] == notes[a];
      assert ActiveIndex(r, a');
    } else {
      assert forall i :: 0 <= i < |r| ==> !r[i].active;
    }
  }

  /** `updateActiveNoteContent`: the active notes get the new content; nothing else changes. */
  function UpdateActiveNoteContent(notes: seq<Note>, content: string): (r: seq<Note>)
    ensures |r| == |notes|
  {
    seq(|notes|, i requires 0 <= i < |notes| => if notes[i].active then notes[i].(content := content) else notes[i])
  }

  /** `updateActiveNoteTitle`: the active notes get the title, or `New Note <id>` for an empty one. */
  function UpdateActiveNoteTitle(notes: seq<Note>, title: string): (r: seq<Note>)
    ensures |r| == |notes|
  {
    seq(|notes|, i requires 0 <= i < |notes| =>
      if notes[i].active then notes[i].(title := if title == "" then DefaultTitle(notes[i].id) else title) else notes[i])
  }

  /**
   * The editor's updates touch only the active note, only the one field,
   * and keep the invariants of the list.
   */
  lemma UpdatesTouchOnlyActive(notes: seq<Note>, k: nat, content: string, title: string)
    requires UniqueIds(notes) && ActiveIndex(notes, k)
    ensures var c := UpdateActiveNoteContent(notes, content);
            && c[k] == notes[k].(content := content)
            && (forall i :: 0 <= i < |notes| && i != k ==> c[i] == notes[i])
            && UniqueIds(c) && ActiveIndex(c, k)
    ensures var t := UpdateActiveNoteTitle(notes, title);
            && t[k] == notes[k].(title := if title == "" then DefaultTitle(notes[k].id) else title)
            && (forall i :: 0 <= i < |notes| && i != k ==> t[i] == notes[i])
            && UniqueIds(t) && ActiveIndex(t, k)
  {
  }

  /** No two notes are active at once. */
  ghost predicate AtMostOneActive(notes: seq<Note>) {
    forall i, j :: 0 <= i < |notes| && 0 <= j < |notes| && notes[i].active && notes[j].active ==> i == j
  }

  /** The id of the note `notes.find(n => n.active)` returns, as the page's effects compare it. */
  function ActiveId(notes: seq<Note>): (r: Option<int>)
    ensures r.Some? <==> ActiveNote(notes).Some?
  {
    match ActiveNote(notes)
    case None => None
    case Some(n) => Some(n.id)
  }

  /**
   * Every store operation keeps the ids unique and at most one note
   * active; loading a listed id, adding a note and deleting from a list
   * with one active note leave exactly one.
   */
  lemma LoadNoteKeepsInvariant(notes: seq<Note>, id: int)
    requires UniqueIds(notes)
    ensures UniqueIds(LoadNote(notes, id)) && AtMostOneActive(LoadNote(notes, id))
    ensures HasId(notes, id) ==> ExactlyOneActive(LoadNote(notes, id))
  {
    if HasId(notes, id) {
      LoadNoteActivates(notes, id);
    }
  }

  /** The added note is the active one, and its id is new, so the active id changes. */
  lemma AddNewNoteShowsNew(notes: seq<Note>, date: string)
    requires UniqueIds(notes)
    ensures var r := AddNewNote(notes, date);
            ActiveNote(r) == Some(r[0]) && ActiveId(r) != ActiveId(notes)
  {
    var r := AddNewNote(notes, date);
    AddNewNoteActivatesNew(notes, date);
    ActiveNoteIsTheActiveOne(r, 0);
    if ActiveNote(notes).Some? {
      var k :| 0 <= k < |notes| && notes[k] == ActiveNote(notes).value;
      assert notes[k].id < r[0].id;
    }
  }

  lemma AddNewNoteKeepsInvariant(notes: seq<Note>, date: string)
    requires UniqueIds(notes)
    ensures UniqueIds(AddNewNote(notes, date)) && AtMostOneActive(AddNewNote(notes, date))
    ensures ExactlyOneActive(AddNewNote(notes, date))
  {
    AddNewNoteActivatesNew(notes, date);
  }

  lemma DeleteNoteKeepsInvariant(notes: seq<Note>, id: int, confirmed: bool)
    requires UniqueIds(notes) && AtMostOneActive(notes)
    requires DeleteNote(notes, id, confirmed).Deleted?
    ensures UniqueIds(DeleteNote(notes, id, confirmed).remaining)
    ensures AtMostOneActive(DeleteNote(notes, id, confirmed).remaining)
    ensures ExactlyOneActive(notes) ==> ExactlyOneActive(DeleteNote(notes, id, confirmed).remaining)
  {
    var k := FirstIndexOf(notes, id);
    WithoutOne(notes, k);
    RemoveAtUnique(notes, k);
    var r := RemoveAt(notes, k);
    assert DeleteNote(notes, id, confirmed).remaining == if notes[k].active then ActivateFirst(r) else r;
    RemoveAtActive(notes, k);
    if notes[k].active {
      ActivateFirstOnly(r);
    }
  }

  /**
   * Deleting the active note leaves the new first note active, so the
   * active id changes and the page shows that note.
   */
  lemma DeleteActiveShowsFirst(notes: seq<Note>, id: int, confirmed: bool)
    requires UniqueIds(notes) && AtMostOneActive(notes)
    requires DeleteNote(notes, id, confirmed).Deleted? && ActiveId(notes) == Some(id)
    ensures var r := DeleteNote(notes, id, confirmed).remaining;
            r != [] && ActiveNote(r) == Some(r[0]) && ActiveId(r) != ActiveId(notes)
  {
    var n := ActiveNote(notes).value;
    var a :| 0 <= a < |notes| && notes[a] == n;
    assert ActiveIndex(notes, a);
    DeleteKeepsOneActive(notes, a, a);
    var r := DeleteNote(notes, id, confirmed).remaining;
    ActiveNoteIsTheActiveOne(r, 0);
  }

  lemma RemoveAtActive(notes: seq<Note>, k: nat)
    requires AtMostOneActive(notes) && k < |notes|
    ensures AtMostOneActive(RemoveAt(notes, k))
    ensures notes[k].active ==> forall i :: 0 <= i < |notes| - 1 ==> !RemoveAt(notes, k)[i].active
    ensures !notes[k].active && ExactlyOneActive(notes) ==> ExactlyOneActive(RemoveAt(notes, k))
  {
    var r := RemoveAt(notes, k);
    forall i, j | 0 <= i < |r| && 0 <= j < |r| && r[i].active && r[j].active ensures i == j {
      assert r[i] == notes[if i < k then i else i + 1] && r[j] == notes[if j < k then j else j + 1];
    }
    if !notes[k].active && ExactlyOneActive(notes) {
      var a: nat :| ActiveIndex(notes, a);
      assert a != k;
      var a' := if a < k then a else a - 1;
      assert r[a'] == notes[a];
      assert ActiveIndex(r, a');
    }
  }

  lemma ActivateFirstOnly(r: seq<Note>)
    requires r != [] && forall i :: 0 <= i < |r| ==> !r[i].active
    ensures UniqueIds(r) ==> UniqueIds(ActivateFirst(r))
    ensures ActiveIndex(ActivateFirst(r), 0) && AtMostOneActive(ActivateFirst(r))
  {
    var f := ActivateFirst(r);
    if UniqueIds(r) {
      assert forall i :: 0 <= i < |r| ==> f[i].id == r[i].id;
    }
  }

  lemma UpdatesKeepInvariant(notes: seq<Note>, content: string, title: string)
    requires UniqueIds(notes) && AtMostOneActive(notes)
    ensures UniqueIds(UpdateActiveNoteContent(notes, content)) && AtMostOneActive(UpdateActiveNoteContent(notes, content))
    ensures UniqueIds(UpdateActiveNoteTitle(notes, title)) && AtMostOneActive(UpdateActiveNoteTitle(notes, title))
    ensures ActiveId(UpdateActiveNoteContent(notes, content)) == ActiveId(notes)
    ensures ActiveId(UpdateActiveNoteTitle(notes, title)) == ActiveId(notes)
  {
    ActiveIdOfUpdate(notes, UpdateActiveNoteContent(notes, content));
    ActiveIdOfUpdate(notes, UpdateActiveNoteTitle(notes, title));
  }

  lemma {:induction false} ActiveIdOfUpdate(notes: seq<Note>, r: seq<Note>)
    requires |r| == |notes|
    requires forall i :: 0 <= i < |notes| ==> r[i].id == notes[i].id && r[i].active == notes[i].active
    ensures ActiveId(r) == ActiveId(notes)
  {
    if notes != [] {
      ActiveIdOfUpdate(notes[1..], r[1..]);
    }
  }
}
