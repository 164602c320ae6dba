/**
 * The notes page as a state machine: the note list, the editor's children
 * and the window selection, the blur setting, the `isProcessing` flag, the
 * word and character counters, and the callbacks waiting on timers and on
 * the next animation frame. Every handler of the page that touches the
 * editor is a method; the browser's own edits and timer expiries are the
 * events that drive it.
 */
module NotesEditor {
  import opened Wrappers
  import opened JsText
  import opened Tokenizer
  import opened EditorDom
  import opened Caret
  import opened Reveal
  import opened Counters
  import opened NoteStore

  /** `/^\s+$/.test(part)`. */
  predicate MatchesBlank(part: string) {
    part != [] && forall i | 0 <= i < |part| :: IsSpace(part[i])
  }

  /** The characters of the punctuation class `[.,!?;:'"()[\]{}\-—–]`. */
  predicate IsPunctuation(c: char) {
    c in {'.', ',', '!', '?', ';', ':', '\'', '"', '(', ')', '[', ']', '{', '}', '-', '—', '–'}
  }

  /** The punctuation regular expression applied to `inputData`; a missing datum is tested as the text `null`. */
  predicate HasPunctuation(data: Option<string>) {
    data.Some? && exists i | 0 <= i < |data.value| :: IsPunctuation(data.value[i])
  }

  /** The part of an `input` event the editor looks at. */
  datatype InputEvent = InputEvent(inputType: string, data: Option<string>)

  /** The inputs after which `handleEditorInput` schedules a pass, all of them with the short delay. */
  predicate SchedulesProcessing(ev: InputEvent) {
    || (ev.inputType == "insertText" && (ev.data == Some(" ") || HasPunctuation(ev.data)))
    || ev.inputType == "insertParagraph"
    || ev.inputType == "insertLineBreak"
  }

  const ImmediateDelay: nat := 50
  const DeferredDelay: nat := 200
  const LoadDelay: nat := 100
  const ClickDelay: nat := 10

  /** The delay `scheduleProcessing` arms its timer with. */
  function ScheduleDelay(immediate: bool): (d: nat)
    ensures d == ImmediateDelay <==> immediate
    ensures d == DeferredDelay <==> !immediate
  {
    if immediate then ImmediateDelay else DeferredDelay
  }

  /**
   * Typing a letter or a digit, deleting, and every input type other than
   * the three listed never schedules a pass; a typed space or punctuation
   * mark, a paragraph and a line break always do.
   */
  lemma SchedulingInputs(c: char, inputType: string, data: Option<string>)
    ensures ('a' <= c <= 'z' || 'A' <= c <= 'Z' || '0' <= c <= '9') ==> !SchedulesProcessing(InputEvent("insertText", Some([c])))
    ensures inputType !in {"insertText", "insertParagraph", "insertLineBreak"} ==> !SchedulesProcessing(InputEvent(inputType, data))
    ensures IsPunctuation(c) || c == ' ' ==> SchedulesProcessing(InputEvent("insertText", Some([c])))
    ensures SchedulesProcessing(InputEvent("insertParagraph", data)) && SchedulesProcessing(InputEvent("insertLineBreak", data))
    ensures !SchedulesProcessing(InputEvent("insertText", None))
  {
    if IsPunctuation(c) {
      assert IsPunctuation([c][0]);
    }
  }

  /** The node the `forEach` of `processText` appends for one piece of the split, if any. */
  function PieceNodes(part: string, blurEnabled: bool): (r: seq<Node>)
    ensures |r| <= 1
  {
    if MatchesBlank(part) then [Text(part)]
    else if |part| > 0 then [Span(part, blurEnabled, blurEnabled)]
    else []
  }

  lemma JoinOne(p: string)
    ensures Join([p]) == p
  {
    assert Join([p]) == p + Join([]);
  }

  /**
   * Appending piece `i` of a well-formed split to the text of the pieces
   * before it extends the tokenization by exactly the token the piece is,
   * because the pieces alternate between the two kinds.
   */
  lemma PieceStep(parts: seq<string>, i: nat)
    requires SplitShape(parts) && i < |parts|
    ensures Tokenize(Join(parts[..i + 1])) == Tokenize(Join(parts[..i])) + PieceTokens(parts, i)
  {
    JoinStep(parts, i);
    if parts[i] == "" {
      assert Join(parts[..i]) + parts[i] == Join(parts[..i]);
    } else {
      PieceAppend(parts, i);
    }
  }

  /** A non-empty piece joins the tokens before it as one more token. */
  lemma PieceAppend(parts: seq<string>, i: nat)
    requires SplitShape(parts) && i < |parts| && parts[i] != ""
    ensures Tokenize(Join(parts[..i]) + parts[i]) == Tokenize(Join(parts[..i])) + [Token(parts[i], if i % 2 == 1 then Whitespace else Word)]
  {
    PieceKind(parts, i);
    TokenizeRun(parts[i], if i % 2 == 1 then Whitespace else Word);
    if i > 0 {
      PieceStepSeam(parts, i);
    }
    TokenizeAppend(Join(parts[..i]), parts[i]);
  }

  /** The token piece `i` of a split stands for: none for an empty piece. */
  function PieceTokens(parts: seq<string>, i: nat): seq<Token>
    requires i < |parts|
  {
    if parts[i] == "" then [] else [Token(parts[i], if i % 2 == 1 then Whitespace else Word)]
  }

  lemma JoinStep(parts: seq<string>, i: nat)
    requires i < |parts|
    ensures Join(parts[..i + 1]) == Join(parts[..i]) + parts[i]
  {
    assert parts[..i + 1] == parts[..i] + [parts[i]];
    JoinAppend(parts[..i], [parts[i]]);
    JoinOne(parts[i]);
  }

  /** Pieces at odd positions are whitespace runs and the others hold no whitespace. */
  lemma PieceKind(parts: seq<string>, i: nat)
    requires SplitShape(parts) && i < |parts|
    ensures MatchesBlank(parts[i]) <==> i % 2 == 1
    ensures forall m :: 0 <= m < |parts[i]| ==> KindOf(parts[i][m]) == if i % 2 == 1 then Whitespace else Word
  {
    if i % 2 == 0 && parts[i] != "" {
      assert !IsSpace(parts[i][0]);
    }
  }

  /** The text before piece `i` is empty or ends in a character of the other kind. */
  lemma PieceStepSeam(parts: seq<string>, i: nat)
    requires SplitShape(parts) && 0 < i < |parts|
    ensures var j := Join(parts[..i]);
            j == [] || KindOf(j[|j| - 1]) == (if i % 2 == 1 then Word else Whitespace)
  {
    var q := parts[i - 1];
    assert parts[..i] == parts[..i - 1] + [q];
    JoinAppend(parts[..i - 1], [q]);
    JoinOne(q);
    var j := Join(parts[..i]);
    if q == "" {
      assert i - 1 == 0;
      assert j == Join([]) + q;
    } else {
      assert j[|j| - 1] == q[|q| - 1];
    }
  }

  /** The children a pass builds spell out the text they were built from. */
  lemma RenderKeepsText(s: string, blurEnabled: bool)
    ensures TextContent(Materialize(Tokenize(s), blurEnabled)) == s
  {
    TokenizeSegmentation(s);
    MaterializeText(Tokenize(s), blurEnabled);
  }

  /**
   * A pass rebuilds the children from their text alone, so the text, and
   * with it every plain-text offset, is preserved; a caret captured before
   * the pass is therefore within the rebuilt text.
   */
  lemma RerenderKeepsText(dom: seq<Node>, sel: Selection, blurEnabled: bool)
    requires sel.Range? ==> ValidPoint(dom, sel.end)
    ensures TextContent(Materialize(Tokenize(TextContent(dom)), blurEnabled)) == TextContent(dom)
    ensures CursorPosition(dom, sel) <= Length(Materialize(Tokenize(TextContent(dom)), blurEnabled))
  {
    RenderKeepsText(TextContent(dom), blurEnabled);
    if sel.Range? {
      OffsetBounded(dom, sel.end);
    }
  }

  /**
   * The body of `processText` past its guard: capture the caret offset and
   * the text, empty the editor (which moves the selection to its start),
   * and rebuild the children from the text.
   */
  method RenderPass(dom: seq<Node>, selection: Selection, blurEnabled: bool)
    returns (children: seq<Node>, cleared: Selection, cursorPosition: nat)
    ensures children == Materialize(Tokenize(TextContent(dom)), blurEnabled)
    ensures TextContent(children) == TextContent(dom)
    ensures cleared == ClearChildren(selection)
    ensures cursorPosition == CursorPosition(dom, selection)
  {
    cursorPosition := CursorPosition(dom, selection);
    var textContent := TextContent(dom);
    cleared := ClearChildren(selection);
    children := RenderPieces(textContent, blurEnabled);
  }

  /**
   * The split and the `forEach` of `processText` on an emptied editor:
   * piece by piece, a whitespace run becomes a text node and any other
   * non-empty piece a span styled by the setting. The children it builds
   * are the tokens of the text, and they spell the text out.
   */
  method RenderPieces(textContent: string, blurEnabled: bool) returns (dom: seq<Node>)
    ensures dom == Materialize(Tokenize(textContent), blurEnabled)
    ensures TextContent(dom) == textContent
  {
    var parts := SplitKeepingSeparators(textContent);
    dom := AppendPieces(parts, blurEnabled);
    RenderKeepsText(textContent, blurEnabled);
  }

  /** The `forEach` over the pieces of a split. */
  method AppendPieces(parts: seq<string>, blurEnabled: bool) returns (dom: seq<Node>)
    requires SplitShape(parts)
    ensures dom == Materialize(Tokenize(Join(parts)), blurEnabled)
  {
    dom := [];
    var i := 0;
    while i < |parts|
      invariant 0 <= i <= |parts|
      invariant dom == Materialize(Tokenize(Join(parts[..i])), blurEnabled)
    {
      var part := parts[i];
      PieceNodesStep(parts, i, blurEnabled);
      dom := dom + PieceNodes(part, blurEnabled);
      i := i + 1;
    }
    assert parts[..|parts|] == parts;
  }

  /** Each piece the `forEach` visits appends exactly the children of its token. */
  lemma PieceNodesStep(parts: seq<string>, i: nat, blurEnabled: bool)
    requires SplitShape(parts) && i < |parts|
    ensures Materialize(Tokenize(Join(parts[..i + 1])), blurEnabled)
            == Materialize(Tokenize(Join(parts[..i])), blurEnabled) + PieceNodes(parts[i], blurEnabled)
  {
    PieceStep(parts, i);
    PieceKind(parts, i);
    if parts[i] != "" {
      MaterializeAppend(Tokenize(Join(parts[..i])), Token(parts[i], if i % 2 == 1 then Whitespace else Word), blurEnabled);
    } else {
      assert Tokenize(Join(parts[..i])) + [] == Tokenize(Join(parts[..i]));
    }
  }

  /** The editor's children right after `textContent = content`: one text node, or none for empty content. */
  function ShownChildren(content: string): (dom: seq<Node>)
    ensures TextContent(dom) == content
    ensures |dom| <= 1 && forall i :: 0 <= i < |dom| ==> dom[i].Text?
  {
    if content == "" then [] else
      assert TextContent([Text(content)]) == content + TextContent([]);
      [Text(content)]
  }

  class Editor {
    var notes: seq<Note>
    var blurEnabled: bool
    var isProcessing: bool
    var wordCount: nat
    var charCount: nat
    /** The editor element's children. */
    var dom: seq<Node>
    /** The window's selection. */
    var selection: Selection
    /** `processingTimeoutRef.current` while its timer is armed: the delay it was armed with. */
    var processingTimer: Option<nat>
    /** The caret offset `processText` handed to its animation-frame callback, while that callback waits. */
    var pendingFrame: Option<nat>
    /** How many `processText` callbacks armed by note loads are waiting. */
    var pendingLoads: nat
    /** How many reveal callbacks armed by clicks are waiting. */
    var pendingClicks: nat

    /**
     * The page's invariant: ids stay unique, at most one note is active,
     * and a frame callback is waiting exactly while a pass is in progress.
     */
    ghost predicate Valid()
      reads this
    {
      && UniqueIds(notes)
      && AtMostOneActive(notes)
      && (pendingFrame.Some? <==> isProcessing)
    }

    /**
     * What the effect on `activeNote?.id` leaves when it shows `content`:
     * the content as the editor's children, the selection moved to the
     * editor's start by the removal of the old children, the counters of
     * the content, and one more load pass armed.
     */
    twostate predicate ShowsNote(content: string)
      reads this
    {
      && dom == ShownChildren(content)
      && selection == ClearChildren(old(selection))
      && wordCount == WordCount(content) && charCount == CharCount(content)
      && pendingLoads == old(pendingLoads) + 1
    }

    /** The editor, the selection, the counters and the load passes are as they were. */
    twostate predicate EditorKept()
      reads this
    {
      && dom == old(dom) && selection == old(selection)
      && wordCount == old(wordCount) && charCount == old(charCount)
      && pendingLoads == old(pendingLoads)
    }

    /** The page as it mounts: the three sample notes, blurring on, and the first note shown in the editor. */
    constructor ()
      ensures Valid()
      ensures notes == InitialNotes() && ExactlyOneActive(notes)
      ensures blurEnabled && !isProcessing
      ensures dom == [Text(WelcomeContent)] && selection == NoRange
      ensures wordCount == WordCount(TextContent(dom)) && charCount == CharCount(TextContent(dom))
      ensures processingTimer == None && pendingFrame == None && pendingLoads == 1 && pendingClicks == 0
    {
      notes := InitialNotes();
      blurEnabled := true;
      isProcessing := false;
      dom := [Text(WelcomeContent)];
      selection := NoRange;
      wordCount, charCount := 0, 0;
      processingTimer := None;
      pendingFrame := None;
      pendingLoads := 1;
      pendingClicks := 0;
      new;
      UpdateWordCount();
    }

    /** `updateWordCount`: the counters follow the editor's text. */
    method UpdateWordCount()
      modifies this
      ensures wordCount == WordCount(TextContent(dom)) && charCount == CharCount(TextContent(dom))
      ensures notes == old(notes) && dom == old(dom) && selection == old(selection)
      ensures blurEnabled == old(blurEnabled) && isProcessing == old(isProcessing)
      ensures processingTimer == old(processingTimer) && pendingFrame == old(pendingFrame)
      ensures pendingLoads == old(pendingLoads) && pendingClicks == old(pendingClicks)
    {
      var text := TextContent(dom);
      wordCount := WordCount(text);
      charCount := CharCount(text);
    }

    /**
     * The effect on `activeNote?.id`: when a note becomes active, its
     * content replaces the editor's children as one text node, the
     * counters are brought up to date and a pass is armed for 100 ms.
     */
    method ShowActiveNote()
      requires Valid()
      modifies this
      ensures Valid()
      ensures ActiveNote(notes).None? ==> EditorKept()
      ensures ActiveNote(notes).Some? ==> ShowsNote(ActiveNote(notes).value.content)
      ensures notes == old(notes) && blurEnabled == old(blurEnabled) && isProcessing == old(isProcessing)
      ensures processingTimer == old(processingTimer) && pendingFrame == old(pendingFrame) && pendingClicks == old(pendingClicks)
    {
      var active := ActiveNote(notes);
      if active.Some? {
        var content := active.value.content;
        dom := ShownChildren(content);
        selection := ClearChildren(selection);
        UpdateWordCount();
        pendingLoads := pendingLoads + 1;
      }
    }

    /**
     * `processText`: unless a pass is in progress, capture the caret as a
     * plain-text offset, empty the editor and rebuild it from the pieces of
     * `split(/(\s+)/)`, one text node per whitespace run and one span per
     * word, blurred when blurring is on; then wait for the next frame to
     * put the caret back.
     */
    method ProcessText()
      requires Valid()
      modifies this
      ensures Valid()
      ensures old(isProcessing) ==> dom == old(dom) && selection == old(selection) && pendingFrame == old(pendingFrame) && isProcessing
      ensures !old(isProcessing) ==>
                && dom == Materialize(Tokenize(old(TextContent(dom))), blurEnabled)
                && TextContent(dom) == old(TextContent(dom))
                && selection == ClearChildren(old(selection))
                && pendingFrame == Some(old(CursorPosition(dom, selection)))
                && isProcessing
      ensures notes == old(notes) && blurEnabled == old(blurEnabled)
      ensures wordCount == old(wordCount) && charCount == old(charCount)
      ensures processingTimer == old(processingTimer) && pendingLoads == old(pendingLoads) && pendingClicks == old(pendingClicks)
    {
      if isProcessing {
        return;
      }
      isProcessing := true;
      var children, cleared, cursorPosition := RenderPass(dom, selection, blurEnabled);
      dom, selection := children, cleared;
      pendingFrame := Some(cursorPosition);
    }

    /**
     * The animation-frame callback of a pass: `setCursorPosition` with
     * the captured offset, then the pass is over. The caret lands on the
     * captured offset, or at the end when the text has since become
     * shorter.
     */
    method CommitFrame()
      requires Valid() && pendingFrame.Some?
      modifies this
      ensures Valid()
      ensures selection.Range? && selection.start == selection.end && ValidPoint(dom, selection.end)
      ensures CursorPosition(dom, selection) == Min(old(pendingFrame).value, Length(dom))
      ensures !isProcessing && pendingFrame == None
      ensures notes == old(notes) && dom == old(dom) && blurEnabled == old(blurEnabled)
      ensures wordCount == old(wordCount) && charCount == old(charCount)
      ensures processingTimer == old(processingTimer) && pendingLoads == old(pendingLoads) && pendingClicks == old(pendingClicks)
    {
      var p := RestoreCaret(dom, pendingFrame.value);
      selection := Range(p, p);
      pendingFrame := None;
      isProcessing := false;
    }

    /** `scheduleProcessing`: cancel any armed timer and arm one with the short or the long delay. */
    method ScheduleProcessing(immediate: bool)
      requires Valid()
      modifies this
      ensures Valid()
      ensures processingTimer == Some(ScheduleDelay(immediate))
      ensures notes == old(notes) && dom == old(dom) && selection == old(selection)
      ensures blurEnabled == old(blurEnabled) && isProcessing == old(isProcessing)
      ensures wordCount == old(wordCount) && charCount == old(charCount)
      ensures pendingFrame == old(pendingFrame) && pendingLoads == old(pendingLoads) && pendingClicks == old(pendingClicks)
    {
      processingTimer := Some(ScheduleDelay(immediate));
    }

    /** The timer of `scheduleProcessing` fires: a pass runs unless one is in progress. */
    method FireProcessingTimer()
      requires Valid() && processingTimer.Some?
      modifies this
      ensures Valid()
      ensures processingTimer == None
      ensures old(isProcessing) ==> dom == old(dom) && selection == old(selection) && pendingFrame == old(pendingFrame)
      ensures !old(isProcessing) ==>
                && dom == Materialize(Tokenize(old(TextContent(dom))), blurEnabled)
                && TextContent(dom) == old(TextContent(dom))
                && selection == ClearChildren(old(selection))
                && pendingFrame == Some(old(CursorPosition(dom, selection)))
      ensures isProcessing && notes == old(notes) && blurEnabled == old(blurEnabled)
      ensures wordCount == old(wordCount) && charCount == old(charCount)
      ensures pendingLoads == old(pendingLoads) && pendingClicks == old(pendingClicks)
    {
      processingTimer := None;
      if !isProcessing {
        ProcessText();
      }
    }

    /** The 100 ms timer armed by a note load fires and calls `processText`. */
    method FireLoadTimer()
      requires Valid() && pendingLoads > 0
      modifies this
      ensures Valid()
      ensures pendingLoads == old(pendingLoads) - 1
      ensures old(isProcessing) ==> dom == old(dom) && selection == old(selection) && pendingFrame == old(pendingFrame)
      ensures !old(isProcessing) ==>
                && dom == Materialize(Tokenize(old(TextContent(dom))), blurEnabled)
                && TextContent(dom) == old(TextContent(dom))
                && selection == ClearChildren(old(selection))
                && pendingFrame == Some(old(CursorPosition(dom, selection)))
      ensures isProcessing && notes == old(notes) && blurEnabled == old(blurEnabled)
      ensures wordCount == old(wordCount) && charCount == old(charCount)
      ensures processingTimer == old(processingTimer) && pendingClicks == old(pendingClicks)
    {
      pendingLoads := pendingLoads - 1;
      ProcessText();
    }

    /**
     * `handleEditorInput`, after the browser has applied the edit, leaving
     * the children `edited` and the selection `sel`. During a pass the
     * event is ignored. Otherwise the counters and the active note's
     * content follow the text, and a space, a punctuation mark, a
     * paragraph or a line break arms the short timer; any other input
     * leaves the timer as it was.
     */
    method HandleEditorInput(edited: seq<Node>, sel: Selection, ev: InputEvent)
      requires Valid()
      modifies this
      ensures Valid()
      ensures dom == edited && selection == sel
      ensures old(isProcessing) ==>
                notes == old(notes) && wordCount == old(wordCount) && charCount == old(charCount) && processingTimer == old(processingTimer)
      ensures !old(isProcessing) ==>
                && notes == UpdateActiveNoteContent(old(notes), TextContent(edited))
                && wordCount == WordCount(TextContent(edited)) && charCount == CharCount(TextContent(edited))
                && processingTimer == (if SchedulesProcessing(ev) then Some(ImmediateDelay) else old(processingTimer))
      ensures ActiveId(notes) == ActiveId(old(notes))
      ensures blurEnabled == old(blurEnabled) && isProcessing == old(isProcessing)
      ensures pendingFrame == old(pendingFrame) && pendingLoads == old(pendingLoads) && pendingClicks == old(pendingClicks)
    {
      dom := edited;
      selection := sel;
      if isProcessing {
        return;
      }
      UpdateWordCount();
      UpdatesKeepInvariant(notes, TextContent(dom), "");
      notes := UpdateActiveNoteContent(notes, TextContent(dom));
      if SchedulesProcessing(ev) {
        ScheduleProcessing(true);
      }
    }

    /** The privacy switch: flip the setting, then the effect on it restyles every span. */
    method ToggleBlur()
      requires Valid()
      modifies this
      ensures Valid()
      ensures blurEnabled == !old(blurEnabled)
      ensures dom == UpdateBlurState(old(dom), blurEnabled) && Styled(dom, blurEnabled)
      ensures TextContent(dom) == TextContent(old(dom))
      ensures notes == old(notes) && selection == old(selection) && isProcessing == old(isProcessing)
      ensures wordCount == old(wordCount) && charCount == old(charCount)
      ensures processingTimer == old(processingTimer) && pendingFrame == old(pendingFrame)
      ensures pendingLoads == old(pendingLoads) && pendingClicks == old(pendingClicks)
    {
      blurEnabled := !blurEnabled;
      UpdateBlurStateStyled(dom, blurEnabled);
      SameShapeText(UpdateBlurState(dom, blurEnabled), dom);
      dom := UpdateBlurState(dom, blurEnabled);
    }

    /** `handleMouseOver` on the child `target` (None when the target is not a child span). */
    method HandleMouseOver(target: Option<nat>)
      requires Valid()
      modifies this
      ensures Valid()
      ensures dom == MouseOver(old(dom), target, blurEnabled)
      ensures notes == old(notes) && selection == old(selection) && blurEnabled == old(blurEnabled) && isProcessing == old(isProcessing)
      ensures wordCount == old(wordCount) && charCount == old(charCount)
      ensures processingTimer == old(processingTimer) && pendingFrame == old(pendingFrame)
      ensures pendingLoads == old(pendingLoads) && pendingClicks == old(pendingClicks)
    {
      dom := MouseOver(dom, target, blurEnabled);
    }

    /** `handleMouseOut` on the child `target`. */
    method HandleMouseOut(target: Option<nat>)
      requires Valid()
      modifies this
      ensures Valid()
      ensures dom == MouseOut(old(dom), target, blurEnabled)
      ensures notes == old(notes) && selection == old(selection) && blurEnabled == old(blurEnabled) && isProcessing == old(isProcessing)
      ensures wordCount == old(wordCount) && charCount == old(charCount)
      ensures processingTimer == old(processingTimer) && pendingFrame == old(pendingFrame)
      ensures pendingLoads == old(pendingLoads) && pendingClicks == old(pendingClicks)
    {
      dom := MouseOut(dom, target, blurEnabled);
    }

    /** The browser moves the selection (a click, a drag, the arrow keys). */
    method MoveSelection(sel: Selection)
      requires Valid()
      modifies this
      ensures Valid()
      ensures selection == sel
      ensures notes == old(notes) && dom == old(dom) && blurEnabled == old(blurEnabled) && isProcessing == old(isProcessing)
      ensures wordCount == old(wordCount) && charCount == old(charCount)
      ensures processingTimer == old(processingTimer) && pendingFrame == old(pendingFrame)
      ensures pendingLoads == old(pendingLoads) && pendingClicks == old(pendingClicks)
    {
      selection := sel;
    }

    /** `handleEditorClick`: with blurring on, arm the 10 ms reveal callback. */
    method HandleEditorClick()
      requires Valid()
      modifies this
      ensures Valid()
      ensures pendingClicks == old(pendingClicks) + (if blurEnabled then 1 else 0)
      ensures notes == old(notes) && dom == old(dom) && selection == old(selection)
      ensures blurEnabled == old(blurEnabled) && isProcessing == old(isProcessing)
      ensures wordCount == old(wordCount) && charCount == old(charCount)
      ensures processingTimer == old(processingTimer) && pendingFrame == old(pendingFrame) && pendingLoads == old(pendingLoads)
    {
      if blurEnabled {
        pendingClicks := pendingClicks + 1;
      }
    }

    /**
     * The click's reveal callback: it does not look at the setting again,
     * but it only restyles spans that still carry the `blurred` class.
     */
    method FireClickTimer()
      requires Valid() && pendingClicks > 0
      modifies this
      ensures Valid()
      ensures pendingClicks == old(pendingClicks) - 1
      ensures dom == SelectionReveal(old(dom), selection, true)
      ensures notes == old(notes) && selection == old(selection) && blurEnabled == old(blurEnabled) && isProcessing == old(isProcessing)
      ensures wordCount == old(wordCount) && charCount == old(charCount)
      ensures processingTimer == old(processingTimer) && pendingFrame == old(pendingFrame) && pendingLoads == old(pendingLoads)
    {
      pendingClicks := pendingClicks - 1;
      dom := SelectionReveal(dom, selection, true);
    }

    /** `handleEditorKeyUp`: the reveal pass of a click, run at once. */
    method HandleEditorKeyUp()
      requires Valid()
      modifies this
      ensures Valid()
      ensures dom == SelectionReveal(old(dom), selection, blurEnabled)
      ensures notes == old(notes) && selection == old(selection) && blurEnabled == old(blurEnabled) && isProcessing == old(isProcessing)
      ensures wordCount == old(wordCount) && charCount == old(charCount)
      ensures processingTimer == old(processingTimer) && pendingFrame == old(pendingFrame)
      ensures pendingLoads == old(pendingLoads) && pendingClicks == old(pendingClicks)
    {
      dom := SelectionReveal(dom, selection, blurEnabled);
    }

    /** A click on a note in the sidebar: `loadNote`, then the effect if the active note changed. */
    method SelectNote(id: int)
      requires Valid()
      modifies this
      ensures Valid()
      ensures HasId(old(notes), id) ==> ExactlyOneActive(notes) && ActiveId(notes) == Some(id)
      ensures HasId(old(notes), id) ==> ActiveNote(notes) == Some(old(notes)[FirstIndexOf(old(notes), id)].(active := true))
      ensures ActiveId(notes) != ActiveId(old(notes)) && ActiveNote(notes).Some? ==> ShowsNote(ActiveNote(notes).value.content)
      ensures ActiveId(notes) == ActiveId(old(notes)) || ActiveNote(notes).None? ==> EditorKept()
      ensures |notes| == |old(notes)|
      ensures forall i :: 0 <= i < |notes| ==> notes[i] == old(notes)[i].(active := old(notes)[i].id == id)
      ensures blurEnabled == old(blurEnabled) && isProcessing == old(isProcessing)
      ensures processingTimer == old(processingTimer) && pendingFrame == old(pendingFrame) && pendingClicks == old(pendingClicks)
    {
      var before := ActiveId(notes);
      LoadNoteKeepsInvariant(notes, id);
      if HasId(notes, id) {
        LoadNoteActivates(notes, id);
      }
      notes := LoadNote(notes, id);
      if ActiveId(notes) != before {
        ShowActiveNote();
      }
    }

    /** The sidebar's add button: `addNewNote` with today's label, then the new, empty note is shown. */
    method NewNote(date: string)
      requires Valid()
      modifies this
      ensures Valid()
      ensures notes == AddNewNote(old(notes), date) && ExactlyOneActive(notes)
      ensures ActiveNote(notes) == Some(notes[0]) && notes[0].content == ""
      ensures ShowsNote("") && dom == [] && wordCount == 0 && charCount == 0
      ensures blurEnabled == old(blurEnabled) && isProcessing == old(isProcessing)
      ensures processingTimer == old(processingTimer) && pendingFrame == old(pendingFrame) && pendingClicks == old(pendingClicks)
    {
      AddNewNoteKeepsInvariant(notes, date);
      AddNewNoteShowsNew(notes, date);
      notes := AddNewNote(notes, date);
      ShowActiveNote();
    }

    /** A note's delete button, with the answer to the confirmation dialog. */
    method RemoveNote(id: int, confirmed: bool) returns (outcome: DeleteOutcome)
      requires Valid()
      modifies this
      ensures Valid()
      ensures outcome == DeleteNote(old(notes), id, confirmed)
      ensures !outcome.Deleted? ==> notes == old(notes) && EditorKept()
      ensures outcome.Deleted? ==> notes == outcome.remaining
      ensures outcome.Deleted? && ActiveId(old(notes)) == Some(id) ==>
                notes != [] && ActiveNote(notes) == Some(notes[0]) && ShowsNote(notes[0].content)
      ensures ActiveId(notes) != ActiveId(old(notes)) && ActiveNote(notes).Some? ==> ShowsNote(ActiveNote(notes).value.content)
      ensures ActiveId(notes) == ActiveId(old(notes)) || ActiveNote(notes).None? ==> EditorKept()
      ensures ExactlyOneActive(old(notes)) ==> ExactlyOneActive(notes)
      ensures blurEnabled == old(blurEnabled) && isProcessing == old(isProcessing)
      ensures processingTimer == old(processingTimer) && pendingFrame == old(pendingFrame) && pendingClicks == old(pendingClicks)
    {
      outcome := DeleteNote(notes, id, confirmed);
      if outcome.Deleted? {
        var before := ActiveId(notes);
        DeleteNoteKeepsInvariant(notes, id, confirmed);
        if before == Some(id) {
          DeleteActiveShowsFirst(notes, id, confirmed);
        }
        notes := outcome.remaining;
        if ActiveId(notes) != before {
          ShowActiveNote();
        }
      }
    }

    /** The title field: `updateActiveNoteTitle`. */
    method EditTitle(title: string)
      requires Valid()
      modifies this
      ensures Valid()
      ensures notes == UpdateActiveNoteTitle(old(notes), title) && ActiveId(notes) == ActiveId(old(notes))
      ensures dom == old(dom) && selection == old(selection) && blurEnabled == old(blurEnabled) && isProcessing == old(isProcessing)
      ensures wordCount == old(wordCount) && charCount == old(charCount)
      ensures processingTimer == old(processingTimer) && pendingFrame == old(pendingFrame)
      ensures pendingLoads == old(pendingLoads) && pendingClicks == old(pendingClicks)
    {
      UpdatesKeepInvariant(notes, "", title);
      notes := UpdateActiveNoteTitle(notes, title);
    }
  }

  /**
   * Typing a space at the caret, letting the timer fire and the frame
   * commit re-renders the editor from its text, keeps the text, and puts
   * the caret back on the same plain-text offset.
   */
  method SpaceThenPass(e: Editor, edited: seq<Node>, caret: Point)
    requires e.Valid() && !e.isProcessing && ValidPoint(edited, caret)
    modifies e
    ensures e.Valid() && !e.isProcessing
    ensures e.dom == Materialize(Tokenize(TextContent(edited)), e.blurEnabled)
    ensures TextContent(e.dom) == TextContent(edited)
    ensures CursorPosition(e.dom, e.selection) == OffsetOf(edited, caret)
    ensures Styled(e.dom, e.blurEnabled)
  {
    e.HandleEditorInput(edited, Range(caret, caret), InputEvent("insertText", Some(" ")));
    e.FireProcessingTimer();
    RerenderKeepsText(edited, Range(caret, caret), e.blurEnabled);
    MaterializeStyled(Tokenize(TextContent(edited)), e.blurEnabled);
    e.CommitFrame();
  }
}
