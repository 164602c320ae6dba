# Routino notes editor and routine widgets, modelled in Dafny

This project models the privacy-blur notes editor of the Routino client and the small pieces of state logic in its routines screens.

The notes editor is a `contenteditable` element.

- Each processing pass re-cuts the element's text into whitespace runs and words.
- Whitespace runs become text nodes. Each word becomes a `<span>`, which is blurred when the privacy switch is on.
- The pointer reveals spans, and so does a selection that meets them.
- The caret is remembered as a plain-text offset before a pass and put back afterwards.
- Input events arm a single debounced timer, and a flag keeps a pass from starting while another is in progress.
- Around the editor sits the note list, in which exactly one note is active, together with the word and character counters.

The routines side has three pieces:

- the card swiper, which classifies a swipe gesture and moves a wrap-around card index;
- the cube list of the routine form, with its save-time check;
- the drag clamp of a single cube.

## Layout

| file | module | what it holds |
|---|---|---|
| `wrappers.dfy` | `Wrappers` | `Option` |
| `js_text.dfy` | `JsText` | ECMAScript's `\s` character set, `trim`, and integer-to-decimal rendering |
| `tokenizer.dfy` | `Tokenizer` | tokens as maximal runs; `split(/(\s+)/)` and `split(/\s+/)`; uniqueness of the segmentation |
| `editor_dom.dfy` | `EditorDom` | the editor's children (`Text` or `Span`); boundary points, the selection, `textContent`, `intersectsNode` |
| `caret.dfy` | `Caret` | `setCursorPosition` as a loop over the children |
| `reveal.dfy` | `Reveal` | `updateBlurState` and the hover, click and key-up reveal handlers; the reveal rule as one reference function |
| `counters.dfy` | `Counters` | `updateWordCount` |
| `note_store.dfy` | `NoteStore` | the note list operations and their invariants |
| `notes_editor.dfy` | `NotesEditor` | class `Editor`: the page state machine with processing pass, timers, animation frame and event handlers |
| `swiper.dfy` | `Swiper` | JavaScript `NaN` arithmetic, swipe classification, card index, class `CardSwiper` |
| `create_routine.dfy` | `CreateRoutine` | the cube list and `handleSave` |
| `routine_cube.dfy` | `RoutineCube` | the position clamp and class `CubeDrag` |

### How the model is built

- **Timers and frames are events.** Whatever is waiting on a timer or an animation frame is a field of `Editor`:
  - `processingTimer` is the one timer `scheduleProcessing` keeps;
  - `pendingFrame` is the caret offset handed to the frame callback;
  - `pendingLoads` and `pendingClicks` count the callbacks armed by note loads and by clicks.

  Methods such as `FireProcessingTimer` and `CommitFrame` stand for the moment each callback runs.
- **The browser's edits are parameters.** `HandleEditorInput` receives the children and the selection as the browser left them.
- **Host inputs are parameters.** These are the answer to `window.confirm`, today's date label, `Date.now()` ids, the random cube position and pointer coordinates.

### Edge behaviour of the code

- **Caret ties.** `setCursorPosition` tests `charCount + nodeLength >= position` (NotesApp.js:138). A caret exactly on a token boundary therefore lands at the end of the preceding token, not at the start of the following one. `Caret.BoundaryGoesToPrecedingEnd` states this.
- **Leaving a selected span.** `handleMouseOut` obscures a blurred span again even when the selection meets it. The reveal rule is re-applied only on the next click or key-up. `Reveal.MouseOutReblurs` states this.
- **Ordinary keystrokes.** Letters, digits and deletions schedule no pass. `scheduleProcessing` is only ever called with `true` (NotesApp.js:291-309), so its 200 ms delay is never used.
- **Empty editor.** When the editor has no children, the restored caret is the fresh range at the start of the document, not inside the editor.

## Model

| member | source | states |
|---|---|---|
| JsText.Trim | src/modules/notes/pages/NotesApp.js:98 | the trimmed text is empty exactly when the text is all whitespace; otherwise it starts and ends with non-whitespace; it is a contiguous slice of the text; what was cut off on both sides is whitespace |
| JsText.IntToString | src/modules/notes/pages/NotesApp.js:243 | the decimal rendering of an id inside a template literal: a non-empty string of digits, after a minus sign for negatives |
| JsText.IntToStringValue | src/modules/notes/pages/NotesApp.js:243 | reading the rendering back as a decimal number gives the id |
| JsText.IntToStringInjective | src/modules/notes/pages/NotesApp.js:243 | different ids render to different texts, so different new notes get different default titles |
| Tokenizer.Tokenize | src/modules/notes/pages/NotesApp.js:173-187 | no tokens exactly for the empty text; the first token has the kind of the first character |
| Tokenizer.TokenizeSegmentation | src/modules/notes/pages/NotesApp.js:173-187 | the tokens joined in order give back the text exactly; every token is non-empty and of one kind; neighbouring tokens differ in kind, so runs are maximal |
| Tokenizer.SegmentationUnique | src/modules/notes/pages/NotesApp.js:173-187 | any cut of a text into non-empty, uniform, alternating runs is exactly `Tokenize`'s, so the token list is a function of the text alone |
| Tokenizer.TokenizeAppend | src/modules/notes/pages/NotesApp.js:175-187 | the tokens of two texts whose seam changes kind are the tokens of each, concatenated |
| Tokenizer.TokenizeRun | src/modules/notes/pages/NotesApp.js:176-186 | a non-empty text of one kind is one token |
| Tokenizer.TokenizeIdempotent | src/modules/notes/pages/NotesApp.js:169-187 | re-tokenizing the text of a token list gives the same list, so a second pass over unchanged text rebuilds the same children |
| Tokenizer.SplitKeepingSeparators | src/modules/notes/pages/NotesApp.js:173 | `split(/(\s+)/)`: an odd number of pieces; non-empty whitespace runs at odd positions; whitespace-free pieces at even positions; only the outer pieces may be empty; the pieces join back to the text; the first piece is empty exactly when the text is empty or starts with whitespace |
| Tokenizer.SplitOnSpaceCount | src/modules/notes/pages/NotesApp.js:99 | `split(/\s+/)` yields one piece per word run, plus one for a leading and one for a trailing whitespace run (or for the empty text) |
| Tokenizer.TrimKeepsWords | src/modules/notes/pages/NotesApp.js:98-99 | trimming never changes the number of word runs |
| EditorDom.Materialize | src/modules/notes/pages/NotesApp.js:175-186 | one child per token |
| EditorDom.MaterializeText | src/modules/notes/pages/NotesApp.js:175-186 | the children built from a token list have as `textContent` the tokens' texts joined |
| EditorDom.MaterializeAppend | src/modules/notes/pages/NotesApp.js:175-186 | appending a token appends exactly its node |
| EditorDom.CursorPosition | src/modules/notes/pages/NotesApp.js:107-116 | 0 when there is no range; otherwise the number of editor characters before the range's end |
| EditorDom.OffsetBounded | src/modules/notes/pages/NotesApp.js:111-115 | the offset of a point inside the editor is at most the length of its text |
| EditorDom.IntersectsTextRange | src/modules/notes/pages/NotesApp.js:380-381 | a range whose ends lie in text children meets exactly the children from the start's to the end's, both included |
| EditorDom.ClearChildren | src/modules/notes/pages/NotesApp.js:171 | `innerHTML = ''` keeps whether a range exists and moves its boundary points in the editor to the editor's start |
| Caret.RestoreCaret | src/modules/notes/pages/NotesApp.js:119-160 | the caret is a valid point; when the position is within the text, it is inside the first child whose cumulative length reaches the position, at offset position minus the lengths before it; beyond the text it is the end point of the last child; with no children it stays where a fresh range starts; its plain-text offset is min(position, text length) |
| Caret.EndPointOffset | src/modules/notes/pages/NotesApp.js:148-156 | the fallback after the last child is a valid point at the very end of the text |
| Caret.BoundaryGoesToPrecedingEnd | src/modules/notes/pages/NotesApp.js:138 | when all children are non-empty and the position is exactly the end of child k, the caret is placed in child k at its end |
| Caret.NodeEndOrder | src/modules/notes/pages/NotesApp.js:136-145 | cumulative lengths grow with the child index, strictly when every child is non-empty |
| Reveal.UpdateBlurState | src/modules/notes/pages/NotesApp.js:196-209 | restyling keeps every child's text and node kind |
| Reveal.UpdateBlurStateStyled | src/modules/notes/pages/NotesApp.js:196-209 | afterwards every span is blurred and obscured exactly when the setting is on; text nodes are untouched |
| Reveal.ToggleIsRerender | src/modules/notes/pages/NotesApp.js:196-209 | toggling the setting on rendered children gives the children a pass would render with the new setting |
| Reveal.MaterializeStyled | src/modules/notes/pages/NotesApp.js:176-184 | a pass never blurs whitespace, and blurs and obscures a word exactly when the setting is on |
| Reveal.SameShapeText | src/modules/notes/pages/NotesApp.js:196-209 | restyled children have the same `textContent`, so caret offsets are unaffected |
| Reveal.MouseOver | src/modules/notes/pages/NotesApp.js:358-363 | hovering changes styling only |
| Reveal.MouseOut | src/modules/notes/pages/NotesApp.js:365-370 | leaving changes styling only |
| Reveal.SelectionReveal | src/modules/notes/pages/NotesApp.js:372-406 | the selection pass changes styling only |
| Reveal.SelectionRevealFollowsRule | src/modules/notes/pages/NotesApp.js:372-406 | with blur on and a range selected, each child's view afterwards is the reference rule's with "selected" meaning that the range meets it |
| Reveal.MouseOverFollowsRule | src/modules/notes/pages/NotesApp.js:358-363 | the hovered child's view is the rule's with "hovered"; no other child changes |
| Reveal.MouseOutReblurs | src/modules/notes/pages/NotesApp.js:365-370 | the child left is shown as the rule says for an unhovered, unselected token; no other child changes |
| Reveal.HoverRoundTrip | src/modules/notes/pages/NotesApp.js:358-370 | entering then leaving a span that was obscured restores the children exactly |
| Reveal.BlurOffHandlersInert | src/modules/notes/pages/NotesApp.js:358-406 | with blurring off, hover, leave and the selection pass change nothing |
| Reveal.HandlersKeepStyled | src/modules/notes/pages/NotesApp.js:358-406 | the handlers keep the styling invariant the last render or toggle established |
| Reveal.SelectionRevealIdempotent | src/modules/notes/pages/NotesApp.js:372-406 | running the selection pass twice is running it once |
| Counters.CharCount | src/modules/notes/pages/NotesApp.js:98-100 | the character count is at most the length of the text, and 0 exactly when the text is all whitespace |
| Counters.WordCountCountsRuns | src/modules/notes/pages/NotesApp.js:96-104 | the word count is the number of maximal non-whitespace runs, and 0 for text that is blank |
| NoteStore.InitialNotes | src/modules/notes/pages/NotesApp.js:6-28 | three notes with distinct ids, the first one the only active note |
| NoteStore.ActiveNote | src/modules/notes/pages/NotesApp.js:48 | none exactly when no note is active; otherwise an active note of the list |
| NoteStore.ActiveNoteIsTheActiveOne | src/modules/notes/pages/NotesApp.js:48 | with one active note, that note is the one found |
| NoteStore.ActiveId | src/modules/notes/pages/NotesApp.js:48 | `activeNote?.id` is defined exactly when a note is active |
| NoteStore.LoadNote | src/modules/notes/pages/NotesApp.js:226-233 | the list keeps its length |
| NoteStore.LoadNoteActivates | src/modules/notes/pages/NotesApp.js:226-233 | loading a listed id makes that note the one active note and changes no other field; `find` then returns the note with that id, marked active |
| NoteStore.LoadNoteKeepsInvariant | src/modules/notes/pages/NotesApp.js:226-233 | ids stay unique and at most one note is active for any id; exactly one for a listed id |
| NoteStore.MaxId | src/modules/notes/pages/NotesApp.js:236 | `Math.max` of the ids: no id exceeds it, and some note has it |
| NoteStore.NextId | src/modules/notes/pages/NotesApp.js:236 | the new id is greater than every id in the list, so no note has it |
| NoteStore.AddNewNote | src/modules/notes/pages/NotesApp.js:235-252 | the new note comes first, with the new id, the title `New Note <id>`, empty content, the given date and active; every old note follows in order, unchanged but inactive |
| NoteStore.AddNewNoteActivatesNew | src/modules/notes/pages/NotesApp.js:235-252 | after adding, the new note is the one active note, ids stay unique and the new id exceeds all others |
| NoteStore.AddNewNoteShowsNew | src/modules/notes/pages/NotesApp.js:235-252 | `find` returns the new note, and the active id changes because the new id is fresh |
| NoteStore.AddNewNoteKeepsInvariant | src/modules/notes/pages/NotesApp.js:235-252 | ids unique and exactly one note active |
| NoteStore.Without | src/modules/notes/pages/NotesApp.js:264 | no remaining note has the id, and the list gets shorter when one had it |
| NoteStore.WithoutOne | src/modules/notes/pages/NotesApp.js:264 | with unique ids, filtering out a listed id removes just that note and keeps the others in order |
| NoteStore.FirstIndexOf | src/modules/notes/pages/NotesApp.js:261 | the first index holding the id |
| NoteStore.DeleteNote | src/modules/notes/pages/NotesApp.js:254-272 | refused exactly when the list holds at most one note; declined exactly when the dialog is answered no; a failure exactly when no note has the id; otherwise the list shrinks and no note with the id remains |
| NoteStore.DeleteKeepsOneActive | src/modules/notes/pages/NotesApp.js:254-272 | a confirmed delete removes exactly that note and keeps the order; the active note stays active, or the first remaining note becomes active when the active one was deleted; ids stay unique |
| NoteStore.DeleteActiveShowsFirst | src/modules/notes/pages/NotesApp.js:254-272 | deleting the active note leaves a non-empty list whose first note `find` returns, so the active id changes |
| NoteStore.DeleteNoteKeepsInvariant | src/modules/notes/pages/NotesApp.js:254-272 | every delete keeps ids unique and at most one note active, and keeps exactly one active when there was one |
| NoteStore.UpdateActiveNoteContent | src/modules/notes/pages/NotesApp.js:274-280 | the list keeps its length |
| NoteStore.UpdateActiveNoteTitle | src/modules/notes/pages/NotesApp.js:282-288 | the list keeps its length |
| NoteStore.UpdatesTouchOnlyActive | src/modules/notes/pages/NotesApp.js:274-288 | only the active note changes, and only its content or its title; an empty title becomes `New Note <id>`; the invariants hold |
| NoteStore.UpdatesKeepInvariant | src/modules/notes/pages/NotesApp.js:274-288 | updates keep ids unique, at most one active note, and the active id |
| NotesEditor.ScheduleDelay | src/modules/notes/pages/NotesApp.js:217 | 50 ms exactly when immediate, 200 ms otherwise |
| NotesEditor.SchedulingInputs | src/modules/notes/pages/NotesApp.js:297-308 | a typed letter or digit, a text insertion with no data and any input type other than the three listed schedule nothing; a typed space or punctuation mark, a paragraph and a line break always schedule |
| NotesEditor.PieceStep | src/modules/notes/pages/NotesApp.js:175-186 | each piece the `forEach` visits extends the tokens of the text so far by exactly that piece's token, or by nothing for an empty piece |
| NotesEditor.AppendPieces | src/modules/notes/pages/NotesApp.js:175-186 | the `forEach` over the pieces of a split builds exactly the children of the tokens of the joined text |
| NotesEditor.RenderPieces | src/modules/notes/pages/NotesApp.js:173-186 | split and append build the children of `Tokenize(text)`, whose `textContent` is the text itself |
| NotesEditor.RenderPass | src/modules/notes/pages/NotesApp.js:168-186 | the pass captures the caret offset of the old children, moves the selection as emptying the editor does, and builds the children of the tokens of the old text, which spell that text out |
| NotesEditor.RerenderKeepsText | src/modules/notes/pages/NotesApp.js:168-191 | a pass keeps the text, so the captured caret offset lies within the new children |
| NotesEditor.Editor.constructor | src/modules/notes/pages/NotesApp.js:6-63 | the mounted page: the sample notes, blurring on, the welcome note as one text node, its counts, one 100 ms pass armed |
| NotesEditor.Editor.UpdateWordCount | src/modules/notes/pages/NotesApp.js:96-104 | counters set from the editor's text; nothing else changes |
| NotesEditor.ShownChildren | src/modules/notes/pages/NotesApp.js:53 | assigning `textContent` leaves children whose text is exactly the content: at most one child, a text node |
| NotesEditor.Editor.ShowActiveNote | src/modules/notes/pages/NotesApp.js:51-63 | with a note active: its content becomes the editor's children (one text node, none for empty content), the selection moves to the editor's start, the counters are those of the content and one more load pass is armed; with none active the children, the selection, the counters and the armed passes are unchanged |
| NotesEditor.Editor.ProcessText | src/modules/notes/pages/NotesApp.js:163-193 | during a pass nothing changes; otherwise the children become those of `Tokenize` of the old text, the text is unchanged, the old caret offset waits for the frame and the pass is in progress |
| NotesEditor.Editor.CommitFrame | src/modules/notes/pages/NotesApp.js:189-192 | the caret is collapsed at a valid point whose offset is the captured one, or the end if the text has since shrunk; the pass is over |
| NotesEditor.Editor.ScheduleProcessing | src/modules/notes/pages/NotesApp.js:212-223 | the one timer is replaced by a timer with the chosen delay; nothing else changes |
| NotesEditor.Editor.FireProcessingTimer | src/modules/notes/pages/NotesApp.js:218-222 | the timer is gone; a fire during a pass leaves the children, the selection and the frame alone; otherwise a pass runs: the children are rebuilt from the unchanged text, the selection moves as emptying the editor moves it and the old caret offset waits for the frame |
| NotesEditor.Editor.FireLoadTimer | src/modules/notes/pages/NotesApp.js:55-57 | one armed load pass is used up and runs `processText` with its guard: during a pass nothing else changes; otherwise the children are rebuilt from the unchanged text, the selection moves as emptying the editor moves it and the old caret offset waits for the frame |
| NotesEditor.Editor.HandleEditorInput | src/modules/notes/pages/NotesApp.js:291-309 | during a pass only the browser's edit remains; otherwise the active note's content and the counters follow the text, and the short timer is armed exactly for the scheduling inputs |
| NotesEditor.Editor.ToggleBlur | src/modules/notes/pages/NotesApp.js:196-209 | the setting flips and every span is restyled to match it; the text is unchanged |
| NotesEditor.Editor.HandleMouseOver | src/modules/notes/pages/NotesApp.js:358-363 | only the children change, as `MouseOver` says |
| NotesEditor.Editor.HandleMouseOut | src/modules/notes/pages/NotesApp.js:365-370 | only the children change, as `MouseOut` says |
| NotesEditor.Editor.HandleEditorClick | src/modules/notes/pages/NotesApp.js:372-374 | one reveal callback is armed exactly when blurring is on |
| NotesEditor.Editor.FireClickTimer | src/modules/notes/pages/NotesApp.js:375-388 | the selection pass runs without re-reading the setting |
| NotesEditor.Editor.HandleEditorKeyUp | src/modules/notes/pages/NotesApp.js:391-406 | the selection pass runs at once under the current setting |
| NotesEditor.Editor.SelectNote | src/modules/notes/pages/NotesApp.js:226-233 | each note becomes active exactly when it has the id, with every other field kept; a listed id becomes the one active note and `find` returns it; when the active id changes to a note, the editor shows its content as `ShowActiveNote` does; when it stays, or no note is active, the children, the selection, the counters and the armed passes are unchanged |
| NotesEditor.Editor.NewNote | src/modules/notes/pages/NotesApp.js:235-252 | the new note is the one active note; the editor is emptied, the selection moves to its start, both counters are 0 and one load pass is armed |
| NotesEditor.Editor.RemoveNote | src/modules/notes/pages/NotesApp.js:254-272 | the outcome is `DeleteNote`'s; a refused delete keeps the notes, the children, the selection, the counters and the armed passes; deleting the active note shows the new first note, which is the active one; deleting another note leaves the editor alone; one active note stays one |
| NotesEditor.Editor.EditTitle | src/modules/notes/pages/NotesApp.js:282-288 | the title update, with the active note kept |
| NotesEditor.SpaceThenPass | src/modules/notes/pages/NotesApp.js:163-309 | typing a space, the timer and the frame re-render the editor from its text and put the caret back on the same plain-text offset |
| Swiper.Sub | src/components/RoutineSwiper.js:21-22 | a number when both operands are numbers, `NaN` otherwise |
| Swiper.Abs | src/components/RoutineSwiper.js:32 | `Math.abs`: non-negative, `NaN` for `NaN` |
| Swiper.ClassifyExactly | src/components/RoutineSwiper.js:29-46 | right when wider than tall and x > 100; left when wider than tall and x < -100; up when not wider than tall and y < -100; down when not wider than tall and y > 100; no swipe otherwise |
| Swiper.ThresholdIsStrict | src/components/RoutineSwiper.js:29-46 | an offset within ±100 on both axes never swipes, borders included; every swipe has a component strictly beyond 100 |
| Swiper.ClassifyMirrors | src/components/RoutineSwiper.js:32-46 | mirroring a drag left-right turns a right swipe into a left one, and up-down turns up into down |
| Swiper.NaNOffsets | src/components/RoutineSwiper.js:32-46 | a `NaN` y, or `NaN` on both axes, never swipes; a `NaN` x alone does not stop a vertical swipe |
| Swiper.NextIndex | src/components/RoutineSwiper.js:56-60 | for a non-empty list the index stays below its length and is (i + 1) mod length |
| Swiper.FullCycle | src/components/RoutineSwiper.js:56-60 | `length` swipes return to the starting card, and no shorter run does |
| Swiper.CategoryColor | src/components/RoutineSwiper.js:63-71 | one of the four category colours or the purple fallback, and the fallback for every other category |
| Swiper.CategoryColorsDistinct | src/components/RoutineSwiper.js:63-71 | the four categories get four distinct colours, none of them the fallback |
| Swiper.CategoryColorTable | src/components/RoutineSwiper.js:63-71 | green, red, blue and orange for building a habit, quitting a habit, a goal and a routine |
| Swiper.TouchPoint | src/components/RoutineSwiper.js:106-107 | the first touch's position, a number on both axes |
| Swiper.TouchDragNeverSwipes | src/components/RoutineSwiper.js:106-107 | with the arguments as written, the stored offset is `NaN` on both axes and no touch drag ever swipes, not even 150 px to the right |
| Swiper.TouchDragSwipes | src/components/RoutineSwiper.js:106-107 | reading the first touch on both axes, a touch drag classifies like the same mouse drag, and 150 px to the right swipes right |
| Swiper.CardSwiper.constructor | src/components/RoutineSwiper.js:5-8 | first card, not dragging, zero start and offset |
| Swiper.CardSwiper.HandleStart | src/components/RoutineSwiper.js:13-16 | a drag begins at the given point |
| Swiper.CardSwiper.HandleMove | src/components/RoutineSwiper.js:18-24 | while dragging the offset is the point minus the start; otherwise nothing changes |
| Swiper.CardSwiper.HandleSwipe | src/components/RoutineSwiper.js:52-61 | the index advances with wrap-around and stays in range |
| Swiper.CardSwiper.HandleEnd | src/components/RoutineSwiper.js:26-50 | outside a drag nothing happens; otherwise the swipe is the classification of the offset, a swipe advances the index, the drag ends and the offset is zero |
| Swiper.CardSwiper.HandleTouchStart | src/components/RoutineSwiper.js:106 | as written: a drag begins with the first touch's x and `NaN` as its y |
| Swiper.CardSwiper.HandleTouchMove | src/components/RoutineSwiper.js:107 | as written: while dragging the offset becomes `NaN` on both axes; otherwise nothing changes |
| Swiper.CardSwiper.HandleTouchStartCorrected | src/components/RoutineSwiper.js:106 | corrected: a drag begins at the first touch |
| Swiper.CardSwiper.HandleTouchMoveCorrected | src/components/RoutineSwiper.js:107 | corrected: while dragging the offset is the first touch minus the start |
| Swiper.DragRight | src/components/RoutineSwiper.js:13-61 | a 150 px mouse drag to the right on card 2 of 3 swipes and shows card 3 |
| Swiper.TouchDragStays | src/components/RoutineSwiper.js:106-107 | as written, a 150 px touch drag to the right on card 2 of 3 ends without a swipe and card 2 stays |
| Swiper.TouchDragRightCorrected | src/components/RoutineSwiper.js:106-107 | with the corrected handlers the same touch drag swipes and shows card 3 |
| CreateRoutine.Merge | src/modules/routines/components/CreateRoutine.js:34 | `{ ...cube, ...updates }`: each of the six fields (id, type, title, position, size, config) is the update's when the update carries it, else the cube's |
| CreateRoutine.MergeLaws | src/modules/routines/components/CreateRoutine.js:34 | an empty update is the identity; merging twice is merging once; absent fields are kept |
| CreateRoutine.AddCube | src/modules/routines/components/CreateRoutine.js:20-30 | exactly one cube appended, the old ones unchanged in front; it has the id, type and position given, the title `New <type> cube`, size 200 by 120 and an empty config |
| CreateRoutine.UpdateCube | src/modules/routines/components/CreateRoutine.js:32-36 | length and order kept; cubes with the id get the update merged, others are untouched |
| CreateRoutine.DeleteCube | src/modules/routines/components/CreateRoutine.js:38-40 | a cube remains exactly when it was there and has another id |
| CreateRoutine.DeleteCubeAppend | src/modules/routines/components/CreateRoutine.js:38-40 | deleting distributes over concatenation, so the remaining cubes keep their order |
| CreateRoutine.AddThenDelete | src/modules/routines/components/CreateRoutine.js:20-40 | adding a cube under a fresh id and deleting that id gives back the list |
| CreateRoutine.UpdateAbsent | src/modules/routines/components/CreateRoutine.js:32-36 | an update for an id no cube has changes nothing |
| CreateRoutine.UpdateThenDelete | src/modules/routines/components/CreateRoutine.js:32-40 | an update that keeps ids, then a delete, is just the delete |
| CreateRoutine.UpdateIdempotent | src/modules/routines/components/CreateRoutine.js:32-36 | applying an id-keeping update twice is applying it once |
| CreateRoutine.HandleSave | src/modules/routines/components/CreateRoutine.js:42-56 | nothing is saved exactly when the title is blank after trimming; otherwise the routine carries title, description, category and cubes unchanged |
| RoutineCube.Clamp | src/modules/routines/components/RoutineCube.js:32-33 | never negative; at most the bound when the bound is non-negative; an in-range value is kept; values below 0 give 0 and above the bound give the bound, or 0 for a negative bound |
| RoutineCube.ClampIdempotent | src/modules/routines/components/RoutineCube.js:32-33 | clamping twice is clamping once |
| RoutineCube.DraggedPosition | src/modules/routines/components/RoutineCube.js:27-34 | the position is non-negative and the cube stays inside the canvas on each axis where it fits |
| RoutineCube.PositionUpdate | src/modules/routines/components/RoutineCube.js:30-35 | the update carries the position and no other field |
| RoutineCube.TitleUpdate | src/modules/routines/components/RoutineCube.js:42-44 | the update carries the title and no other field |
| RoutineCube.DragMovesOnly | src/modules/routines/components/RoutineCube.js:30-35 | merging a drag update changes the cube's position and nothing else |
| RoutineCube.CubeDrag.constructor | src/modules/routines/components/RoutineCube.js:5-7 | not dragging, zero grab offset |
| RoutineCube.CubeDrag.HandleDragStart | src/modules/routines/components/RoutineCube.js:10-19 | a press on the resize handle changes nothing; any other starts a drag and records the pointer's offset within the cube |
| RoutineCube.CubeDrag.HandleDragMove | src/modules/routines/components/RoutineCube.js:21-36 | no update unless dragging; while dragging, a position-only update with the clamped position |
| RoutineCube.CubeDrag.HandleDragEnd | src/modules/routines/components/RoutineCube.js:38-40 | the drag is over |

## Left out

- Lengths: JavaScript measures text in UTF-16 code units, while the model counts Unicode scalar values (Dafny `char`). Offsets and character counts differ for text outside the Basic Multilingual Plane.
- Numbers: `Math.random()` positions and pointer, canvas and rectangle coordinates are integers here, not floating point. Dragged positions and swipe offsets are exact.
- Children: the editor's children are modelled as a flat list of text nodes and single-text spans. A browser edit that nests elements (formatting, lists, pasted markup) is outside the model. The TreeWalker of `setCursorPosition` and `textContent` are read off that flat list. An empty span counts as an empty text node.
- Null refs: the `editorRef.current` and `titleInputRef.current` null checks are left out, because the model's editor always exists.
- Staleness: React state updates and stale closures are left out. `isProcessing`, `notes`, `blurEnabled` and `currentIndex` are single authoritative fields read at the moment a handler or callback runs.
- Other page features: formatting commands, to-do insertion, the key-down shortcuts, dark mode, font settings, `autoResizeTextarea`, the search and view-switching buttons, and all rendering are host effects without state the core reads.
- Dialogs: `alert` and `console.log` are dropped. `window.confirm` is the `confirmed` parameter of `DeleteNote`, and today's `toLocaleDateString` label is the `date` parameter of `AddNewNote`.
- Shared note objects: `deleteNote` sets `active` on a note object that the previous list shares. Notes are values in the model, so that aliasing is not represented; the new list is the same.
- Swiper.CategoryColor: a category named after an `Object.prototype` member (such as `toString`) returns that member in the code, not a colour; the model gives the fallback, because categories come from a fixed form list.
- Card list changes: if the routine list shrinks below `currentIndex`, the swiper shows no card until the next swipe. The list length is a parameter of each call.
- Resizing: `isResizing` in `RoutineCube.js` is never set and is not modelled.
- Other files: `AuthContext.js`, `firebase.js`, `LoginPage.js`, `App.js` and `RoutinesApp.js` are not part of this model. They are an external identity provider, static UI and view switching.

## Findings

| source | as written | input that shows it | evidently intended | confidence | as-written member | corrected member |
|---|---|---|---|---|---|---|
| src/components/RoutineSwiper.js:106-107 | `onTouchStart` passes `e.touches.clientY` and `onTouchMove` passes `e.touches.clientX` and `e.touches.clientY`. A `TouchList` has no such properties, so the drag offset is `NaN - n = NaN` on both axes. | a touch from (100, 10) moved to (250, 10), then lifted: no swipe | read `e.touches[0]` on both axes, so the touch drag swipes right like the same mouse drag | high (not executed) | Swiper.TouchDragNeverSwipes | Swiper.TouchDragSwipes |
| src/components/RoutineSwiper.js:106-107 | the class methods `HandleTouchStart` and `HandleTouchMove` store `NaN` as the start's y and as both offset axes, so `handleEnd` never advances the card | the same touch on card 2 of 3: card 2 stays | `HandleTouchStartCorrected` and `HandleTouchMoveCorrected`, after which the card advances to 3 | high (not executed) | Swiper.TouchDragStays | Swiper.TouchDragRightCorrected |
