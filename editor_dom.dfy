/**
 * The notes editor's content tree, abstracted from the browser's DOM: a
 * flat list of children, each a bare text node (a whitespace run) or a
 * `span` holding one text node (a word run), plus the selection as a pair
 * of boundary points inside that list.
 */
module EditorDom {
  import opened Tokenizer

  /**
   * One child of the editor. A span carries the `blurred` class flag and
   * whether its inline style currently obscures it (`filter: blur(3px)`)
   * rather than leaving it clear (`filter: none` or no filter).
   */
  datatype Node =
    | Text(text: string)
    | Span(text: string, blurred: bool, obscured: bool)

  /** `editor.textContent`: the children's texts joined in order. */
  function TextContent(dom: seq<Node>): string {
    if dom == [] then "" else dom[0].text + TextContent(dom[1..])
  }

  lemma {:induction false} TextContentAppend(a: seq<Node>, b: seq<Node>)
    ensures TextContent(a + b) == TextContent(a) + TextContent(b)
  {
    if a == [] {
      assert a + b == b;
    } else {
      assert (a + b)[0] == a[0];
      assert (a + b)[1..] == a[1..] + b;
      TextContentAppend(a[1..], b);
    }
  }

  /** Number of characters in the first `i` children. */
  function Prefix(dom: seq<Node>, i: nat): nat
    requires i <= |dom|
  {
    |TextContent(dom[..i])|
  }

  function Length(dom: seq<Node>): nat {
    |TextContent(dom)|
  }

  lemma PrefixStep(dom: seq<Node>, i: nat)
    requires i < |dom|
    ensures Prefix(dom, i + 1) == Prefix(dom, i) + |dom[i].text|
  {
    assert dom[..i + 1] == dom[..i] + [dom[i]];
    TextContentAppend(dom[..i], [dom[i]]);
    assert TextContent([dom[i]]) == dom[i].text + TextContent([]);
  }

  lemma PrefixAll(dom: seq<Node>)
    ensures Prefix(dom, |dom|) == Length(dom)
  {
    assert dom[..|dom|] == dom;
  }

  /** Prefix lengths never decrease, and grow strictly across non-empty children. */
  lemma {:induction false} PrefixMonotone(dom: seq<Node>, i: nat, j: nat)
    requires i <= j <= |dom|
    ensures Prefix(dom, i) <= Prefix(dom, j)
    ensures i < j && (forall n :: 0 <= n < |dom| ==> dom[n].text != "") ==> Prefix(dom, i) < Prefix(dom, j)
    decreases j - i
  {
    if i < j {
      PrefixMonotone(dom, i, j - 1);
      PrefixStep(dom, j - 1);
    }
  }

  /**
   * The child the tokenizer's pass creates for one part: a whitespace run
   * becomes a text node, a word run a span that is blurred and obscured
   * exactly when blurring is enabled.
   */
  function NodeFor(t: Token, blurEnabled: bool): Node {
    if t.kind == Whitespace then Text(t.text) else Span(t.text, blurEnabled, blurEnabled)
  }

  /** The children the pass appends for a token list, one per token. */
  function Materialize(ts: seq<Token>, blurEnabled: bool): (dom: seq<Node>)
    ensures |dom| == |ts|
  {
    seq(|ts|, j requires 0 <= j < |ts| => NodeFor(ts[j], blurEnabled))
  }

  /** Rendering keeps every character: the tree's text is the tokens' text. */
  lemma {:induction false} MaterializeText(ts: seq<Token>, blurEnabled: bool)
    ensures TextContent(Materialize(ts, blurEnabled)) == Concat(ts)
  {
    if ts != [] {
      var dom := Materialize(ts, blurEnabled);
      assert dom[0].text == ts[0].text;
      assert dom[1..] == Materialize(ts[1..], blurEnabled);
      MaterializeText(ts[1..], blurEnabled);
    }
  }

  lemma MaterializeAppend(ts: seq<Token>, t: Token, blurEnabled: bool)
    ensures Materialize(ts + [t], blurEnabled) == Materialize(ts, blurEnabled) + [NodeFor(t, blurEnabled)]
  {
  }

  /**
   * A selection boundary point: inside the text node of child `node` at
   * `offset`; between the editor's children, before child `index`; or at
   * the start of the document, where a fresh range lies.
   */
  datatype Point =
    | InText(node: nat, offset: nat)
    | Between(index: nat)
    | DocumentStart

  /** The window's selection: no range at all, or one range from `start` to `end`. */
  datatype Selection = NoRange | Range(start: Point, end: Point)

  /** The point lies within the editor's current children. */
  ghost predicate ValidPoint(dom: seq<Node>, p: Point) {
    match p
    case InText(i, o) => i < |dom| && o <= |dom[i].text|
    case Between(k) => k <= |dom|
    case DocumentStart => true
  }

  /**
   * The number of editor characters before the point: the length of the
   * text of a range from the editor's start to `p` (empty when `p` lies
   * before the editor).
   */
  function OffsetOf(dom: seq<Node>, p: Point): nat {
    match p
    case InText(i, o) => if i < |dom| then Prefix(dom, i) + o else Length(dom)
    case Between(k) => if k <= |dom| then Prefix(dom, k) else Length(dom)
    case DocumentStart => 0
  }

  lemma OffsetBounded(dom: seq<Node>, p: Point)
    requires ValidPoint(dom, p)
    ensures OffsetOf(dom, p) <= Length(dom)
  {
    match p
    case InText(i, o) =>
      PrefixStep(dom, i);
      PrefixMonotone(dom, i + 1, |dom|);
      PrefixAll(dom);
    case Between(k) =>
      PrefixMonotone(dom, k, |dom|);
      PrefixAll(dom);
    case DocumentStart =>
  }

  /**
   * `getCursorPosition`: the plain-text offset of the end of the current
   * selection, and 0 when there is no range.
   */
  function CursorPosition(dom: seq<Node>, sel: Selection): (pos: nat)
    ensures sel.NoRange? ==> pos == 0
    ensures sel.Range? ==> pos == OffsetOf(dom, sel.end)
  {
    match sel
    case NoRange => 0
    case Range(_, e) => OffsetOf(dom, e)
  }

  /** The boundary point `(editor, j)` comes strictly before `p`. */
  predicate BoundaryBefore(j: nat, p: Point) {
    match p
    case InText(i, _) => j <= i
    case Between(k) => j < k
    case DocumentStart => false
  }

  /** The boundary point `(editor, j)` comes strictly after `p`. */
  predicate BoundaryAfter(j: nat, p: Point) {
    match p
    case InText(i, _) => i < j
    case Between(k) => k < j
    case DocumentStart => true
  }

  /**
   * `range.intersectsNode(child j)` as the DOM Standard defines it: the
   * point before the child lies before the range's end and the point after
   * the child lies after the range's start.
   */
  predicate Intersects(sel: Selection, j: nat) {
    sel.Range? && BoundaryBefore(j, sel.end) && BoundaryAfter(j + 1, sel.start)
  }

  /** A range whose two ends lie in text nodes meets exactly the children from the start's to the end's. */
  lemma IntersectsTextRange(i: nat, o: nat, i': nat, o': nat, j: nat)
    ensures Intersects(Range(InText(i, o), InText(i', o')), j) <==> i <= j <= i'
  {
  }

  /** Where a boundary point ends up once every child of the editor is removed. */
  function AfterClear(p: Point): (q: Point)
    ensures p.DocumentStart? ==> q == p
    ensures !p.DocumentStart? ==> q == Between(0)
  {
    if p.DocumentStart? then p else Between(0)
  }

  /** Removing every child moves the range's boundary points inside the editor to its start. */
  function ClearChildren(sel: Selection): (r: Selection)
    ensures sel.NoRange? <==> r.NoRange?
    ensures r.Range? ==> r.start == AfterClear(sel.start) && r.end == AfterClear(sel.end)
  {
    match sel
    case NoRange => NoRange
    case Range(s, e) => Range(AfterClear(s), AfterClear(e))
  }
}
