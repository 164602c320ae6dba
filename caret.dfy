/**
 * Restoring the caret after the editor's children have been rebuilt
 * (`setCursorPosition`): walk the text nodes in order, keeping a running
 * character count, and place the caret in the first node that reaches the
 * requested offset.
 */
module Caret {
  import opened EditorDom

  /**
   * Child `k` is the first whose end reaches `position`: the prefix through
   * `k` is at least `position` and every earlier prefix falls short.
   */
  ghost predicate FirstReaching(dom: seq<Node>, k: nat, position: nat) {
    && k < |dom|
    && NodeEnd(dom, k) >= position
    && forall j :: 0 <= j < k ==> NodeEnd(dom, j) < position
  }

  /** The plain-text offset where child `j` ends. */
  function NodeEnd(dom: seq<Node>, j: nat): nat
    requires j < |dom|
  {
    Prefix(dom, j + 1)
  }

  /** Children end in order, strictly so when all of them are non-empty. */
  lemma NodeEndOrder(dom: seq<Node>, a: nat, b: nat)
    requires a < |dom| && b < |dom|
    ensures a <= b ==> NodeEnd(dom, a) <= NodeEnd(dom, b)
    ensures a < b && (forall m :: 0 <= m < |dom| ==> dom[m].text != "") ==> NodeEnd(dom, a) < NodeEnd(dom, b)
  {
    if a <= b {
      PrefixMonotone(dom, a + 1, b + 1);
    }
  }

  /**
   * The fallback when no node reaches the offset: the end of the last
   * child, which is the end of its text for a text node and the point after
   * it for a span.
   */
  function EndPoint(dom: seq<Node>): (p: Point)
    requires dom != []
  {
    var last := |dom| - 1;
    if dom[last].Text? then InText(last, |dom[last].text|) else Between(|dom|)
  }

  lemma EndPointOffset(dom: seq<Node>)
    requires dom != []
    ensures ValidPoint(dom, EndPoint(dom)) && OffsetOf(dom, EndPoint(dom)) == Length(dom)
  {
    PrefixStep(dom, |dom| - 1);
    PrefixAll(dom);
  }

  function Min(a: int, b: int): int {
    if a <= b then a else b
  }

  /**
   * `setCursorPosition(position)`. The caret lands in the first child that
   * reaches `position`, at `position` minus the characters before it. When
   * no child reaches it, it lands at the end of the last child, and an
   * editor with no children leaves the fresh range at the document start.
   * In every case the caret's plain-text offset is `position`, clamped to
   * the length of the text.
   */
  method RestoreCaret(dom: seq<Node>, position: nat) returns (p: Point)
    ensures ValidPoint(dom, p)
    ensures dom != [] && position <= Length(dom) ==>
              p.InText? && FirstReaching(dom, p.node, position) && p.offset == position - Prefix(dom, p.node)
    ensures dom != [] && position > Length(dom) ==> p == EndPoint(dom)
    ensures dom == [] ==> p == DocumentStart
    ensures OffsetOf(dom, p) == Min(position, Length(dom))
  {
    p := DocumentStart;
    var charCount := 0;
    var i := 0;
    var found := false;
    while i < |dom|
      invariant 0 <= i <= |dom|
      invariant charCount == Prefix(dom, i)
      invariant forall j :: 0 <= j < i ==> NodeEnd(dom, j) < position
      invariant i > 0 ==> charCount == NodeEnd(dom, i - 1) && charCount < position
      invariant !found && p == DocumentStart
    {
      var nodeLength := |dom[i].text|;
      PrefixStep(dom, i);
      if charCount + nodeLength >= position {
        var offset := position - charCount;
        p := InText(i, Min(offset, nodeLength));
        found := true;
        PrefixMonotone(dom, i + 1, |dom|);
        break;
      }
      charCount := charCount + nodeLength;
      i := i + 1;
    }
    PrefixAll(dom);
    if !found && |dom| > 0 {
      assert NodeEnd(dom, |dom| - 1) == Length(dom) < position;
      p := EndPoint(dom);
      EndPointOffset(dom);
    }
  }

  /**
   * A caret offset lying exactly on the boundary after child `k` is placed
   * at the end of child `k`, not at the start of the next child, when every
   * child is non-empty.
   */
  lemma BoundaryGoesToPrecedingEnd(dom: seq<Node>, k: nat, n: nat, position: nat)
    requires forall m :: 0 <= m < |dom| ==> dom[m].text != ""
    requires k < |dom| && 0 < position == NodeEnd(dom, k)
    requires FirstReaching(dom, n, position)
    ensures n == k && position - Prefix(dom, n) == |dom[k].text|
  {
    NodeEndOrder(dom, n, k);
    NodeEndOrder(dom, k, n);
    PrefixStep(dom, k);
  }
}
