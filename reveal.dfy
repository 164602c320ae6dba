/**
 * The privacy blur's reveal rules: how the global toggle, the pointer and
 * the selection decide, span by span, whether a word is shown clear or
 * obscured. Each handler is a function from the editor's children to its
 * new children.
 */
module Reveal {
  import opened Wrappers
  import opened Tokenizer
  import opened EditorDom

  datatype View = Clear | Obscured

  function ViewOf(n: Node): View {
    if n.Span? && n.obscured then Obscured else Clear
  }

  function KindOfNode(n: Node): Kind {
    if n.Text? then Whitespace else Word
  }

  /**
   * The reveal rule as a single definition: a token is clear when blurring
   * is off, when it is whitespace, when the selection meets it or when the
   * pointer is over it, and obscured otherwise.
   */
  function ComputeReveal(kind: Kind, selected: bool, hovered: bool, blurEnabled: bool): View {
    if !blurEnabled || kind == Whitespace || selected || hovered then Clear else Obscured
  }

  /** Two child lists with the same texts and the same node kinds, whatever their styling. */
  ghost predicate SameShape(a: seq<Node>, b: seq<Node>) {
    |a| == |b| && forall j :: 0 <= j < |a| ==> a[j].text == b[j].text && a[j].Text? == b[j].Text?
  }

  /** Restyling never touches the text, so the caret arithmetic is unaffected. */
  lemma {:induction false} SameShapeText(a: seq<Node>, b: seq<Node>)
    requires SameShape(a, b)
    ensures TextContent(a) == TextContent(b)
  {
    if a != [] {
      assert SameShape(a[1..], b[1..]) by {
        forall j | 0 <= j < |a[1..]| ensures a[1..][j].text == b[1..][j].text && a[1..][j].Text? == b[1..][j].Text? {
          assert a[1..][j] == a[j + 1] && b[1..][j] == b[j + 1];
        }
      }
      SameShapeText(a[1..], b[1..]);
    }
  }

  /**
   * The styling the latest render or toggle leaves: every span carries the
   * `blurred` class exactly when blurring is on, and with blurring off no
   * span is obscured.
   */
  ghost predicate Styled(dom: seq<Node>, blurEnabled: bool) {
    forall j :: 0 <= j < |dom| && dom[j].Span? ==> dom[j].blurred == blurEnabled && (!blurEnabled ==> !dom[j].obscured)
  }

  /** `updateBlurState`: every span gets the class and the filter that match the setting. */
  function UpdateBlurState(dom: seq<Node>, blurEnabled: bool): (r: seq<Node>)
    ensures SameShape(r, dom)
  {
    seq(|dom|, j requires 0 <= j < |dom| =>
      match dom[j]
      case Text(_) => dom[j]
      case Span(t, _, _) => Span(t, blurEnabled, blurEnabled))
  }

  predicate BlurredSpanAt(dom: seq<Node>, j: nat) {
    j < |dom| && dom[j].Span? && dom[j].blurred
  }

  /**
   * `handleMouseOver`: with blurring on, pointing at a span that has the
   * `blurred` class clears it; anything else changes nothing.
   */
  function MouseOver(dom: seq<Node>, target: Option<nat>, blurEnabled: bool): (r: seq<Node>)
    ensures SameShape(r, dom)
  {
    if blurEnabled && target.Some? && BlurredSpanAt(dom, target.value)
    then dom[target.value := dom[target.value].(obscured := false)]
    else dom
  }

  /**
   * `handleMouseOut`: with blurring on, leaving a span that has the
   * `blurred` class obscures it again; anything else changes nothing.
   */
  function MouseOut(dom: seq<Node>, target: Option<nat>, blurEnabled: bool): (r: seq<Node>)
    ensures SameShape(r, dom)
  {
    if blurEnabled && target.Some? && BlurredSpanAt(dom, target.value)
    then dom[target.value := dom[target.value].(obscured := true)]
    else dom
  }

  /**
   * The body of `handleEditorClick` and `handleEditorKeyUp`: with blurring
   * on and a range selected, every span with the `blurred` class is cleared
   * when the range meets it and obscured otherwise.
   */
  function SelectionReveal(dom: seq<Node>, sel: Selection, blurEnabled: bool): (r: seq<Node>)
    ensures SameShape(r, dom)
  {
    if !blurEnabled || sel.NoRange? then dom
    else
      seq(|dom|, j requires 0 <= j < |dom| =>
        if BlurredSpanAt(dom, j) then dom[j].(obscured := !Intersects(sel, j)) else dom[j])
  }

  /** The tokenizer's pass styles its spans the way the setting says. */
  lemma MaterializeStyled(ts: seq<Token>, blurEnabled: bool)
    ensures Styled(Materialize(ts, blurEnabled), blurEnabled)
    ensures forall j :: 0 <= j < |ts| ==>
              ViewOf(Materialize(ts, blurEnabled)[j]) == ComputeReveal(ts[j].kind, false, false, blurEnabled)
  {
  }

  /**
   * Toggling the setting restyles every span to match it: restyling a
   * rendered token list is the same as rendering it with the new setting.
   */
  lemma {:induction false} ToggleIsRerender(ts: seq<Token>, was: bool, now: bool)
    ensures UpdateBlurState(Materialize(ts, was), now) == Materialize(ts, now)
  {
    var a, b := UpdateBlurState(Materialize(ts, was), now), Materialize(ts, now);
    forall j | 0 <= j < |ts| ensures a[j] == b[j] {
    }
  }

  /** After the toggle, the styling matches the setting and every view is what the rule says with nothing selected or hovered. */
  lemma UpdateBlurStateStyled(dom: seq<Node>, blurEnabled: bool)
    ensures Styled(UpdateBlurState(dom, blurEnabled), blurEnabled)
    ensures forall j :: 0 <= j < |dom| ==>
              ViewOf(UpdateBlurState(dom, blurEnabled)[j]) == ComputeReveal(KindOfNode(dom[j]), false, false, blurEnabled)
  {
  }

  /**
   * With a range selected, the selection handlers leave every child shown
   * exactly as the reveal rule says: clear when blurring is off, for
   * whitespace, or when the range meets it; obscured otherwise.
   */
  lemma SelectionRevealFollowsRule(dom: seq<Node>, sel: Selection, blurEnabled: bool)
    requires Styled(dom, blurEnabled) && sel.Range?
    ensures forall j :: 0 <= j < |dom| ==>
              ViewOf(SelectionReveal(dom, sel, blurEnabled)[j]) == ComputeReveal(KindOfNode(dom[j]), Intersects(sel, j), false, blurEnabled)
  {
    var r := SelectionReveal(dom, sel, blurEnabled);
    forall j | 0 <= j < |dom|
      ensures ViewOf(r[j]) == ComputeReveal(KindOfNode(dom[j]), Intersects(sel, j), false, blurEnabled)
    {
      if dom[j].Span? && !blurEnabled {
        assert !dom[j].obscured;
      }
    }
  }

  /** Pointing at a word shows it clear, as the reveal rule says of a hovered token. */
  lemma MouseOverFollowsRule(dom: seq<Node>, j: nat, blurEnabled: bool)
    requires Styled(dom, blurEnabled) && j < |dom|
    ensures ViewOf(MouseOver(dom, Some(j), blurEnabled)[j]) == ComputeReveal(KindOfNode(dom[j]), false, true, blurEnabled)
    ensures forall m :: 0 <= m < |dom| && m != j ==> MouseOver(dom, Some(j), blurEnabled)[m] == dom[m]
  {
    if dom[j].Span? && !blurEnabled {
      assert !dom[j].obscured;
    }
  }

  /**
   * Leaving a word obscures it again whenever blurring is on, whether or
   * not the selection meets it.
   */
  lemma MouseOutReblurs(dom: seq<Node>, j: nat, blurEnabled: bool)
    requires Styled(dom, blurEnabled) && j < |dom|
    ensures ViewOf(MouseOut(dom, Some(j), blurEnabled)[j]) == ComputeReveal(KindOfNode(dom[j]), false, false, blurEnabled)
    ensures forall m :: 0 <= m < |dom| && m != j ==> MouseOut(dom, Some(j), blurEnabled)[m] == dom[m]
  {
    if dom[j].Span? && !blurEnabled {
      assert !dom[j].obscured;
    }
  }

  /** Entering and then leaving an obscured word restores the children exactly. */
  lemma HoverRoundTrip(dom: seq<Node>, target: Option<nat>, blurEnabled: bool)
    requires target.Some? && BlurredSpanAt(dom, target.value) ==> dom[target.value].obscured
    ensures MouseOut(MouseOver(dom, target, blurEnabled), target, blurEnabled) == dom
  {
    if blurEnabled && target.Some? && BlurredSpanAt(dom, target.value) {
      var j := target.value;
      assert MouseOver(dom, target, blurEnabled)[j := dom[j]] == dom;
    }
  }

  /** With blurring off none of the pointer or selection handlers changes anything. */
  lemma BlurOffHandlersInert(dom: seq<Node>, target: Option<nat>, sel: Selection)
    ensures MouseOver(dom, target, false) == dom
    ensures MouseOut(dom, target, false) == dom
    ensures SelectionReveal(dom, sel, false) == dom
  {
  }

  /** The handlers keep the styling invariant, so with blurring off nothing is ever obscured. */
  lemma HandlersKeepStyled(dom: seq<Node>, target: Option<nat>, sel: Selection, blurEnabled: bool)
    requires Styled(dom, blurEnabled)
    ensures Styled(MouseOver(dom, target, blurEnabled), blurEnabled)
    ensures Styled(MouseOut(dom, target, blurEnabled), blurEnabled)
    ensures Styled(SelectionReveal(dom, sel, blurEnabled), blurEnabled)
  {
  }

  /** Applying the selection rule a second time changes nothing. */
  lemma SelectionRevealIdempotent(dom: seq<Node>, sel: Selection, blurEnabled: bool)
    ensures SelectionReveal(SelectionReveal(dom, sel, blurEnabled), sel, blurEnabled) == SelectionReveal(dom, sel, blurEnabled)
  {
  }
}
