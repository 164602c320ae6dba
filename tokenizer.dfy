/**
 * The editor's segmentation of plain text into whitespace runs and word
 * runs, and the JavaScript `split` calls the editor uses to compute it.
 */
module Tokenizer {
  import opened JsText

  datatype Kind = Whitespace | Word

  /** One maximal run of the text: its characters and whether they are whitespace. */
  datatype Token = Token(text: string, kind: Kind)

  function KindOf(c: char): Kind {
    if IsSpace(c) then Whitespace else Word
  }

  /** The texts of the tokens, joined in order. */
  function Concat(ts: seq<Token>): string {
    if ts == [] then "" else ts[0].text + Concat(ts[1..])
  }

  /** The strings of a list, joined in order (`parts.join('')`). */
  function Join(parts: seq<string>): string {
    if parts == [] then "" else parts[0] + Join(parts[1..])
  }

  /** A token is non-empty and every one of its characters is of its kind. */
  ghost predicate Uniform(t: Token) {
    t.text != [] && forall i :: 0 <= i < |t.text| ==> KindOf(t.text[i]) == t.kind
  }

  /** Neighbouring tokens are of different kinds, so each run is maximal. */
  ghost predicate Alternating(ts: seq<Token>) {
    forall j :: 0 <= j < |ts| - 1 ==> ts[j].kind != ts[j + 1].kind
  }

  /** `ts` cuts `s` into maximal whitespace and non-whitespace runs. */
  ghost predicate Segmentation(ts: seq<Token>, s: string) {
    && Concat(ts) == s
    && (forall j :: 0 <= j < |ts| ==> Uniform(ts[j]))
    && Alternating(ts)
  }

  /**
   * The token list of `s`: its maximal whitespace runs and maximal
   * non-whitespace runs, in order, with every character kept
   * (`TokenizeSegmentation`).
   */
  function Tokenize(s: string): (ts: seq<Token>)
    decreases |s|
    ensures ts == [] <==> s == []
    ensures ts != [] ==> ts[0].kind == KindOf(s[0])
  {
    if s == [] then []
    else
      var k := RunLength(s, IsSpace(s[0]));
      [Token(s[..k], KindOf(s[0]))] + Tokenize(s[k..])
  }

  /** `Tokenize` cuts the text into non-empty, uniform runs of alternating kinds that join back to it. */
  lemma {:induction false} TokenizeSegmentation(s: string)
    decreases |s|
    ensures Segmentation(Tokenize(s), s)
  {
    if s != [] {
      var k := RunLength(s, IsSpace(s[0]));
      var t, rest := Token(s[..k], KindOf(s[0])), Tokenize(s[k..]);
      TokenizeSegmentation(s[k..]);
      assert Uniform(t);
      assert rest != [] ==> rest[0].kind == KindOf(s[k]) != t.kind;
      assert s == s[..k] + s[k..];
      SegmentationCons(t, rest, s[k..]);
    }
  }

  /** A uniform token in front of a segmentation that starts with the other kind. */
  lemma SegmentationCons(t: Token, rest: seq<Token>, r: string)
    requires Uniform(t) && Segmentation(rest, r)
    requires rest != [] ==> rest[0].kind != t.kind
    ensures Segmentation([t] + rest, t.text + r)
  {
    var ts := [t] + rest;
    assert ts[1..] == rest;
    forall j | 0 <= j < |ts| - 1 ensures ts[j].kind != ts[j + 1].kind {
      if j > 0 {
        assert ts[j] == rest[j - 1] && ts[j + 1] == rest[j];
      }
    }
    forall j | 0 <= j < |ts| ensures Uniform(ts[j]) {
      if j > 0 {
        assert ts[j] == rest[j - 1];
      }
    }
  }

  lemma {:induction false} ConcatAppend(a: seq<Token>, b: seq<Token>)
    ensures Concat(a + b) == Concat(a) + Concat(b)
  {
    if a == [] {
      assert a + b == b;
    } else {
      assert (a + b)[0] == a[0];
      assert (a + b)[1..] == a[1..] + b;
      ConcatAppend(a[1..], b);
    }
  }

  lemma {:induction false} JoinAppend(a: seq<string>, b: seq<string>)
    ensures Join(a + b) == Join(a) + Join(b)
  {
    if a == [] {
      assert a + b == b;
    } else {
      assert (a + b)[0] == a[0];
      assert (a + b)[1..] == a[1..] + b;
      JoinAppend(a[1..], b);
    }
  }

  /** The last token of a segmentation has the kind of the text's last character. */
  lemma LastTokenKind(ts: seq<Token>, s: string)
    requires Segmentation(ts, s) && ts != []
    ensures s != [] && ts[|ts| - 1].kind == KindOf(s[|s| - 1])
  {
    var n := |ts|;
    assert ts == ts[..n - 1] + [ts[n - 1]];
    ConcatAppend(ts[..n - 1], [ts[n - 1]]);
    assert Concat([ts[n - 1]]) == ts[n - 1].text;
    assert Uniform(ts[n - 1]);
  }

  /**
   * The segmentation into maximal runs is unique: every token list that
   * cuts `s` into non-empty uniform runs of alternating kinds is `Tokenize(s)`.
   */
  lemma {:induction false} SegmentationUnique(ts: seq<Token>, s: string)
    requires Segmentation(ts, s)
    ensures ts == Tokenize(s)
  {
    if ts != [] {
      var k := |ts[0].text|;
      SegmentationHead(ts, s);
      SegmentationUnique(ts[1..], s[k..]);
      TokenizeLeadingRun(s, k);
      assert ts == [ts[0]] + ts[1..];
    }
  }

  /** The first token of a segmentation is the text's leading run, and the other tokens segment the rest. */
  lemma SegmentationHead(ts: seq<Token>, s: string)
    requires Segmentation(ts, s) && ts != []
    ensures s != [] && ts[0] == Token(s[..|ts[0].text|], KindOf(s[0]))
    ensures |ts[0].text| == RunLength(s, IsSpace(s[0]))
    ensures Segmentation(ts[1..], s[|ts[0].text|..])
  {
    var t := ts[0];
    var rest := Concat(ts[1..]);
    assert Uniform(t);
    assert s == t.text + rest;
    assert s[..|t.text|] == t.text && s[|t.text|..] == rest;
    SegmentationTail(ts, s);
    var space := IsSpace(s[0]);
    assert s[0] == t.text[0];
    assert rest != [] ==> IsSpace(rest[0]) != space by {
      if rest != [] {
        assert Uniform(ts[1]);
        assert rest == ts[1].text + Concat(ts[2..]);
        assert ts[0].kind != ts[1].kind;
      }
    }
    RunLengthOfPrefix(s, |t.text|, space);
  }

  /** Dropping the first token of a segmentation leaves a segmentation of the rest of the text. */
  lemma SegmentationTail(ts: seq<Token>, s: string)
    requires Segmentation(ts, s) && ts != []
    ensures Segmentation(ts[1..], Concat(ts[1..]))
  {
    forall j | 0 <= j < |ts[1..]| - 1 ensures ts[1..][j].kind != ts[1..][j + 1].kind {
      assert ts[1..][j] == ts[j + 1] && ts[1..][j + 1] == ts[j + 2];
    }
    forall j | 0 <= j < |ts[1..]| ensures Uniform(ts[1..][j]) {
      assert ts[1..][j] == ts[j + 1];
    }
  }

  /** A prefix of one kind followed by the other kind or by the end is exactly the leading run. */
  lemma RunLengthOfPrefix(s: string, n: nat, space: bool)
    requires n <= |s|
    requires forall i :: 0 <= i < n ==> IsSpace(s[i]) == space
    requires n < |s| ==> IsSpace(s[n]) != space
    ensures RunLength(s, space) == n
  {
  }

  /** Two segmentations whose seam joins different kinds form a segmentation of the joined text. */
  lemma SegmentationAppend(a: seq<Token>, p: string, b: seq<Token>, q: string)
    requires Segmentation(a, p) && Segmentation(b, q)
    requires a == [] || b == [] || a[|a| - 1].kind != b[0].kind
    ensures Segmentation(a + b, p + q)
  {
    ConcatAppend(a, b);
    forall j | 0 <= j < |a + b| - 1 ensures (a + b)[j].kind != (a + b)[j + 1].kind {
      if j < |a| - 1 {
        assert (a + b)[j] == a[j] && (a + b)[j + 1] == a[j + 1];
      } else if j == |a| - 1 {
        assert (a + b)[j] == a[j] && (a + b)[j + 1] == b[0];
      } else {
        assert (a + b)[j] == b[j - |a|] && (a + b)[j + 1] == b[j - |a| + 1];
      }
    }
    forall j | 0 <= j < |a + b| ensures Uniform((a + b)[j]) {
      if j < |a| { assert (a + b)[j] == a[j]; } else { assert (a + b)[j] == b[j - |a|]; }
    }
  }

  /**
   * Tokenizing a concatenation whose seam separates different kinds of
   * character gives the two token lists one after the other.
   */
  lemma TokenizeAppend(p: string, q: string)
    requires p == [] || q == [] || KindOf(p[|p| - 1]) != KindOf(q[0])
    ensures Tokenize(p + q) == Tokenize(p) + Tokenize(q)
  {
    var a, b := Tokenize(p), Tokenize(q);
    TokenizeSegmentation(p);
    TokenizeSegmentation(q);
    if a != [] && b != [] {
      LastTokenKind(a, p);
    }
    SegmentationAppend(a, p, b, q);
    SegmentationUnique(a + b, p + q);
  }

  /** A non-empty run of one kind is a single token. */
  lemma TokenizeRun(q: string, kind: Kind)
    requires q != [] && forall i :: 0 <= i < |q| ==> KindOf(q[i]) == kind
    ensures Tokenize(q) == [Token(q, kind)]
  {
    var ts := [Token(q, kind)];
    assert Concat(ts) == q + Concat([]);
    SegmentationUnique(ts, q);
  }

  /** Re-tokenizing the joined text of a token list gives the same list back. */
  lemma TokenizeIdempotent(s: string)
    ensures Tokenize(Concat(Tokenize(s))) == Tokenize(s)
  {
    TokenizeSegmentation(s);
  }

  ghost predicate NoSpace(s: string) {
    forall i :: 0 <= i < |s| ==> !IsSpace(s[i])
  }

  /**
   * The shape of a `split(/(\s+)/)` result: an odd number of pieces, the
   * whitespace runs at odd positions, the text between them at even
   * positions, and only the first and the last piece possibly empty.
   */
  ghost predicate SplitShape(parts: seq<string>) {
    && |parts| % 2 == 1
    && (forall i :: 0 <= i < |parts| && i % 2 == 1 ==> parts[i] != "" && AllSpace(parts[i]))
    && (forall i :: 0 <= i < |parts| && i % 2 == 0 ==> NoSpace(parts[i]))
    && (forall i :: 0 < i < |parts| - 1 ==> parts[i] != "")
  }

  lemma SplitShapeCons(w: string, sep: string, rest: seq<string>)
    requires NoSpace(w) && sep != "" && AllSpace(sep)
    requires SplitShape(rest) && (|rest| > 1 ==> rest[0] != "")
    ensures SplitShape([w, sep] + rest)
  {
    var parts := [w, sep] + rest;
    forall i | 2 <= i < |parts| ensures parts[i] == rest[i - 2] && (i % 2 == (i - 2) % 2) {
    }
  }

  /**
   * `s.split(/(\s+)/)`: the non-whitespace pieces between whitespace runs,
   * with the whitespace runs themselves kept at the odd positions.
   */
  function SplitKeepingSeparators(s: string): (parts: seq<string>)
    decreases |s|
    ensures SplitShape(parts)
    ensures Join(parts) == s
    ensures parts[0] == "" <==> s == [] || IsSpace(s[0])
  {
    var w := RunLength(s, false);
    if w == |s| then
      assert NoSpace(s);
      [s]
    else
      var k := RunLength(s[w..], true);
      var rest := SplitKeepingSeparators(s[w + k..]);
      SplitKeepingStep(s, w, k, rest);
      [s[..w], s[w..w + k]] + rest
  }

  /** One step of `SplitKeepingSeparators`: the leading word run and the whitespace run after it, then the rest. */
  lemma SplitKeepingStep(s: string, w: nat, k: nat, rest: seq<string>)
    requires w == RunLength(s, false) < |s| && k == RunLength(s[w..], true)
    requires SplitShape(rest) && Join(rest) == s[w + k..]
    requires rest[0] == "" <==> s[w + k..] == [] || IsSpace(s[w + k..][0])
    ensures w + k <= |s|
    ensures SplitShape([s[..w], s[w..w + k]] + rest)
    ensures Join([s[..w], s[w..w + k]] + rest) == s
    ensures s[..w] == "" <==> IsSpace(s[0])
  {
    SplitKeepingJoin(s, w, k, rest);
    SplitKeepingShape(s, w, k, rest);
  }

  lemma SplitKeepingJoin(s: string, w: nat, k: nat, rest: seq<string>)
    requires w <= w + k <= |s| && Join(rest) == s[w + k..]
    ensures Join([s[..w], s[w..w + k]] + rest) == s
  {
    JoinPair(s[..w], s[w..w + k], rest);
    assert s == s[..w] + s[w..w + k] + s[w + k..];
  }

  lemma SplitKeepingShape(s: string, w: nat, k: nat, rest: seq<string>)
    requires w == RunLength(s, false) < |s| && k == RunLength(s[w..], true)
    requires SplitShape(rest) && Join(rest) == s[w + k..]
    requires rest[0] == "" <==> s[w + k..] == [] || IsSpace(s[w + k..][0])
    ensures w + k <= |s|
    ensures SplitShape([s[..w], s[w..w + k]] + rest)
  {
    var word, sep := s[..w], s[w..][..k];
    assert sep == s[w..w + k];
    assert NoSpace(word);
    assert AllSpace(sep);
    assert |rest| > 1 ==> rest[0] != "" by {
      if |rest| > 1 {
        assert rest == [rest[0], rest[1]] + rest[2..];
        JoinPair(rest[0], rest[1], rest[2..]);
        assert rest[1] != "";
        assert w + k < |s|;
        assert s[w..][k] == s[w + k];
      }
    }
    SplitShapeCons(word, sep, rest);
  }

  lemma JoinPair(a: string, b: string, rest: seq<string>)
    ensures Join([a, b] + rest) == a + b + Join(rest)
  {
    assert ([a, b] + rest)[1..] == [b] + rest;
    assert ([b] + rest)[1..] == rest;
  }

  /** Number of tokens of the given kind. */
  function CountKind(ts: seq<Token>, kind: Kind): nat {
    if ts == [] then 0 else (if ts[0].kind == kind then 1 else 0) + CountKind(ts[1..], kind)
  }

  lemma {:induction false} CountKindAppend(a: seq<Token>, b: seq<Token>, kind: Kind)
    ensures CountKind(a + b, kind) == CountKind(a, kind) + CountKind(b, kind)
  {
    if a == [] {
      assert a + b == b;
    } else {
      assert (a + b)[0] == a[0];
      assert (a + b)[1..] == a[1..] + b;
      CountKindAppend(a[1..], b, kind);
    }
  }

  /**
   * `s.split(/\s+/)`: the pieces between whitespace runs, which are empty
   * at either end where `s` starts or ends with whitespace.
   */
  function SplitOnSpace(s: string): (parts: seq<string>)
    decreases |s|
  {
    var w := RunLength(s, false);
    if w == |s| then [s]
    else
      var k := RunLength(s[w..], true);
      [s[..w]] + SplitOnSpace(s[w + k..])
  }

  /** A non-empty text starts with the token of its leading run. */
  lemma TokenizeLeadingRun(t: string, k: nat)
    requires t != [] && k == RunLength(t, IsSpace(t[0]))
    ensures 0 < k <= |t|
    ensures Tokenize(t) == [Token(t[..k], KindOf(t[0]))] + Tokenize(t[k..])
  {
  }

  /** The words of a non-empty text: its leading run, if that is a word, and the words after it. */
  lemma CountLeadingRun(t: string, k: nat)
    requires t != [] && k == RunLength(t, IsSpace(t[0]))
    ensures 0 < k <= |t|
    ensures CountKind(Tokenize(t), Word) == (if IsSpace(t[0]) then 0 else 1) + CountKind(Tokenize(t[k..]), Word)
  {
    TokenizeLeadingRun(t, k);
    CountKindCons(Token(t[..k], KindOf(t[0])), Tokenize(t[k..]), Word);
  }

  lemma CountKindCons(t: Token, ts: seq<Token>, kind: Kind)
    ensures CountKind([t] + ts, kind) == (if t.kind == kind then 1 else 0) + CountKind(ts, kind)
  {
    assert ([t] + ts)[0] == t && ([t] + ts)[1..] == ts;
  }

  /**
   * `split(/\s+/)` yields one piece per maximal non-whitespace run, plus an
   * empty piece for a leading and for a trailing whitespace run.
   */
  lemma {:induction false} SplitOnSpaceCount(s: string)
    decreases |s|
    ensures |SplitOnSpace(s)| == SpaceSplitCount(s)
  {
    var w := RunLength(s, false);
    if w == |s| {
      if s != [] {
        TokenizeRun(s, Word);
        assert CountKind([Token(s, Word)], Word) == 1 + CountKind([], Word);
        assert !IsSpace(s[0]) && !IsSpace(s[|s| - 1]);
      }
    } else {
      var k := RunLength(s[w..], true);
      SplitOnSpaceCount(s[w + k..]);
      SplitOnSpaceStep(s, w, k);
    }
  }

  /** The number of pieces `split(/\s+/)` yields, in terms of the text's tokens. */
  ghost function SpaceSplitCount(s: string): nat {
    CountKind(Tokenize(s), Word)
      + (if s == [] || IsSpace(s[0]) then 1 else 0)
      + (if s != [] && IsSpace(s[|s| - 1]) then 1 else 0)
  }

  lemma SplitOnSpaceUnfold(s: string, w: nat, k: nat)
    requires w == RunLength(s, false) < |s| && k == RunLength(s[w..], true) && w + k <= |s|
    ensures |SplitOnSpace(s)| == 1 + |SplitOnSpace(s[w + k..])|
  {
  }

  /** One step of `SplitOnSpaceCount`: the first word run and whitespace run, then the rest. */
  lemma SplitOnSpaceStep(s: string, w: nat, k: nat)
    requires w == RunLength(s, false) < |s| && k == RunLength(s[w..], true)
    requires w + k <= |s| && |SplitOnSpace(s[w + k..])| == SpaceSplitCount(s[w + k..])
    ensures |SplitOnSpace(s)| == SpaceSplitCount(s)
  {
    SplitOnSpaceUnfold(s, w, k);
    WordsAfterFirstRun(s, w, k);
    TrailingSpaceOfRest(s, w, k);
  }

  /** The words of a text that has whitespace: its leading word run, if any, and the words after the first whitespace run. */
  lemma WordsAfterFirstRun(s: string, w: nat, k: nat)
    requires w == RunLength(s, false) < |s| && k == RunLength(s[w..], true)
    ensures 0 < k && w + k <= |s|
    ensures CountKind(Tokenize(s), Word) == (if w > 0 then 1 else 0) + CountKind(Tokenize(s[w + k..]), Word)
  {
    var t := s[w..];
    assert t != [] && IsSpace(t[0]);
    assert CountKind(Tokenize(t), Word) == CountKind(Tokenize(s[w + k..]), Word) by {
      CountLeadingRun(t, k);
      assert t[k..] == s[w + k..];
    }
    if w > 0 {
      CountLeadingRun(s, w);
    } else {
      assert s[w..] == s;
      CountLeadingRun(s, k);
    }
  }

  /** After a word run and a whitespace run, the rest is empty or starts with a word. */
  lemma TrailingSpaceOfRest(s: string, w: nat, k: nat)
    requires w == RunLength(s, false) < |s| && k == RunLength(s[w..], true)
    ensures w + k <= |s|
    ensures s[w + k..] != [] ==> !IsSpace(s[w + k..][0]) && s[|s| - 1] == s[w + k..][|s[w + k..]| - 1]
    ensures s[w + k..] == [] ==> IsSpace(s[|s| - 1])
  {
    if w + k < |s| {
      assert s[w..][k] == s[w + k];
    } else {
      assert s[w..][k - 1] == s[|s| - 1];
    }
  }

  /** A run of whitespace contains no word at all. */
  lemma NoWordsInSpace(s: string)
    requires AllSpace(s)
    ensures CountKind(Tokenize(s), Word) == 0
  {
    if s != [] {
      TokenizeRun(s, Whitespace);
    }
  }

  /** Removing leading and trailing whitespace does not change the number of words. */
  lemma TrimKeepsWords(s: string)
    ensures CountKind(Tokenize(Trim(s)), Word) == CountKind(Tokenize(s), Word)
  {
    var t := Trim(s);
    var a := TrimStart(s);
    var lead, trail := s[..a], s[a + |t|..];
    assert s == lead + t + trail;
    WordsIgnoreSpaceAround(lead, t, trail);
  }

  /** Whitespace around a text that starts and ends with a word adds no word. */
  lemma WordsIgnoreSpaceAround(lead: string, t: string, trail: string)
    requires AllSpace(lead) && AllSpace(trail)
    requires t != [] ==> !IsSpace(t[0]) && !IsSpace(t[|t| - 1])
    ensures CountKind(Tokenize(lead + t + trail), Word) == CountKind(Tokenize(t), Word)
  {
    if t == [] {
      assert AllSpace(lead + t + trail) by {
        assert lead + t + trail == lead + trail;
      }
      NoWordsInSpace(lead + t + trail);
    } else {
      SpaceBefore(lead, t);
      assert (lead + t)[|lead + t| - 1] == t[|t| - 1];
      SpaceAfter(lead + t, trail);
    }
  }

  lemma SpaceBefore(lead: string, t: string)
    requires AllSpace(lead) && t != [] && !IsSpace(t[0])
    ensures CountKind(Tokenize(lead + t), Word) == CountKind(Tokenize(t), Word)
  {
    TokenizeAppend(lead, t);
    CountKindAppend(Tokenize(lead), Tokenize(t), Word);
    NoWordsInSpace(lead);
  }

  lemma SpaceAfter(u: string, trail: string)
    requires AllSpace(trail) && u != [] && !IsSpace(u[|u| - 1])
    ensures CountKind(Tokenize(u + trail), Word) == CountKind(Tokenize(u), Word)
  {
    TokenizeAppend(u, trail);
    CountKindAppend(Tokenize(u), Tokenize(trail), Word);
    NoWordsInSpace(trail);
  }
}
