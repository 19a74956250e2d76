/**
 * Typed masking (internal/gateway/redact/mask.go): right-to-left rewriting, and its
 * meaning as a left-to-right substitution.
 */
module Masking {
  import opened Sorting
  import opened Spans

  /** A span that Mask rewrites; every other span is skipped. */
  predicate Valid(text: string, x: Span) { 0 <= x.start < x.end <= |text| }

  function ValidSpans(text: string, spans: seq<Span>): seq<Span> {
    if spans == [] then []
    else (if Valid(text, spans[0]) then [spans[0]] else []) + ValidSpans(text, spans[1..])
  }

  predicate StartsLater(x: Span, y: Span) { x.start >= y.start }

  /** The spans do not overlap, in whatever order they are listed. */
  ghost predicate Disjoint(spans: seq<Span>) {
    forall i, j :: 0 <= i < j < |spans| ==> spans[i].end <= spans[j].start || spans[j].end <= spans[i].start
  }

  function Placeholder(x: Span): string { "[" + x.typ + "]" }

  /** Valid spans of the text in text order, starting no earlier than from. */
  ghost predicate InText(text: string, asc: seq<Span>, from: int) {
    && Apart(asc)
    && (forall k :: 0 <= k < |asc| ==> Valid(text, asc[k]) && from <= asc[k].start)
  }

  /** Left-to-right substitution: uncovered stretches in order, one placeholder per span. */
  function Substitute(text: string, asc: seq<Span>, from: nat): string
    requires from <= |text| && InText(text, asc, from)
    decreases |asc|
  {
    if asc == [] then text[from..]
    else
      var x := asc[0];
      text[from..x.start] + (Placeholder(x) + Substitute(text, asc[1..], x.end))
  }

  /** What Mask returns: the substitution of the valid spans, taken in text order. */
  ghost predicate Masked(text: string, spans: seq<Span>, r: string) {
    exists asc {:trigger InText(text, asc, 0)} ::
      InText(text, asc, 0) && multiset(asc) == multiset(ValidSpans(text, spans)) && r == Substitute(text, asc, 0)
  }

  lemma SplitSlice(text: string, from: nat, c: nat, to: nat, rest: string)
    requires from <= c <= to <= |text|
    ensures text[from..to] + rest == text[from..c] + (text[c..to] + rest)
  {
    assert text[from..to] == text[from..c] + text[c..to];
  }

  lemma SubstituteShift(text: string, asc: seq<Span>, from: nat, c: nat)
    requires from <= c <= |text| && InText(text, asc, c)
    ensures InText(text, asc, from)
    ensures Substitute(text, asc, from) == text[from..c] + Substitute(text, asc, c)
  {
    assert InText(text, asc, from);
    if asc == [] {
      SplitSlice(text, from, c, |text|, []);
      assert text[c..] + [] == text[c..] && text[from..] + [] == text[from..];
    } else {
      SplitSlice(text, from, c, asc[0].start, Placeholder(asc[0]) + Substitute(text, asc[1..], asc[0].end));
    }
  }

  lemma {:induction false} ValidSpansMember(text: string, s: seq<Span>, x: Span)
    ensures multiset(ValidSpans(text, s))[x] == if Valid(text, x) then multiset(s)[x] else 0
  {
    if s == [] {
    } else {
      ValidSpansMember(text, s[1..], x);
      assert s == [s[0]] + s[1..];
    }
  }

  lemma ValidSpansArrangement(text: string, d: seq<Span>, s: seq<Span>)
    requires multiset(d) == multiset(s)
    ensures multiset(ValidSpans(text, d)) == multiset(ValidSpans(text, s))
  {
    forall x ensures multiset(ValidSpans(text, d))[x] == multiset(ValidSpans(text, s))[x] {
      ValidSpansMember(text, d, x);
      ValidSpansMember(text, s, x);
    }
  }

  lemma {:induction false} ValidSpansSnoc(text: string, s: seq<Span>, x: Span)
    ensures ValidSpans(text, s + [x]) == ValidSpans(text, s) + if Valid(text, x) then [x] else []
  {
    if s == [] {
      assert [x][1..] == [];
    } else {
      ValidSpansSnoc(text, s[1..], x);
      assert (s + [x])[1..] == s[1..] + [x];
    }
  }

  /** An arrangement of disjoint spans is disjoint. */
  lemma DisjointArrangement(d: seq<Span>, s: seq<Span>)
    requires Disjoint(s) && multiset(d) == multiset(s)
    ensures Disjoint(d)
  {
    forall i, j | 0 <= i < j < |d| ensures d[i].end <= d[j].start || d[j].end <= d[i].start {
      var x, y := d[i], d[j];
      assert x in multiset(d) && y in multiset(d);
      assert x in s && y in s;
      if x == y {
        assert d == d[..i] + [x] + d[i + 1..j] + [x] + d[j + 1..];
        assert multiset(s)[x] >= 2;
        TwoPlaces(s, x);
      } else {
        var a :| 0 <= a < |s| && s[a] == x;
        var b :| 0 <= b < |s| && s[b] == y;
        if a < b { } else { assert b < a; }
      }
    }
  }

  lemma {:induction false} TwoPlaces(s: seq<Span>, x: Span)
    requires multiset(s)[x] >= 2
    ensures exists a, b :: 0 <= a < b < |s| && s[a] == x && s[b] == x
  {
    assert s == [s[0]] + s[1..];
    if s[0] == x {
      assert x in multiset(s[1..]);
      var b :| 0 <= b < |s[1..]| && s[1..][b] == x;
      assert s[b + 1] == x;
    } else {
      TwoPlaces(s[1..], x);
      var a, b :| 0 <= a < b < |s[1..]| && s[1..][a] == x && s[1..][b] == x;
      assert s[a + 1] == x && s[b + 1] == x;
    }
  }

  /**
   * Right to left. The bounds check reads the text rewritten so far, not the original one;
   * for disjoint spans it never skips a valid span and never admits an invalid one.
   */
  method Mask(text: string, spans: seq<Span>) returns (r: string)
    requires Disjoint(spans)
    ensures Masked(text, spans, r)
  {
    if |spans| == 0 {
      MaskDone(text, [], spans, [], text);
      return text;
    }
    var sorted := new Span[|spans|](i requires 0 <= i < |spans| => spans[i]);
    assert sorted[..] == spans;
    SortSlice(sorted, StartsLater);
    ghost var d := sorted[..];
    DisjointArrangement(d, spans);
    r := text;
    ghost var asc: seq<Span> := [];
    assert d[..0] == [] && text[0..] == text;
    var i := 0;
    while i < sorted.Length
      invariant i <= sorted.Length
      invariant sorted[..] == d
      invariant Progress(text, d, i, asc, r)
    {
      var sp := sorted[i];
      assert d[i] == sp;
      MaskStep(text, d, i, asc, r);
      if !(sp.start < 0 || sp.end > |r| || sp.start >= sp.end) {
        r := r[..sp.start] + "[" + sp.typ + "]" + r[sp.end..];
        asc := [sp] + asc;
      }
      i := i + 1;
    }
    MaskDone(text, d, spans, asc, r);
  }

  lemma MaskDone(text: string, d: seq<Span>, spans: seq<Span>, asc: seq<Span>, r: string)
    requires multiset(d) == multiset(spans)
    requires Progress(text, d, |d|, asc, r) || (d == [] && asc == [] && r == text)
    ensures Masked(text, spans, r)
  {
    assert d[..|d|] == d;
    ValidSpansArrangement(text, d, spans);
    assert InText(text, asc, 0);
  }

  /** After i spans, r is the substitution of the valid ones among them, listed in asc. */
  ghost predicate Progress(text: string, d: seq<Span>, i: nat, asc: seq<Span>, r: string) {
    && i <= |d|
    && InText(text, asc, 0)
    && r == Substitute(text, asc, 0)
    && multiset(asc) == multiset(ValidSpans(text, d[..i]))
    && (asc != [] ==> asc[0] in d[..i])
  }

  lemma StartsBeforeRest(text: string, d: seq<Span>, i: nat, asc: seq<Span>)
    requires Ordered(StartsLater, d) && Disjoint(d) && i < |d|
    requires asc != [] && asc[0] in d[..i] && NonEmpty(d[i]) && Valid(text, asc[0])
    ensures d[i].end <= asc[0].start
  {
    var j :| 0 <= j < |d[..i]| && d[..i][j] == asc[0];
    assert StartsLater(d[j], d[i]);
  }

  lemma MaskStep(text: string, d: seq<Span>, i: nat, asc: seq<Span>, r: string)
    requires Ordered(StartsLater, d) && Disjoint(d) && i < |d|
    requires Progress(text, d, i, asc, r)
    ensures Valid(text, d[i]) <==> 0 <= d[i].start < d[i].end <= |r|
    ensures Valid(text, d[i]) ==>
              Progress(text, d, i + 1, [d[i]] + asc, r[..d[i].start] + "[" + d[i].typ + "]" + r[d[i].end..])
    ensures !Valid(text, d[i]) ==> Progress(text, d, i + 1, asc, r)
  {
    var sp := d[i];
    assert d[..i + 1] == d[..i] + [sp];
    ValidSpansSnoc(text, d[..i], sp);
    if asc != [] && NonEmpty(sp) {
      StartsBeforeRest(text, d, i, asc);
    }
    BoundsCheck(text, asc, sp);
    if Valid(text, sp) {
      Prepend(text, asc, sp);
      assert multiset([sp] + asc) == multiset(asc) + multiset([sp]);
    }
  }

  /** Checking a span against the rewritten text is checking it against the original. */
  lemma BoundsCheck(text: string, asc: seq<Span>, sp: Span)
    requires InText(text, asc, 0)
    requires asc != [] && sp.start < sp.end ==> sp.end <= asc[0].start
    ensures (0 <= sp.start < sp.end <= |Substitute(text, asc, 0)|) <==> Valid(text, sp)
  {
    if asc != [] {
      assert |Substitute(text, asc, 0)| >= asc[0].start;
    }
  }

  lemma Prepend(text: string, asc: seq<Span>, sp: Span)
    requires InText(text, asc, 0) && Valid(text, sp)
    requires asc != [] ==> sp.end <= asc[0].start
    ensures InText(text, [sp] + asc, 0)
    ensures var r := Substitute(text, asc, 0);
      && sp.end <= |r|
      && r[..sp.start] + "[" + sp.typ + "]" + r[sp.end..] == Substitute(text, [sp] + asc, 0)
  {
    forall k | 0 <= k < |asc| ensures sp.end <= asc[k].start {
      assert k > 0 ==> asc[0].end <= asc[k].start;
    }
    assert InText(text, asc, sp.end);
    SubstituteShift(text, asc, 0, sp.end);
    assert ([sp] + asc)[1..] == asc;
    assert text[0..sp.end][..sp.start] == text[0..sp.start];
  }
}
