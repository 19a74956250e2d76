/**
 * Detected spans and their merging (internal/gateway/detect/detector.go).
 *
 * Merge sorts the spans and compacts them into the front of the array it is reading.
 * Its meaning is given three ways: by the fold it performs, by the connected components
 * of the overlap graph, and by the text positions it covers.
 */
module Spans {
  import opened Sorting

  /** Offsets into a text, with type, confidence and provenance. */
  datatype Span = Span(start: int, end: int, typ: string, confidence: real, detector: string)

  predicate NonEmpty(x: Span) { x.start < x.end }

  ghost predicate AllNonEmpty(s: seq<Span>) { forall x :: x in s ==> NonEmpty(x) }

  /** Two spans share a text position. */
  predicate Overlap(x: Span, y: Span) { x.start < y.end && y.start < x.end }

  /** x lies inside the extent of m. */
  predicate Within(x: Span, m: Span) { m.start <= x.start && x.end <= m.end }

  predicate SameClaim(x: Span, y: Span) {
    x.typ == y.typ && x.confidence == y.confidence && x.detector == y.detector
  }

  /** The comparison Merge sorts by: earlier start first, then the longer span. */
  predicate Before(x: Span, y: Span) {
    x.start < y.start || (x.start == y.start && x.end >= y.end)
  }

  /** Each span ends no later than every later one starts. */
  ghost predicate Apart(s: seq<Span>) {
    forall i, j :: 0 <= i < j < |s| ==> s[i].end <= s[j].start
  }

  // ---- the fold ----

  function Absorb(last: Span, x: Span): Span {
    var wide := if x.end > last.end then last.(end := x.end) else last;
    if x.confidence > last.confidence
    then wide.(typ := x.typ, detector := x.detector, confidence := x.confidence)
    else wide
  }

  function Step(out: seq<Span>, x: Span): seq<Span>
    requires out != []
  {
    var last := out[|out| - 1];
    if x.start >= last.end then out + [x] else out[..|out| - 1] + [Absorb(last, x)]
  }

  function Compact(out: seq<Span>, rest: seq<Span>): seq<Span>
    requires out != []
    decreases |rest|
  {
    if rest == [] then out else Compact(Step(out, rest[0]), rest[1..])
  }

  /** One turn of the fold, element by element. */
  ghost predicate Turned(out: seq<Span>, x: Span, out': seq<Span>) {
    out != [] &&
    var n := |out| - 1;
    && |out'| == (if x.start >= out[n].end then n + 2 else n + 1)
    && (forall k :: 0 <= k < n ==> out'[k] == out[k])
    && out'[n] == (if x.start >= out[n].end then out[n] else Absorb(out[n], x))
    && (x.start >= out[n].end ==> out'[n + 1] == x)
  }

  /** The output lists the fold passes through while it reads t. */
  ghost predicate Stages(t: seq<Span>, h: seq<seq<Span>>) {
    && |h| == |t| >= 1
    && h[0] == [t[0]]
    && (forall i :: 1 <= i < |t| ==> Turned(h[i - 1], t[i], h[i]))
  }

  lemma {:induction false} FoldStages(out: seq<Span>, rest: seq<Span>) returns (h: seq<seq<Span>>)
    requires out != []
    ensures |h| == |rest| + 1 && h[0] == out && h[|rest|] == Compact(out, rest)
    ensures forall i :: 0 <= i < |rest| ==> Turned(h[i], rest[i], h[i + 1])
    decreases |rest|
  {
    if rest == [] {
      h := [out];
    } else {
      var h' := FoldStages(Step(out, rest[0]), rest[1..]);
      assert Turned(out, rest[0], h'[0]);
      h := [out] + h';
      forall i | 0 <= i < |rest| ensures Turned(h[i], rest[i], h[i + 1]) {
        if i > 0 { assert Turned(h'[i - 1], rest[1..][i - 1], h'[i]); }
      }
    }
  }

  /** r is a possible result of Merge on s: some ordering of s, folded from the left. */
  ghost predicate MergeOf(s: seq<Span>, r: seq<Span>) {
    if |s| < 2 then r == s
    else exists t {:trigger Arrangement(Before, t, s)} ::
           Arrangement(Before, t, s) && |t| >= 1 && r == Compact(t[..1], t[1..])
  }

  /** The update through the pointer to the last result. */
  method AbsorbInto(spans: array<Span>, k: nat, sp: Span)
    requires k < spans.Length
    modifies spans
    ensures spans[k] == Absorb(old(spans[k]), sp)
    ensures forall j :: 0 <= j < spans.Length && j != k ==> spans[j] == old(spans[j])
  {
    if sp.end > spans[k].end {
      spans[k] := spans[k].(end := sp.end);
    }
    if sp.confidence > spans[k].confidence {
      spans[k] := spans[k].(typ := sp.typ, detector := sp.detector, confidence := sp.confidence);
    }
  }

  /** In place: the results are written over the front of the list being read. */
  method CompactInPlace(spans: array<Span>, ghost h: seq<seq<Span>>) returns (n: nat)
    requires Stages(spans[..], h)
    modifies spans
    ensures n <= spans.Length
    ensures spans[..n] == h[spans.Length - 1]
  {
    ghost var t := spans[..];
    n := 1;
    var i := 1;
    while i < spans.Length
      invariant 1 <= n <= i <= spans.Length == |t|
      invariant forall k :: i <= k < |t| ==> spans[k] == t[k]
      invariant n == |h[i - 1]| && forall k :: 0 <= k < n ==> spans[k] == h[i - 1][k]
    {
      var sp := spans[i];
      assert Turned(h[i - 1], t[i], h[i]);
      if sp.start >= spans[n - 1].end {
        spans[n] := sp;
        n := n + 1;
      } else {
        AbsorbInto(spans, n - 1, sp);
      }
      i := i + 1;
    }
  }

  method Merge(spans: array<Span>) returns (n: nat)
    modifies spans
    ensures n <= spans.Length
    ensures MergeOf(old(spans[..]), spans[..n])
  {
    if spans.Length < 2 {
      assert spans[..spans.Length] == spans[..];
      return spans.Length;
    }
    SortSlice(spans, Before);
    ghost var t := spans[..];
    ghost var h := FoldStages(t[..1], t[1..]);
    n := CompactInPlace(spans, h);
    MergeDone(old(spans[..]), t, spans[..n]);
  }

  lemma MergeDone(s: seq<Span>, t: seq<Span>, r: seq<Span>)
    requires |s| >= 2 && Arrangement(Before, t, s) && t != []
    requires r == Compact(t[..1], t[1..])
    ensures MergeOf(s, r)
  {
  }
}
