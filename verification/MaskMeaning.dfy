/** What a masked text keeps, and that it keeps nothing else. */
module MaskMeaning {
  import opened Sorting
  import opened Spans
  import opened MergeMeaning
  import opened Masking
  import NestedMerge

  /** How far the spans that end by p have moved the text after them. */
  function Growth(asc: seq<Span>, p: int): int {
    if asc == [] || asc[0].end > p then 0
    else |Placeholder(asc[0])| - (asc[0].end - asc[0].start) + Growth(asc[1..], p)
  }

  lemma {:induction false} GrowthBefore(text: string, asc: seq<Span>, p: int)
    requires InText(text, asc, p)
    ensures Growth(asc, p) == 0
  {
    if asc == [] {
    } else {
      assert Valid(text, asc[0]);
    }
  }

  lemma {:induction false} SubstituteLength(text: string, asc: seq<Span>, from: nat)
    requires from <= |text| && InText(text, asc, from)
    ensures |Substitute(text, asc, from)| == |text| - from + Growth(asc, |text|)
    decreases |asc|
  {
    if asc == [] {
    } else {
      SubstituteLength(text, asc[1..], asc[0].end);
    }
  }

  lemma NotCoveredByRest(asc: seq<Span>, p: int)
    requires asc != [] && !Covers(asc, p)
    ensures !(asc[0].start <= p < asc[0].end) && !Covers(asc[1..], p)
  {
    assert asc[0] in asc;
    forall y | y in asc[1..] ensures !(y.start <= p < y.end) { assert y in asc; }
  }

  /** tag stands in r at offset q. */
  predicate StandsAt(r: string, q: int, tag: string) {
    0 <= q && q + |tag| <= |r| && r[q..q + |tag|] == tag
  }

  lemma StandsInTail(a: string, b: string, c: string, q: int, tag: string)
    requires StandsAt(c, q, tag)
    ensures StandsAt(a + (b + c), |a| + |b| + q, tag)
  {
  }

  lemma StandsInMiddle(a: string, b: string, c: string)
    ensures StandsAt(a + (b + c), |a|, b)
  {
  }

  lemma GrowthStep(asc: seq<Span>, p: int)
    requires asc != [] && asc[0].end <= p
    ensures Growth(asc, p) == |Placeholder(asc[0])| - (asc[0].end - asc[0].start) + Growth(asc[1..], p)
  {
  }

  lemma InTextTail(text: string, asc: seq<Span>, from: int, k: nat)
    requires InText(text, asc, from) && 1 <= k < |asc|
    ensures InText(text, asc[1..], asc[0].end) && asc[1..][k - 1] == asc[k] && asc[0].end <= asc[k].start
    ensures Valid(text, asc[0]) && from <= asc[0].start
  {
  }

  /** Where the placeholder of span k stands in the substituted text. */
  function PlaceOf(asc: seq<Span>, from: int, k: nat): int
    requires k < |asc|
  {
    asc[k].start - from + Growth(asc, asc[k].start)
  }

  /** The same place, counted span by span. */
  function Offset(asc: seq<Span>, from: int, k: nat): int
    requires k < |asc|
  {
    asc[0].start - from + if k == 0 then 0 else |Placeholder(asc[0])| + Offset(asc[1..], asc[0].end, k - 1)
  }

  lemma {:induction false} OffsetIsPlace(text: string, asc: seq<Span>, from: int, k: nat)
    requires InText(text, asc, from) && k < |asc|
    ensures Offset(asc, from, k) == PlaceOf(asc, from, k)
    decreases k
  {
    if k == 0 {
      GrowthBefore(text, asc, asc[0].start);
    } else {
      InTextTail(text, asc, from, k);
      OffsetIsPlace(text, asc[1..], asc[0].end, k - 1);
      GrowthStep(asc, asc[k].start);
    }
  }

  lemma PlacedFirst(text: string, asc: seq<Span>, from: nat)
    requires from <= |text| && InText(text, asc, from) && asc != []
    ensures StandsAt(Substitute(text, asc, from), Offset(asc, from, 0), Placeholder(asc[0]))
  {
    var x := asc[0];
    assert Valid(text, x);
    StandsInMiddle(text[from..x.start], Placeholder(x), Substitute(text, asc[1..], x.end));
  }

  /** A substituted text is what stands before the first span, its placeholder, and the rest. */
  lemma SubstituteSplits(text: string, asc: seq<Span>, from: nat) returns (head: string, rest: string)
    requires from <= |text| && InText(text, asc, from) && asc != [] && Valid(text, asc[0])
             && InText(text, asc[1..], asc[0].end)
    ensures |head| == asc[0].start - from && rest == Substitute(text, asc[1..], asc[0].end)
    ensures Substitute(text, asc, from) == head + (Placeholder(asc[0]) + rest)
  {
    head := text[from..asc[0].start];
    rest := Substitute(text, asc[1..], asc[0].end);
  }

  lemma StandsShifted(r: string, a: string, b: string, c: string, q: int, tag: string)
    requires r == a + (b + c) && StandsAt(c, q, tag)
    ensures StandsAt(r, |a| + |b| + q, tag)
  {
    StandsInTail(a, b, c, q, tag);
  }

  lemma PlacedBelow(text: string, asc: seq<Span>, from: nat, q: int, tag: string)
    requires from <= |text| && InText(text, asc, from) && asc != [] && Valid(text, asc[0])
             && InText(text, asc[1..], asc[0].end)
    requires StandsAt(Substitute(text, asc[1..], asc[0].end), q, tag)
    ensures StandsAt(Substitute(text, asc, from), (asc[0].start - from) + |Placeholder(asc[0])| + q, tag)
  {
    var head, rest := SubstituteSplits(text, asc, from);
    StandsShifted(Substitute(text, asc, from), head, Placeholder(asc[0]), rest, q, tag);
  }

  lemma {:induction false} PlacedAtOffset(text: string, asc: seq<Span>, from: nat, k: nat, r: string, q: int,
                                          tag: string)
    requires from <= |text| && InText(text, asc, from) && k < |asc|
    requires r == Substitute(text, asc, from) && q == Offset(asc, from, k) && tag == Placeholder(asc[k])
    ensures StandsAt(r, q, tag)
    decreases k
  {
    if k == 0 {
      PlacedFirst(text, asc, from);
    } else {
      InTextTail(text, asc, from, k);
      var q' := Offset(asc[1..], asc[0].end, k - 1);
      assert q == asc[0].start - from + |Placeholder(asc[0])| + q';
      PlacedAtOffset(text, asc[1..], asc[0].end, k - 1, Substitute(text, asc[1..], asc[0].end), q', tag);
      PlacedBelow(text, asc, from, q', tag);
    }
  }

  /** Every span is replaced by its placeholder, at its shifted place. */
  lemma PlacedAt(text: string, asc: seq<Span>, from: nat, k: nat)
    requires from <= |text| && InText(text, asc, from) && k < |asc|
    ensures StandsAt(Substitute(text, asc, from), PlaceOf(asc, from, k), Placeholder(asc[k]))
  {
    PlacedAtOffset(text, asc, from, k, Substitute(text, asc, from), Offset(asc, from, k), Placeholder(asc[k]));
    OffsetIsPlace(text, asc, from, k);
  }

  lemma InTextRest(text: string, asc: seq<Span>, from: int)
    requires InText(text, asc, from) && asc != []
    ensures InText(text, asc[1..], asc[0].end) && Valid(text, asc[0]) && from <= asc[0].start
  {
  }

  lemma SurvivesLater(text: string, asc: seq<Span>, from: nat, p: int) returns (q: int)
    requires from <= |text| && InText(text, asc, from) && asc != [] && asc[0].end <= p < |text|
    requires Valid(text, asc[0]) && InText(text, asc[1..], asc[0].end)
    requires StandsAt(Substitute(text, asc[1..], asc[0].end), p - asc[0].end + Growth(asc[1..], p), [text[p]])
    ensures q == p - from + Growth(asc, p) && StandsAt(Substitute(text, asc, from), q, [text[p]])
  {
    GrowthStep(asc, p);
    q := p - asc[0].end + Growth(asc[1..], p);
    PlacedBelow(text, asc, from, q, [text[p]]);
    q := p - from + Growth(asc, p);
  }

  /** Every text position outside the spans survives, at its shifted place. */
  lemma {:induction false} SurvivesAt(text: string, asc: seq<Span>, from: nat, p: int)
    requires from <= p < |text| && InText(text, asc, from) && !Covers(asc, p)
    ensures StandsAt(Substitute(text, asc, from), p - from + Growth(asc, p), [text[p]])
    decreases |asc|
  {
    if asc == [] {
    } else {
      InTextRest(text, asc, from);
      NotCoveredByRest(asc, p);
      if p >= asc[0].end {
        SurvivesAt(text, asc[1..], asc[0].end, p);
        var q := SurvivesLater(text, asc, from, p);
      } else {
        BeforeFirst(text, asc, from, p);
      }
    }
  }

  lemma BeforeFirst(text: string, asc: seq<Span>, from: nat, p: int)
    requires InText(text, asc, from) && asc != [] && from <= p < asc[0].start && asc[0].start <= |text|
    ensures StandsAt(Substitute(text, asc, from), p - from, [text[p]]) && Growth(asc, p) == 0
  {
    assert Valid(text, asc[0]);
    var head := text[from..asc[0].start];
    assert head[p - from] == text[p];
  }

  /** The texts agree at every position from on that no span covers. */
  ghost predicate AgreeOutside(text: string, text': string, asc: seq<Span>, from: int) {
    |text| == |text'| && forall p :: from <= p < |text| && 0 <= p && !Covers(asc, p) ==> text[p] == text'[p]
  }

  /**
   * Nothing under a span can be read off the masked text: two texts that differ only under
   * the spans are masked to the same text.
   */
  lemma {:induction false} MaskHidesCovered(text: string, text': string, asc: seq<Span>, from: nat)
    requires from <= |text| && AgreeOutside(text, text', asc, from)
    requires InText(text, asc, from)
    ensures InText(text', asc, from)
    ensures Substitute(text, asc, from) == Substitute(text', asc, from)
    decreases |asc|
  {
    forall k | 0 <= k < |asc| ensures Valid(text', asc[k]) {
      assert Valid(text, asc[k]);
    }
    if asc == [] {
      assert text[from..] == text'[from..];
    } else {
      var x := asc[0];
      forall p | from <= p < x.start ensures text[p] == text'[p] {
        NotYetCovered(text, asc, from, p);
      }
      assert text[from..x.start] == text'[from..x.start];
      forall p | x.end <= p < |text| && !Covers(asc[1..], p) ensures text[p] == text'[p] {
        assert asc == [x] + asc[1..];
        CoversConcat([x], asc[1..], p);
      }
      MaskHidesCovered(text, text', asc[1..], x.end);
    }
  }

  lemma NotYetCovered(text: string, asc: seq<Span>, from: int, p: int)
    requires InText(text, asc, from) && asc != [] && p < asc[0].start
    ensures !Covers(asc, p)
  {
    forall y | y in asc ensures !(y.start <= p < y.end) {
      var k :| 0 <= k < |asc| && asc[k] == y;
      assert Valid(text, asc[0]);
      assert k > 0 ==> asc[0].end <= asc[k].start;
    }
  }

  /** The masked text does not depend on the order in which the spans are listed. */
  lemma MaskDeterministic(text: string, spans: seq<Span>, spans': seq<Span>, r: string, r': string)
    requires multiset(spans) == multiset(spans')
    requires Masked(text, spans, r) && Masked(text, spans', r')
    ensures r == r'
  {
    ValidSpansArrangement(text, spans, spans');
    var asc: seq<Span> :|
      InText(text, asc, 0) && multiset(asc) == multiset(ValidSpans(text, spans)) && r == Substitute(text, asc, 0);
    var asc': seq<Span> :|
      InText(text, asc', 0) && multiset(asc') == multiset(ValidSpans(text, spans')) && r' == Substitute(text, asc', 0);
    InTextArranged(text, asc);
    InTextArranged(text, asc');
    NestedMerge.ArrangementUnique(asc, asc');
  }

  lemma InTextArranged(text: string, asc: seq<Span>)
    requires InText(text, asc, 0)
    ensures AllNonEmpty(asc) && Ordered(Before, asc)
  {
    forall i, j | 0 <= i < j < |asc| ensures Before(asc[i], asc[j]) {
      assert Valid(text, asc[i]) && Valid(text, asc[j]);
      assert asc[i].end <= asc[j].start;
    }
  }

  /** Merged spans are listed in text order, so masking substitutes them as they stand. */
  lemma {:induction false} ApartSpansAreValidInOrder(text: string, spans: seq<Span>)
    requires Apart(spans)
    ensures InText(text, ValidSpans(text, spans), 0)
    ensures forall x :: x in ValidSpans(text, spans) <==> x in spans && Valid(text, x)
  {
    if spans == [] {
    } else {
      ApartSpansAreValidInOrder(text, spans[1..]);
      var x, rest := spans[0], ValidSpans(text, spans[1..]);
      assert spans == [x] + spans[1..];
      forall k | 0 <= k < |rest| ensures x.end <= rest[k].start {
        assert rest[k] in rest;
        assert rest[k] in spans[1..];
        var j :| 0 <= j < |spans[1..]| && spans[1..][j] == rest[k];
        assert spans[0].end <= spans[j + 1].start;
      }
    }
  }

  /**
   * A text masked with merged spans reveals nothing at any covered position: any other text
   * that agrees with it outside the spans is masked to the same result.
   */
  lemma MergedMaskHides(text: string, text': string, spans: seq<Span>, r: string, r': string)
    requires Apart(spans) && |text| == |text'|
    requires forall p :: 0 <= p < |text| && !Covers(spans, p) ==> text[p] == text'[p]
    requires forall x :: x in spans ==> Valid(text, x)
    requires Masked(text, spans, r) && Masked(text', spans, r')
    ensures r == r'
  {
    var v := ValidSpans(text, spans);
    ApartSpansAreValidInOrder(text, spans);
    ApartSpansAreValidInOrder(text', spans);
    SameValidSpans(text, text', spans);
    forall p | 0 <= p < |text| && !Covers(v, p) ensures text[p] == text'[p] {
      forall x | x in spans ensures !(x.start <= p < x.end) { assert x in v; }
    }
    MaskHidesCovered(text, text', v, 0);
    assert Masked(text, spans, Substitute(text, v, 0));
    assert Masked(text', spans, Substitute(text', v, 0));
    MaskDeterministic(text, spans, spans, r, Substitute(text, v, 0));
    MaskDeterministic(text', spans, spans, r', Substitute(text', v, 0));
  }

  lemma {:induction false} SameValidSpans(text: string, text': string, spans: seq<Span>)
    requires |text| == |text'|
    ensures ValidSpans(text, spans) == ValidSpans(text', spans)
  {
    if spans == [] {
    } else {
      SameValidSpans(text, text', spans[1..]);
    }
  }
}
