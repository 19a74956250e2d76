/**
 * Merging in stages. The regular-expression engine merges its own spans before the chain
 * merges them again with the other engines' spans; the extents and confidences come out as
 * if everything had been merged once.
 */
module NestedMerge {
  import opened Sorting
  import opened Spans
  import opened MergeMeaning

  predicate SameExtents(r: seq<Span>, r': seq<Span>) {
    |r| == |r'| && forall k :: 0 <= k < |r| ==> r[k].start == r'[k].start && r[k].end == r'[k].end
  }

  predicate SameConfidences(r: seq<Span>, r': seq<Span>) {
    |r| == |r'| && forall k :: 0 <= k < |r| ==> r[k].confidence == r'[k].confidence
  }

  /** Same text positions, and the same neighbouring positions held together. */
  ghost predicate SameFootprint(r: seq<Span>, s: seq<Span>) {
    && (forall p :: Covers(r, p) <==> Covers(s, p))
    && (forall p :: Glues(r, p) <==> Glues(s, p))
  }

  lemma FootprintConcat(a: seq<Span>, a': seq<Span>, b: seq<Span>)
    requires SameFootprint(a, a')
    ensures SameFootprint(a + b, a' + b)
  {
    forall p ensures Covers(a + b, p) <==> Covers(a' + b, p) {
      CoversConcat(a, b, p);
      CoversConcat(a', b, p);
    }
    forall p ensures Glues(a + b, p) <==> Glues(a' + b, p) {
      CoversConcat(a, b, p);
      CoversConcat(a', b, p);
    }
  }

  /** Along a path of overlaps, every position strictly inside the path's hull is glued. */
  lemma {:induction false} PathGlues(w: seq<Span>, s: seq<Span>, x: Span, y: Span, p: int)
    requires Path(w, s, x, y)
    requires x.start < p < y.end
    ensures Glues(s, p)
    decreases |w|
  {
    assert x in s by { assert w[0] in s; }
    if x.start < p < x.end {
    } else {
      assert |w| > 1;
      var z := w[1];
      assert Overlap(w[0], w[1]);
      assert z in s;
      assert Path(w[1..], s, z, y) by {
        forall i | 0 <= i < |w[1..]| - 1 ensures Overlap(w[1..][i], w[1..][i + 1]) {
          assert Overlap(w[i + 1], w[i + 2]);
        }
      }
      PathGlues(w[1..], s, z, y, p);
    }
  }

  lemma ComponentsGlue(s: seq<Span>, r: seq<Span>, p: int)
    requires Components(r, s) && AllNonEmpty(s)
    ensures Glues(r, p) <==> Glues(s, p)
  {
    if Glues(r, p) {
      var m :| m in r && m.start < p < m.end;
      var k :| 0 <= k < |r| && r[k] == m;
      assert Component(r[k], s);
      var b :| b in s && Within(b, m) && b.start == m.start;
      var e :| e in s && Within(e, m) && e.end == m.end;
      assert Connected(s, b, e);
      var w :| Path(w, s, b, e);
      PathGlues(w, s, b, e, p);
    }
    if Glues(s, p) {
      var x :| x in s && x.start < p < x.end;
      assert Housed(r, x);
      var k :| 0 <= k < |r| && Within(x, r[k]);
      assert r[k] in r;
    }
  }

  lemma MergeFootprint(s: seq<Span>, r: seq<Span>)
    requires AllNonEmpty(s) && MergeOf(s, r)
    ensures SameFootprint(r, s)
  {
    MergeCoverage(s, r);
    MergeComponents(s, r);
    forall p ensures Glues(r, p) <==> Glues(s, p) { ComponentsGlue(s, r, p); }
  }

  lemma TailFootprint(r: seq<Span>, p: int)
    requires r != [] && Apart(r) && AllNonEmpty(r)
    ensures Covers(r[1..], p) <==> Covers(r, p) && p >= r[0].end
    ensures Glues(r[1..], p) <==> Glues(r, p) && p > r[0].end
  {
    assert r == [r[0]] + r[1..];
    assert r[0] in r;
    CoversConcat([r[0]], r[1..], p);
    forall x | x in r[1..] ensures x.start >= r[0].end {
      var j :| 0 <= j < |r[1..]| && r[1..][j] == x;
      assert r[j + 1] == x;
    }
    assert r[0] in [r[0]];
  }

  lemma FirstStart(r: seq<Span>, r': seq<Span>)
    requires r != [] && r' != []
    requires Apart(r) && AllNonEmpty(r) && Apart(r') && AllNonEmpty(r')
    requires SameFootprint(r, r')
    ensures r[0].start <= r'[0].start
  {
    var p := r'[0].start;
    assert r'[0] in r' && r[0] in r;
    assert Covers(r', p);
    assert Covers(r, p);
    var x :| x in r && x.start <= p < x.end;
    var j :| 0 <= j < |r| && r[j] == x;
    assert j > 0 ==> r[0].end <= r[j].start;
    assert NonEmpty(r[0]);
  }

  lemma NotGluedAtEnd(r: seq<Span>)
    requires r != [] && Apart(r) && AllNonEmpty(r)
    ensures !Glues(r, r[0].end)
  {
    var p := r[0].end;
    forall x | x in r ensures !(x.start < p < x.end) {
      var j :| 0 <= j < |r| && r[j] == x;
      assert j > 0 ==> r[0].end <= r[j].start;
    }
  }

  lemma FirstEnd(r: seq<Span>, r': seq<Span>)
    requires r != [] && r' != []
    requires Apart(r) && AllNonEmpty(r) && Apart(r') && AllNonEmpty(r')
    requires SameFootprint(r, r') && r[0].start == r'[0].start
    ensures r[0].end >= r'[0].end
  {
    NotGluedAtEnd(r);
    assert r'[0] in r' && r[0] in r && NonEmpty(r[0]);
    assert !Glues(r', r[0].end);
  }

  lemma FirstCovered(r: seq<Span>)
    requires AllNonEmpty(r)
    ensures r != [] ==> Covers(r, r[0].start)
  {
    if r != [] { assert r[0] in r && NonEmpty(r[0]); }
  }

  /** Disjoint non-empty spans in text order are determined by their footprint. */
  lemma {:induction false} FootprintDetermines(r: seq<Span>, r': seq<Span>)
    requires Apart(r) && AllNonEmpty(r) && Apart(r') && AllNonEmpty(r')
    requires SameFootprint(r, r')
    ensures SameExtents(r, r')
    decreases |r|
  {
    FirstCovered(r);
    FirstCovered(r');
    if r != [] && r' != [] {
      FirstStart(r, r');
      FirstStart(r', r);
      FirstEnd(r, r');
      FirstEnd(r', r);
      forall p ensures Covers(r[1..], p) <==> Covers(r'[1..], p) {
        TailFootprint(r, p);
        TailFootprint(r', p);
      }
      forall p ensures Glues(r[1..], p) <==> Glues(r'[1..], p) {
        TailFootprint(r, p);
        TailFootprint(r', p);
      }
      FootprintDetermines(r[1..], r'[1..]);
      forall k | 0 <= k < |r| ensures r[k].start == r'[k].start && r[k].end == r'[k].end {
        if k > 0 { assert r[k] == r[1..][k - 1] && r'[k] == r'[1..][k - 1]; }
      }
    }
  }

  /** The merged spans of one list are at least as confident as any span inside them. */
  lemma TopConfidence(s: seq<Span>, r: seq<Span>, x: Span, k: nat)
    requires Components(r, s) && k < |r| && x in s && Within(x, r[k])
    ensures x.confidence <= r[k].confidence
  {
    assert Component(r[k], s);
  }

  lemma Attained(s: seq<Span>, r: seq<Span>, k: nat) returns (x: Span)
    requires Components(r, s) && k < |r|
    ensures x in s && Within(x, r[k]) && x.confidence == r[k].confidence
  {
    assert Component(r[k], s);
    x :| x in s && Within(x, r[k]) && SameClaim(x, r[k]);
  }

  lemma StagedAtMostFlat(s: seq<Span>, t: seq<Span>, r1: seq<Span>, r2: seq<Span>, r3: seq<Span>, k: nat)
    requires AllNonEmpty(s)
    requires Components(r1, s) && Components(r2, r1 + t) && Components(r3, s + t)
    requires SameExtents(r2, r3) && k < |r2|
    ensures r2[k].confidence <= r3[k].confidence
  {
    var m := Attained(r1 + t, r2, k);
    if m in t {
      assert m in s + t;
      TopConfidence(s + t, r3, m, k);
    } else {
      var j :| 0 <= j < |r1| && r1[j] == m;
      var x := Attained(s, r1, j);
      assert x in s + t;
      TopConfidence(s + t, r3, x, k);
    }
  }

  lemma FlatAtMostStaged(s: seq<Span>, t: seq<Span>, r1: seq<Span>, r2: seq<Span>, r3: seq<Span>, k: nat)
    requires AllNonEmpty(s)
    requires Components(r1, s) && Components(r2, r1 + t) && Components(r3, s + t)
    requires SameExtents(r2, r3) && k < |r2|
    ensures r3[k].confidence <= r2[k].confidence
  {
    var x := Attained(s + t, r3, k);
    if x in t {
      assert x in r1 + t;
      TopConfidence(r1 + t, r2, x, k);
    } else {
      assert x in s && NonEmpty(x) && Housed(r1, x);
      var j :| 0 <= j < |r1| && Within(x, r1[j]);
      var m := r1[j];
      TopConfidence(s, r1, x, j);
      assert m in r1 + t && Housed(r2, m);
      var i :| 0 <= i < |r2| && Within(m, r2[i]);
      HomeUnique(r2, x, i, k);
      TopConfidence(r1 + t, r2, m, k);
    }
  }

  /** Merging one engine's spans first changes neither the extents nor the confidences. */
  lemma NestedMergeIsFlatMerge(s: seq<Span>, t: seq<Span>, r1: seq<Span>, r2: seq<Span>, r3: seq<Span>)
    requires AllNonEmpty(s) && AllNonEmpty(t)
    requires MergeOf(s, r1) && MergeOf(r1 + t, r2) && MergeOf(s + t, r3)
    ensures SameExtents(r2, r3) && SameConfidences(r2, r3)
  {
    MergeComponents(s, r1);
    MergeFootprint(s, r1);
    assert AllNonEmpty(r1 + t) && AllNonEmpty(s + t);
    MergeFootprint(r1 + t, r2);
    MergeFootprint(s + t, r3);
    FootprintConcat(r1, s, t);
    MergeComponents(r1 + t, r2);
    MergeComponents(s + t, r3);
    FootprintDetermines(r2, r3);
    forall k | 0 <= k < |r2| ensures r2[k].confidence == r3[k].confidence {
      StagedAtMostFlat(s, t, r1, r2, r3, k);
      FlatAtMostStaged(s, t, r1, r2, r3, k);
    }
  }

  lemma {:induction false} CompactApart(out: seq<Span>, rest: seq<Span>)
    requires out != [] && Apart(out + rest)
    ensures Compact(out, rest) == out + rest
    decreases |rest|
  {
    if rest == [] {
      assert out + rest == out;
    } else {
      var all := out + rest;
      assert all[|out| - 1].end <= all[|out|].start;
      assert (out + [rest[0]]) + rest[1..] == all;
      CompactApart(out + [rest[0]], rest[1..]);
    }
  }

  lemma ArrangementFirst(t: seq<Span>, r: seq<Span>)
    requires r != [] && Apart(r) && AllNonEmpty(r) && Arrangement(Before, t, r)
    ensures t != [] && t[0] == r[0]
  {
    ArrangementMembers(Before, t, r);
    assert t[0] in r && r[0] in t && r[0] in r;
    var j :| 0 <= j < |r| && r[j] == t[0];
    var i :| 0 <= i < |t| && t[i] == r[0];
    assert i > 0 ==> Before(t[0], t[i]);
    assert j > 0 ==> r[0].end <= r[j].start;
  }

  lemma ArrangementTail(t: seq<Span>, r: seq<Span>)
    requires t != [] && r != [] && t[0] == r[0] && Arrangement(Before, t, r)
    ensures Arrangement(Before, t[1..], r[1..])
  {
    assert t == [t[0]] + t[1..] && r == [r[0]] + r[1..];
    assert multiset(t[1..]) == multiset(t) - multiset{t[0]};
    assert multiset(r[1..]) == multiset(r) - multiset{r[0]};
  }

  /** Disjoint non-empty spans in text order have only one arrangement. */
  lemma {:induction false} ArrangementUnique(t: seq<Span>, r: seq<Span>)
    requires Apart(r) && AllNonEmpty(r) && Arrangement(Before, t, r)
    ensures t == r
    decreases |r|
  {
    ArrangementMembers(Before, t, r);
    if r == [] {
    } else {
      ArrangementFirst(t, r);
      ArrangementTail(t, r);
      assert AllNonEmpty(r[1..]);
      ArrangementUnique(t[1..], r[1..]);
      assert t == [t[0]] + t[1..] && r == [r[0]] + r[1..];
    }
  }

  /** Merging a merged list again changes nothing. */
  lemma MergeIdempotent(s: seq<Span>, r: seq<Span>, r': seq<Span>)
    requires AllNonEmpty(s) && MergeOf(s, r) && MergeOf(r, r')
    ensures r' == r
  {
    MergeComponents(s, r);
    if |r| >= 2 {
      var t: seq<Span> :| Arrangement(Before, t, r) && |t| >= 1 && r' == Compact(t[..1], t[1..]);
      ArrangementUnique(t, r);
      assert t[..1] + t[1..] == t;
      CompactApart(t[..1], t[1..]);
    }
  }
}
