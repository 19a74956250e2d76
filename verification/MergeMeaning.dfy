/** What the result of a merge means, independently of the fold that computes it. */
module MergeMeaning {
  import opened Sorting
  import opened Spans

  // ---- coverage: for every list of spans whatever, even empty or inverted ones ----

  /** Some span of s contains text position p. */
  ghost predicate Covers(s: seq<Span>, p: int) {
    exists x :: x in s && x.start <= p < x.end
  }

  /** Some span of s contains both p - 1 and p. */
  ghost predicate Glues(s: seq<Span>, p: int) {
    exists x :: x in s && x.start < p < x.end
  }

  ghost predicate SameCoverage(r: seq<Span>, s: seq<Span>) {
    forall p :: Covers(r, p) <==> Covers(s, p)
  }

  lemma CoversConcat(a: seq<Span>, b: seq<Span>, p: int)
    ensures Covers(a + b, p) <==> Covers(a, p) || Covers(b, p)
    ensures Glues(a + b, p) <==> Glues(a, p) || Glues(b, p)
  {
    assert forall x :: x in a + b <==> x in a || x in b;
  }

  lemma StepKeepsCoverage(out: seq<Span>, x: Span)
    requires out != [] && x.start >= out[|out| - 1].start
    ensures SameCoverage(Step(out, x), out + [x])
    ensures Apart(out) ==> Apart(Step(out, x))
    ensures Step(out, x)[|Step(out, x)| - 1].start <= x.start
  {
    var front, last := out[..|out| - 1], out[|out| - 1];
    assert out == front + [last];
    forall p ensures Covers(Step(out, x), p) <==> Covers(out + [x], p) {
      CoversConcat(out, [x], p);
      CoversConcat(front, [last], p);
      if x.start < last.end {
        var wide := Absorb(last, x);
        CoversConcat(front, [wide], p);
        assert wide in [wide] && last in [last] && x in [x];
        if last.start <= p < last.end || x.start <= p < x.end {
          assert wide.start <= p < wide.end;
        }
        if wide.start <= p < wide.end {
          assert last.start <= p < last.end || x.start <= p < x.end;
        }
      }
    }
  }

  lemma CoverageConcat(a: seq<Span>, a': seq<Span>, b: seq<Span>)
    requires SameCoverage(a, a')
    ensures SameCoverage(a + b, a' + b)
  {
    forall p ensures Covers(a + b, p) <==> Covers(a' + b, p) {
      CoversConcat(a, b, p);
      CoversConcat(a', b, p);
    }
  }

  lemma {:induction false} CompactKeepsCoverage(out: seq<Span>, rest: seq<Span>)
    requires out != [] && Apart(out) && Ordered(Before, rest)
    requires rest != [] ==> out[|out| - 1].start <= rest[0].start
    ensures Apart(Compact(out, rest))
    ensures SameCoverage(Compact(out, rest), out + rest)
    decreases |rest|
  {
    if rest == [] {
      assert out + rest == out;
    } else {
      var x, out', rest' := rest[0], Step(out, rest[0]), rest[1..];
      assert rest == [x] + rest';
      StepKeepsCoverage(out, x);
      assert rest' != [] ==> Before(rest[0], rest[1]);
      CompactKeepsCoverage(out', rest');
      CoverageConcat(out', out + [x], rest');
      assert out + rest == (out + [x]) + rest';
    }
  }

  /**
   * Whatever spans go in, the merged spans are in text order, never overlap, and cover
   * exactly the text positions the input covered: nothing detected is dropped and nothing
   * undetected is added.
   */
  lemma MergeCoverage(s: seq<Span>, r: seq<Span>)
    requires MergeOf(s, r)
    ensures Apart(r)
    ensures SameCoverage(r, s)
    ensures r == [] <==> s == []
  {
    if |s| >= 2 {
      var t: seq<Span> :| Arrangement(Before, t, s) && |t| >= 1 && r == Compact(t[..1], t[1..]);
      assert |t| > 1 ==> Before(t[0], t[1]);
      CompactKeepsCoverage(t[..1], t[1..]);
      assert t[..1] + t[1..] == t;
      ArrangementMembers(Before, t, s);
      forall p ensures Covers(t, p) <==> Covers(s, p) {}
      CompactNonEmpty(t[..1], t[1..]);
    }
  }

  lemma {:induction false} CompactNonEmpty(out: seq<Span>, rest: seq<Span>)
    requires out != []
    ensures Compact(out, rest) != []
    decreases |rest|
  {
    if rest == [] {
    } else {
      CompactNonEmpty(Step(out, rest[0]), rest[1..]);
    }
  }

  // ---- connected components of the overlap graph ----

  /** A walk through s from x to y in which neighbours overlap. */
  ghost predicate Path(p: seq<Span>, s: seq<Span>, x: Span, y: Span) {
    && p != [] && p[0] == x && p[|p| - 1] == y
    && (forall i :: 0 <= i < |p| ==> p[i] in s)
    && (forall i :: 0 <= i < |p| - 1 ==> Overlap(p[i], p[i + 1]))
  }

  ghost predicate Connected(s: seq<Span>, x: Span, y: Span) {
    exists p :: Path(p, s, x, y)
  }

  lemma ConnectedLink(s: seq<Span>, x: Span, y: Span)
    requires x in s && y in s && Overlap(x, y)
    ensures Connected(s, x, y)
  {
    assert Path([x, y], s, x, y);
  }

  lemma ConnectedSelf(s: seq<Span>, x: Span)
    requires x in s
    ensures Connected(s, x, x)
  {
    assert Path([x], s, x, x);
  }

  lemma ConnectedSymmetric(s: seq<Span>, x: Span, y: Span)
    requires Connected(s, x, y)
    ensures Connected(s, y, x)
  {
    var p :| Path(p, s, x, y);
    var q := seq(|p|, i requires 0 <= i < |p| => p[|p| - 1 - i]);
    forall i | 0 <= i < |q| - 1 ensures Overlap(q[i], q[i + 1]) {
      assert Overlap(p[|p| - 2 - i], p[|p| - 2 - i + 1]);
    }
    assert Path(q, s, y, x);
  }

  lemma ConnectedTransitive(s: seq<Span>, x: Span, y: Span, z: Span)
    requires Connected(s, x, y) && Connected(s, y, z)
    ensures Connected(s, x, z)
  {
    var p :| Path(p, s, x, y);
    var q :| Path(q, s, y, z);
    var w := p + q[1..];
    forall i | 0 <= i < |w| - 1 ensures Overlap(w[i], w[i + 1]) {
      if i < |p| - 1 {
      } else {
        assert w[i] == q[i - (|p| - 1)] && w[i + 1] == q[i - (|p| - 1) + 1];
      }
    }
    assert Path(w, s, x, z);
  }

  lemma ConnectedMonotone(s: seq<Span>, s': seq<Span>, x: Span, y: Span)
    requires Connected(s, x, y)
    requires forall z :: z in s ==> z in s'
    ensures Connected(s', x, y)
  {
    var p :| Path(p, s, x, y);
    assert Path(p, s', x, y);
  }

  /** m is one connected component of s: exact extent, top confidence, a top member's claim. */
  ghost predicate Component(m: Span, s: seq<Span>) {
    && (exists x {:trigger Within(x, m)} :: x in s && Within(x, m) && x.start == m.start)
    && (exists x {:trigger Within(x, m)} :: x in s && Within(x, m) && x.end == m.end)
    && (exists x {:trigger Within(x, m)} :: x in s && Within(x, m) && SameClaim(x, m))
    && (forall x {:trigger Within(x, m)} :: x in s && Within(x, m) ==> x.confidence <= m.confidence)
    && (forall x, y {:trigger Connected(s, x, y)} ::
          x in s && y in s && Within(x, m) && Within(y, m) ==> Connected(s, x, y))
  }

  /** x lies within some element of r. */
  ghost predicate Housed(r: seq<Span>, x: Span) {
    exists k :: 0 <= k < |r| && Within(x, r[k])
  }

  /** r lists the connected components of s, in text order, without overlap. */
  ghost predicate Components(r: seq<Span>, s: seq<Span>) {
    && Apart(r)
    && AllNonEmpty(r)
    && (forall x {:trigger Housed(r, x)} :: x in s ==> Housed(r, x))
    && (forall k {:trigger Component(r[k], s)} :: 0 <= k < |r| ==> Component(r[k], s))
  }

  lemma ApartSnoc(out: seq<Span>, x: Span)
    requires out != [] && Apart(out) && AllNonEmpty(out) && NonEmpty(x)
    requires out[|out| - 1].end <= x.start
    ensures Apart(out + [x]) && AllNonEmpty(out + [x])
  {
    var last := out[|out| - 1];
    assert last in out;
    assert NonEmpty(last);
    forall i | 0 <= i < |out| ensures out[i].end <= x.start {
      assert i < |out| - 1 ==> out[i].end <= last.start;
    }
  }

  lemma StepOpens(out: seq<Span>, s: seq<Span>, x: Span)
    requires out != [] && Components(out, s) && AllNonEmpty(s) && NonEmpty(x)
    requires out[|out| - 1].end <= x.start
    ensures Components(out + [x], s + [x])
  {
    var r, s' := out + [x], s + [x];
    forall y | y in s' ensures Housed(r, y) {
      if y in s {
        assert Housed(out, y);
        var k :| 0 <= k < |out| && Within(y, out[k]);
        assert r[k] == out[k];
      } else {
        assert r[|out|] == x;
      }
    }
    ApartSnoc(out, x);
    forall k | 0 <= k < |r| ensures Component(r[k], s') {
      if k < |out| {
        assert r[k].end <= r[|out|].start;
        OldComponent(out, s, x, k);
      } else {
        NewComponent(out, s, x);
      }
    }
  }

  /** A span that starts after every component ends is a component of its own. */
  lemma NewComponent(out: seq<Span>, s: seq<Span>, x: Span)
    requires out != [] && Components(out, s) && AllNonEmpty(s) && NonEmpty(x)
    requires out[|out| - 1].end <= x.start
    ensures Component(x, s + [x])
  {
    var s' := s + [x];
    assert x in s' && Within(x, x);
    forall y | y in s ensures !Within(y, x) {
      assert Housed(out, y);
      var j :| 0 <= j < |out| && Within(y, out[j]);
      var last := out[|out| - 1];
      assert last in out && NonEmpty(last) && NonEmpty(y);
      assert j < |out| - 1 ==> out[j].end <= last.start;
    }
    ConnectedSelf(s', x);
  }

  /** A span that starts after component k ends leaves it a component. */
  lemma OldComponent(out: seq<Span>, s: seq<Span>, x: Span, k: nat)
    requires Components(out, s) && k < |out| && NonEmpty(x)
    requires out[k].end <= x.start
    ensures Component(out[k], s + [x])
  {
    var s', m := s + [x], out[k];
    assert Component(m, s);
    assert forall y :: y in s ==> y in s';
    forall y | y in s' && Within(y, m) ensures y in s {}
    forall y, z | y in s' && z in s' && Within(y, m) && Within(z, m) ensures Connected(s', y, z) {
      ConnectedMonotone(s, s', y, z);
    }
  }

  /** Absorbing widens the last result only: what had a home keeps it, and x has one. */
  lemma AbsorbHouses(out: seq<Span>, s: seq<Span>, x: Span)
    requires out != [] && Components(out, s) && NonEmpty(x)
    requires out[|out| - 1].start <= x.start < out[|out| - 1].end
    ensures Apart(Step(out, x)) && AllNonEmpty(Step(out, x))
    ensures forall y {:trigger Housed(Step(out, x), y)} :: y in s + [x] ==> Housed(Step(out, x), y)
  {
    var n := |out| - 1;
    var r := Step(out, x);
    assert r[n] == Absorb(out[n], x) && out[n] in out;
    forall y | y in s + [x] ensures Housed(r, y) {
      if y in s {
        assert Housed(out, y);
        var k :| 0 <= k < |out| && Within(y, out[k]);
        assert Within(y, r[k]);
      } else {
        assert Within(x, r[n]);
      }
    }
  }

  lemma StepAbsorbs(out: seq<Span>, s: seq<Span>, x: Span)
    requires out != [] && Components(out, s) && AllNonEmpty(s) && NonEmpty(x)
    requires out[|out| - 1].start <= x.start < out[|out| - 1].end
    requires forall y :: y in s ==> y.start <= x.start
    ensures Components(Step(out, x), s + [x])
  {
    var n := |out| - 1;
    var r, s', last := Step(out, x), s + [x], out[n];
    AbsorbHouses(out, s, x);
    WidenedComponent(out, s, x);
    forall k | 0 <= k < |r| ensures Component(r[k], s') {
      if k < n {
        assert out[k].end <= last.start;
        OldComponent(out, s, x, k);
      }
    }
  }

  /** The members of the widened component are those of the old one, and x. */
  lemma WidenedMembers(out: seq<Span>, s: seq<Span>, x: Span, y: Span)
    requires out != [] && Components(out, s) && NonEmpty(y) && y in s
    requires Within(y, Absorb(out[|out| - 1], x))
    ensures Within(y, out[|out| - 1])
  {
    var n := |out| - 1;
    assert forall j :: 0 <= j < n ==> out[j].end <= out[n].start;
    assert Housed(out, y);
    var k :| 0 <= k < |out| && Within(y, out[k]);
  }

  /** The member that reaches furthest right overlaps x, and through it every member does. */
  lemma WidenedConnected(last: Span, s: seq<Span>, x: Span, y: Span)
    requires Component(last, s) && NonEmpty(x)
    requires last.start <= x.start < last.end
    requires forall z :: z in s ==> z.start <= x.start
    requires y == x || (y in s && Within(y, last))
    ensures Connected(s + [x], y, x)
  {
    var s' := s + [x];
    assert x in s';
    if y == x {
      ConnectedSelf(s', x);
    } else {
      var e :| e in s && Within(e, last) && e.end == last.end;
      assert e in s' && Overlap(e, x);
      ConnectedLink(s', e, x);
      assert Connected(s, y, e);
      ConnectedMonotone(s, s', y, e);
      ConnectedTransitive(s', y, e, x);
    }
  }

  lemma WidenedComponent(out: seq<Span>, s: seq<Span>, x: Span)
    requires out != [] && Components(out, s) && AllNonEmpty(s) && NonEmpty(x)
    requires out[|out| - 1].start <= x.start < out[|out| - 1].end
    requires forall y :: y in s ==> y.start <= x.start
    ensures Component(Absorb(out[|out| - 1], x), s + [x])
  {
    var s', last := s + [x], out[|out| - 1];
    var m := Absorb(last, x);
    assert Component(last, s);
    assert x in s' && Within(x, m);
    forall y | y in s' && Within(y, m) ensures y == x || (y in s && Within(y, last)) {
      if y in s { WidenedMembers(out, s, x, y); }
    }
    forall y, z | y in s' && z in s' && Within(y, m) && Within(z, m) ensures Connected(s', y, z) {
      WidenedConnected(last, s, x, y);
      WidenedConnected(last, s, x, z);
      ConnectedSymmetric(s', z, x);
      ConnectedTransitive(s', y, x, z);
    }
    WidenedExtent(last, s, x);
  }

  lemma WidenedExtent(last: Span, s: seq<Span>, x: Span)
    requires Component(last, s) && last.start <= x.start
    ensures var s', m := s + [x], Absorb(last, x);
      && (exists y {:trigger Within(y, m)} :: y in s' && Within(y, m) && y.start == m.start)
      && (exists y {:trigger Within(y, m)} :: y in s' && Within(y, m) && y.end == m.end)
      && (exists y {:trigger Within(y, m)} :: y in s' && Within(y, m) && SameClaim(y, m))
  {
    var s', m := s + [x], Absorb(last, x);
    assert x in s' && Within(x, m);
    var b :| b in s && Within(b, last) && b.start == last.start;
    assert b in s' && Within(b, m);
    var e :| e in s && Within(e, last) && e.end == last.end;
    assert e in s' && Within(e, m);
    var c :| c in s && Within(c, last) && SameClaim(c, last);
    assert c in s' && Within(c, m);
  }

  lemma {:induction false} CompactComponents(out: seq<Span>, s: seq<Span>, rest: seq<Span>)
    requires out != [] && Components(out, s)
    requires AllNonEmpty(s + rest) && Ordered(Before, s + rest)
    ensures Components(Compact(out, rest), s + rest)
    decreases |rest|
  {
    if rest == [] {
      assert s + rest == s;
    } else {
      var x := rest[0];
      var all := s + rest;
      assert x == all[|s|] && x in all;
      assert all == (s + [x]) + rest[1..];
      forall y | y in s ensures NonEmpty(y) && y.start <= x.start {
        var j :| 0 <= j < |s| && s[j] == y;
        assert all[j] == y && Before(all[j], all[|s|]);
        assert y in all;
      }
      var last := out[|out| - 1];
      assert Component(last, s);
      var b :| b in s && Within(b, last) && b.start == last.start;
      if x.start >= last.end {
        StepOpens(out, s, x);
      } else {
        StepAbsorbs(out, s, x);
      }
      CompactComponents(Step(out, x), s + [x], rest[1..]);
    }
  }

  lemma SingleComponent(x: Span)
    requires NonEmpty(x)
    ensures Components([x], [x])
  {
    ConnectedSelf([x], x);
    assert x in [x] && Within(x, x);
    assert Component([x][0], [x]);
    assert Housed([x], x);
  }

  lemma ComponentsSameMembers(r: seq<Span>, s: seq<Span>, s': seq<Span>)
    requires Components(r, s)
    requires forall x :: x in s <==> x in s'
    ensures Components(r, s')
  {
    forall k | 0 <= k < |r| ensures Component(r[k], s') {
      assert Component(r[k], s);
      forall y, z | y in s' && z in s' && Within(y, r[k]) && Within(z, r[k]) ensures Connected(s', y, z) {
        ConnectedMonotone(s, s', y, z);
      }
    }
  }

  lemma ArrangedComponents(s: seq<Span>, t: seq<Span>, r: seq<Span>)
    requires AllNonEmpty(s) && Arrangement(Before, t, s) && |t| >= 1 && r == Compact(t[..1], t[1..])
    ensures Components(r, s)
  {
    ArrangementMembers(Before, t, s);
    assert t[..1] == [t[0]] && t[0] in t;
    assert t[..1] + t[1..] == t;
    SingleComponent(t[0]);
    CompactComponents(t[..1], t[..1], t[1..]);
    ComponentsSameMembers(r, t, s);
  }

  /**
   * For non-empty spans the result of a merge lists the connected components of the
   * overlap graph, each with its exact extent, its highest confidence and the type and
   * detector of a member that attains it, whatever order the sort left equal spans in.
   */
  lemma MergeComponents(s: seq<Span>, r: seq<Span>)
    requires AllNonEmpty(s) && MergeOf(s, r)
    ensures Components(r, s)
  {
    if |s| == 1 {
      assert s == [s[0]] && s[0] in s;
      SingleComponent(s[0]);
    } else if |s| >= 2 {
      var t: seq<Span> :| Arrangement(Before, t, s) && |t| >= 1 && r == Compact(t[..1], t[1..]);
      ArrangedComponents(s, t, r);
    }
  }

  // ---- whose claim wins ----

  /** m carries the claim of the member that sorts first among those of its top confidence. */
  ghost predicate FirstTop(m: Span, s: seq<Span>) {
    exists x {:trigger Leads(x, m, s)} :: Leads(x, m, s)
  }

  ghost predicate Leads(x: Span, m: Span, s: seq<Span>) {
    && x in s && Within(x, m) && SameClaim(x, m)
    && forall y {:trigger Within(y, m)} :: y in s && Within(y, m) && y.confidence >= x.confidence ==> Before(x, y)
  }

  ghost predicate AllFirstTop(out: seq<Span>, s: seq<Span>) {
    forall k {:trigger FirstTop(out[k], s)} :: 0 <= k < |out| ==> FirstTop(out[k], s)
  }

  /** A span that starts after a result ends, or at its start's right, changes nothing in it. */
  lemma FirstTopKept(m: Span, s: seq<Span>, x: Span)
    requires FirstTop(m, s) && m.end <= x.start && NonEmpty(x)
    ensures FirstTop(m, s + [x])
  {
    var w :| Leads(w, m, s);
    assert Leads(w, m, s + [x]);
  }

  lemma FirstTopOpens(out: seq<Span>, s: seq<Span>, x: Span)
    requires out != [] && Components(out, s) && AllNonEmpty(s) && NonEmpty(x) && AllFirstTop(out, s)
    requires out[|out| - 1].end <= x.start
    ensures AllFirstTop(out + [x], s + [x])
  {
    var r, s' := out + [x], s + [x];
    ApartSnoc(out, x);
    forall k | 0 <= k < |r| ensures FirstTop(r[k], s') {
      if k < |out| {
        assert r[k].end <= r[|out|].start;
        assert FirstTop(out[k], s);
        FirstTopKept(out[k], s, x);
      } else {
        forall y | y in s ensures !Within(y, x) { OutsideNew(out, s, x, y); }
        assert Leads(x, x, s');
      }
    }
  }

  lemma OutsideNew(out: seq<Span>, s: seq<Span>, x: Span, y: Span)
    requires out != [] && Components(out, s) && NonEmpty(y) && y in s && out[|out| - 1].end <= x.start
    ensures !Within(y, x)
  {
    var last := out[|out| - 1];
    assert last in out && NonEmpty(last) && Housed(out, y);
    var j :| 0 <= j < |out| && Within(y, out[j]);
    assert j < |out| - 1 ==> out[j].end <= last.start;
  }

  lemma FirstTopAbsorbs(out: seq<Span>, s: seq<Span>, x: Span)
    requires out != [] && Components(out, s) && AllNonEmpty(s) && NonEmpty(x) && AllFirstTop(out, s)
    requires out[|out| - 1].start <= x.start < out[|out| - 1].end
    requires forall y :: y in s ==> Before(y, x)
    ensures AllFirstTop(Step(out, x), s + [x])
  {
    var n := |out| - 1;
    var r, last := Step(out, x), out[n];
    forall k | 0 <= k < |r| ensures FirstTop(r[k], s + [x]) {
      assert FirstTop(out[k], s);
      if k < n {
        assert out[k].end <= last.start;
        FirstTopKept(out[k], s, x);
      } else {
        WidenedFirstTop(out, s, x);
      }
    }
  }

  lemma WidenedFirstTop(out: seq<Span>, s: seq<Span>, x: Span)
    requires out != [] && Components(out, s) && AllNonEmpty(s) && NonEmpty(x) && FirstTop(out[|out| - 1], s)
    requires out[|out| - 1].start <= x.start && forall y :: y in s ==> Before(y, x)
    ensures FirstTop(Absorb(out[|out| - 1], x), s + [x])
  {
    var last := out[|out| - 1];
    var m := Absorb(last, x);
    var w :| Leads(w, last, s);
    assert Component(last, s);
    forall y | y in s && Within(y, m) ensures Within(y, last) && y.confidence <= last.confidence {
      WidenedMembers(out, s, x, y);
    }
    if x.confidence > last.confidence {
      assert Leads(x, m, s + [x]);
    } else {
      assert Leads(w, m, s + [x]);
    }
  }

  lemma {:induction false} CompactFirstTop(out: seq<Span>, s: seq<Span>, rest: seq<Span>)
    requires out != [] && Components(out, s) && AllFirstTop(out, s)
    requires AllNonEmpty(s + rest) && Ordered(Before, s + rest)
    ensures AllFirstTop(Compact(out, rest), s + rest)
    decreases |rest|
  {
    if rest == [] {
      assert s + rest == s;
    } else {
      var x := rest[0];
      SortedNext(s, rest);
      var last := out[|out| - 1];
      assert Component(last, s);
      var b :| b in s && Within(b, last) && b.start == last.start;
      if x.start >= last.end {
        StepOpens(out, s, x);
        FirstTopOpens(out, s, x);
      } else {
        StepAbsorbs(out, s, x);
        FirstTopAbsorbs(out, s, x);
      }
      assert s + rest == (s + [x]) + rest[1..];
      CompactFirstTop(Step(out, x), s + [x], rest[1..]);
    }
  }

  lemma SortedNext(s: seq<Span>, rest: seq<Span>)
    requires rest != [] && AllNonEmpty(s + rest) && Ordered(Before, s + rest)
    ensures AllNonEmpty(s) && NonEmpty(rest[0]) && forall y :: y in s ==> Before(y, rest[0])
  {
    var all := s + rest;
    assert all[|s|] == rest[0] && rest[0] in all;
    forall y | y in s ensures NonEmpty(y) && Before(y, rest[0]) {
      var j :| 0 <= j < |s| && s[j] == y;
      assert all[j] == y && y in all;
    }
  }

  lemma FirstTopSameMembers(m: Span, s: seq<Span>, s': seq<Span>)
    requires FirstTop(m, s) && forall x :: x in s <==> x in s'
    ensures FirstTop(m, s')
  {
    var w :| Leads(w, m, s);
    assert Leads(w, m, s');
  }

  /**
   * Ties are settled by the sort: each merged span has the type and detector of the member that
   * comes first, earlier start or else longer, among its members of highest confidence.
   */
  lemma MergeKeepsFirstTop(s: seq<Span>, r: seq<Span>)
    requires AllNonEmpty(s) && MergeOf(s, r)
    ensures AllFirstTop(r, s)
  {
    if |s| == 1 {
      assert s[0] in s && Leads(s[0], s[0], s);
    } else if |s| >= 2 {
      var t: seq<Span> :| Arrangement(Before, t, s) && |t| >= 1 && r == Compact(t[..1], t[1..]);
      ArrangedFirstTop(s, t, r);
    }
  }

  lemma ArrangedFirstTop(s: seq<Span>, t: seq<Span>, r: seq<Span>)
    requires AllNonEmpty(s) && Arrangement(Before, t, s) && |t| >= 1 && r == Compact(t[..1], t[1..])
    ensures AllFirstTop(r, s)
  {
    ArrangementMembers(Before, t, s);
    assert t[..1] == [t[0]] && t[0] in t && t[..1] + t[1..] == t;
    SingleComponent(t[0]);
    assert t[0] in t[..1] && Leads(t[0], t[0], t[..1]);
    CompactFirstTop(t[..1], t[..1], t[1..]);
    forall k | 0 <= k < |r| ensures FirstTop(r[k], s) {
      assert FirstTop(r[k], t);
      FirstTopSameMembers(r[k], t, s);
    }
  }

  /** No span has two homes. */
  lemma HomeUnique(r: seq<Span>, x: Span, j: nat, k: nat)
    requires Apart(r) && NonEmpty(x) && j < |r| && k < |r|
    requires Within(x, r[j]) && Within(x, r[k])
    ensures j == k
  {
  }

  lemma {:induction false} PathStaysHome(p: seq<Span>, s: seq<Span>, x: Span, y: Span, r: seq<Span>, k: nat)
    requires Components(r, s) && AllNonEmpty(s) && k < |r|
    requires Path(p, s, x, y) && Within(x, r[k])
    ensures Within(y, r[k])
    decreases |p|
  {
    if |p| <= 1 {
    } else {
      var z := p[1];
      assert z in s && Overlap(p[0], p[1]);
      assert Housed(r, z);
      var j :| 0 <= j < |r| && Within(z, r[j]);
      assert NonEmpty(x) && NonEmpty(z);
      assert j == k;
      assert Path(p[1..], s, z, y) by {
        forall i | 0 <= i < |p[1..]| - 1 ensures Overlap(p[1..][i], p[1..][i + 1]) {
          assert Overlap(p[i + 1], p[i + 2]);
        }
      }
      PathStaysHome(p[1..], s, z, y, r, k);
    }
  }

  /**
   * One-to-one: two input spans end up in the same merged span exactly when a chain of
   * overlaps joins them, and every merged span houses at least one input span.
   */
  lemma MergeJoinsExactlyConnected(s: seq<Span>, r: seq<Span>, x: Span, y: Span, k: nat)
    requires AllNonEmpty(s) && MergeOf(s, r) && x in s && y in s
    requires k < |r| && Within(x, r[k])
    ensures Within(y, r[k]) <==> Connected(s, x, y)
    ensures forall j :: 0 <= j < |r| && j != k ==> !Within(x, r[j])
  {
    MergeComponents(s, r);
    assert Component(r[k], s);
    if Connected(s, x, y) {
      var p :| Path(p, s, x, y);
      PathStaysHome(p, s, x, y, r, k);
    }
    forall j | 0 <= j < |r| && j != k ensures !Within(x, r[j]) {
      assert NonEmpty(x);
      if Within(x, r[j]) { HomeUnique(r, x, j, k); }
    }
  }
}
