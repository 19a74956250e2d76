/** Lists of located text fields, as the body walkers build them. */
module Fields {
  import opened Json

  /** One located text-bearing field: where it stands and what it says. */
  datatype TextField = TextField(loc: Loc, text: string)

  predicate DistinctLocs(fields: seq<TextField>) {
    forall i, j :: 0 <= i < j < |fields| ==> fields[i].loc != fields[j].loc
  }

  predicate Reads(v: Json, f: TextField) { IsLeaf(v, f.loc) && LeafText(v, f.loc) == f.text }

  ghost predicate Lists(fields: seq<TextField>, loc: Loc) {
    exists i :: 0 <= i < |fields| && fields[i].loc == loc
  }

  /** fields lists each location in at once, with the string that stands there. */
  ghost predicate Walks(v: Json, fields: seq<TextField>, at: iset<Loc>) {
    && DistinctLocs(fields)
    && (forall i :: 0 <= i < |fields| ==> fields[i].loc in at && Reads(v, fields[i]))
    && (forall loc {:trigger Lists(fields, loc)} :: loc in at ==> Lists(fields, loc))
  }

  function Lift(k: Key, fields: seq<TextField>): (r: seq<TextField>)
    ensures |r| == |fields| && forall i :: 0 <= i < |r| ==> r[i] == TextField([k] + fields[i].loc, fields[i].text)
  {
    seq(|fields|, i requires 0 <= i < |fields| => TextField([k] + fields[i].loc, fields[i].text))
  }

  ghost function Under(k: Key, at: iset<Loc>): iset<Loc> {
    iset loc: Loc | loc != [] && loc[0] == k && loc[1..] in at
  }

  lemma WalksHere(v: Json)
    requires v.Str?
    ensures Walks(v, [TextField([], v.text)], iset{[]})
  {
    assert Lists([TextField([], v.text)], []) by { assert [TextField([], v.text)][0].loc == []; }
  }

  lemma WalksUnder(v: Json, k: Key, fields: seq<TextField>, at: iset<Loc>)
    requires HasChild(v, k) && Walks(Child(v, k), fields, at)
    ensures Walks(v, Lift(k, fields), Under(k, at))
  {
    var r := Lift(k, fields);
    forall i | 0 <= i < |r| ensures r[i].loc in Under(k, at) && Reads(v, r[i]) {
      assert Reads(Child(v, k), fields[i]);
      assert r[i].loc[0] == k && r[i].loc[1..] == fields[i].loc;
    }
    forall i, j | 0 <= i < j < |r| ensures r[i].loc != r[j].loc {
      assert r[i].loc[1..] == fields[i].loc && r[j].loc[1..] == fields[j].loc;
    }
    forall loc | loc in Under(k, at) ensures Lists(r, loc) {
      assert Lists(fields, loc[1..]);
      var i :| 0 <= i < |fields| && fields[i].loc == loc[1..];
      assert r[i].loc == loc;
    }
  }

  lemma WalksBoth(v: Json, a: seq<TextField>, at: iset<Loc>, b: seq<TextField>, bt: iset<Loc>)
    requires Walks(v, a, at) && Walks(v, b, bt) && at !! bt
    ensures Walks(v, a + b, at + bt)
  {
    var r := a + b;
    forall i, j | 0 <= i < j < |r| ensures r[i].loc != r[j].loc {
      if i < |a| <= j {
        assert r[i].loc in at && r[j].loc in bt;
      }
    }
    forall loc | loc in at + bt ensures Lists(r, loc) {
      if loc in at {
        assert Lists(a, loc);
        var i :| 0 <= i < |a| && a[i].loc == loc;
        assert r[i].loc == loc;
      } else {
        assert Lists(b, loc);
        var i :| 0 <= i < |b| && b[i].loc == loc;
        assert r[|a| + i].loc == loc;
      }
    }
  }

  /** One more child walked: the fields of v below k join those already found. */
  lemma WalksMore(v: Json, fields: seq<TextField>, at: iset<Loc>, k: Key, sub: seq<TextField>, below: iset<Loc>)
    requires Walks(v, fields, at) && HasChild(v, k) && Walks(Child(v, k), sub, below)
    requires forall loc :: loc in at && loc != [] ==> loc[0] != k
    ensures Walks(v, fields + Lift(k, sub), at + Under(k, below))
  {
    WalksUnder(v, k, sub, below);
    WalksBoth(v, fields, at, Lift(k, sub), Under(k, below));
  }

  // ---- running the setters ----

  /** Runs the setters of the listed fields, each with its new text, in list order. */
  function PutAll(d: Json, fields: seq<TextField>): Json {
    if fields == [] then d
    else Put(PutAll(d, fields[..|fields| - 1]), fields[|fields| - 1].loc, fields[|fields| - 1].text)
  }

  function TextsOf(fields: seq<TextField>): map<Loc, string> {
    if fields == [] then map[]
    else TextsOf(fields[..|fields| - 1])[fields[|fields| - 1].loc := fields[|fields| - 1].text]
  }

  lemma {:induction false} PutAllRewrites(d: Json, fields: seq<TextField>)
    ensures Rewritten(d, TextsOf(fields), PutAll(d, fields))
  {
    if fields == [] {
    } else {
      var front, f := fields[..|fields| - 1], fields[|fields| - 1];
      PutAllRewrites(d, front);
      RewrittenCompose(d, TextsOf(front), PutAll(d, front), f.loc, f.text);
    }
  }

  lemma {:induction false} TextsOfMember(fields: seq<TextField>, loc: Loc, text: string)
    requires DistinctLocs(fields)
    ensures (loc in TextsOf(fields) && TextsOf(fields)[loc] == text) <==> TextField(loc, text) in fields
  {
    if fields == [] {
    } else {
      var front, f := fields[..|fields| - 1], fields[|fields| - 1];
      assert fields == front + [f];
      TextsOfMember(front, loc, text);
      forall i | 0 <= i < |front| ensures front[i].loc != f.loc {
        assert fields[i].loc != fields[|front|].loc;
      }
    }
  }

  /** Setters of distinct fields can be run in any order: the document comes out the same. */
  lemma SettersCommute(d: Json, a: seq<TextField>, b: seq<TextField>)
    requires DistinctLocs(a) && DistinctLocs(b) && multiset(a) == multiset(b)
    ensures PutAll(d, a) == PutAll(d, b)
  {
    forall loc: Loc
      ensures (loc in TextsOf(a) <==> loc in TextsOf(b)) && (loc in TextsOf(a) ==> TextsOf(a)[loc] == TextsOf(b)[loc])
    {
      if loc in TextsOf(a) { SameText(a, b, loc); }
      if loc in TextsOf(b) { SameText(b, a, loc); }
    }
    assert TextsOf(a) == TextsOf(b);
    PutAllRewrites(d, a);
    PutAllRewrites(d, b);
    RewrittenUnique(d, TextsOf(a), PutAll(d, a), PutAll(d, b));
  }

  lemma SameText(a: seq<TextField>, b: seq<TextField>, loc: Loc)
    requires DistinctLocs(a) && DistinctLocs(b) && multiset(a) == multiset(b) && loc in TextsOf(a)
    ensures loc in TextsOf(b) && TextsOf(b)[loc] == TextsOf(a)[loc]
  {
    var text := TextsOf(a)[loc];
    TextsOfMember(a, loc, text);
    assert TextField(loc, text) in multiset(a);
    assert TextField(loc, text) in b;
    TextsOfMember(b, loc, text);
  }
}
