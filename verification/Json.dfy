/** Decoded JSON documents, locations in them, and rewriting one string in place. */
module Json {
  import opened Common

  /** A decoded value. Num is a whole number; Opaque stands for a boolean or any other number. */
  datatype Json =
    | Str(text: string)
    | Obj(members: map<string, Json>)
    | Arr(items: seq<Json>)
    | Num(n: int)
    | Null
    | Opaque(raw: int)

  /** One step into a container. */
  datatype Key = Field(name: string) | Index(at: nat)

  /** Where a value stands: the steps from the root. */
  type Loc = seq<Key>

  predicate HasChild(v: Json, k: Key) {
    match k
    case Field(name) => v.Obj? && name in v.members
    case Index(at) => v.Arr? && at < |v.items|
  }

  function Child(v: Json, k: Key): (c: Json)
    requires HasChild(v, k)
    ensures c < v
  {
    match k
    case Field(name) => v.members[name]
    case Index(at) => v.items[at]
  }

  function WithChild(v: Json, k: Key, c: Json): Json
    requires HasChild(v, k)
  {
    match k
    case Field(name) => Obj(v.members[name := c])
    case Index(at) => Arr(v.items[at := c])
  }

  /** The value at a location, if the document has that location. */
  function Get(v: Json, loc: Loc): Option<Json> {
    if loc == [] then Some(v)
    else if HasChild(v, loc[0]) then Get(Child(v, loc[0]), loc[1..])
    else None
  }

  predicate IsLeaf(v: Json, loc: Loc) { Get(v, loc).Some? && Get(v, loc).value.Str? }

  function LeafText(v: Json, loc: Loc): string
    requires IsLeaf(v, loc)
  {
    Get(v, loc).value.text
  }

  /** The document with the string at loc replaced; unchanged if there is no string there. */
  function Put(v: Json, loc: Loc, text: string): Json {
    if loc == [] then (if v.Str? then Str(text) else v)
    else if HasChild(v, loc[0]) then WithChild(v, loc[0], Put(Child(v, loc[0]), loc[1..], text))
    else v
  }

  /** What can be seen of a document at one location, its children aside. */
  datatype Shape =
    | Absent
    | Text(text: string)
    | Fields(names: set<string>)
    | Length(n: nat)
    | Number(value: int)
    | Nil
    | Other(raw: int)

  function ShapeOf(v: Json): Shape {
    match v
    case Str(s) => Text(s)
    case Obj(m) => Fields(m.Keys)
    case Arr(a) => Length(|a|)
    case Num(n) => Number(n)
    case Null => Nil
    case Opaque(n) => Other(n)
  }

  function ShapeAt(v: Json, loc: Loc): Shape {
    match Get(v, loc)
    case None => Absent
    case Some(c) => ShapeOf(c)
  }

  /** The shape with its text replaced, if it is a string and loc has a new text. */
  function Retext(s: Shape, texts: map<Loc, string>, loc: Loc): Shape {
    if s.Text? && loc in texts then Text(texts[loc]) else s
  }

  /**
   * d' is d with the texts put in: the same locations, the same containers and non-strings,
   * and every string either replaced as asked or left alone.
   */
  ghost predicate Rewritten(d: Json, texts: map<Loc, string>, d': Json) {
    forall loc: Loc {:trigger ShapeAt(d', loc)} :: ShapeAt(d', loc) == Retext(ShapeAt(d, loc), texts, loc)
  }

  /** v' differs from v only in the texts of strings at locations in where. */
  ghost predicate SameButTexts(v: Json, v': Json, at: iset<Loc>) {
    forall loc: Loc {:trigger ShapeAt(v', loc)} ::
      if loc in at && ShapeAt(v, loc).Text? then ShapeAt(v', loc).Text? else ShapeAt(v', loc) == ShapeAt(v, loc)
  }

  lemma ShapeBelow(v: Json, k: Key, loc: Loc)
    ensures ShapeAt(v, [k] + loc) == if HasChild(v, k) then ShapeAt(Child(v, k), loc) else Absent
  {
    assert ([k] + loc)[0] == k && ([k] + loc)[1..] == loc;
  }

  /** Documents that look the same everywhere are the same. */
  lemma {:induction false} Extensional(v: Json, v': Json)
    requires forall loc: Loc {:trigger ShapeAt(v', loc)} :: ShapeAt(v', loc) == ShapeAt(v, loc)
    ensures v == v'
    decreases v
  {
    assert ShapeAt(v', []) == ShapeAt(v, []);
    assert ShapeOf(v') == ShapeOf(v);
    if v.Obj? {
      forall name | name in v.members ensures v.members[name] == v'.members[name] {
        ChildrenSame(v, v', Field(name));
        Extensional(Child(v, Field(name)), Child(v', Field(name)));
      }
      assert v.members == v'.members;
    } else if v.Arr? {
      forall i | 0 <= i < |v.items| ensures v.items[i] == v'.items[i] {
        ChildrenSame(v, v', Index(i));
        Extensional(Child(v, Index(i)), Child(v', Index(i)));
      }
      assert v.items == v'.items;
    }
  }

  lemma ChildrenSame(v: Json, v': Json, k: Key)
    requires HasChild(v, k) && HasChild(v', k)
    requires forall loc: Loc {:trigger ShapeAt(v', loc)} :: ShapeAt(v', loc) == ShapeAt(v, loc)
    ensures forall loc: Loc {:trigger ShapeAt(Child(v', k), loc)} ::
              ShapeAt(Child(v', k), loc) == ShapeAt(Child(v, k), loc)
  {
    forall loc: Loc ensures ShapeAt(Child(v', k), loc) == ShapeAt(Child(v, k), loc) {
      ShapeBelow(v, k, loc);
      ShapeBelow(v', k, loc);
      assert ShapeAt(v', [k] + loc) == ShapeAt(v, [k] + loc);
    }
  }

  /** What a rewriting asks for determines its result. */
  lemma RewrittenUnique(d: Json, texts: map<Loc, string>, d': Json, d'': Json)
    requires Rewritten(d, texts, d') && Rewritten(d, texts, d'')
    ensures d' == d''
  {
    forall loc: Loc ensures ShapeAt(d'', loc) == ShapeAt(d', loc) {}
    Extensional(d', d'');
  }

  lemma {:induction false} PutShape(v: Json, loc: Loc, text: string, q: Loc)
    ensures ShapeAt(Put(v, loc, text), q) == Retext(ShapeAt(v, q), map[loc := text], q)
    decreases |loc|
  {
    if loc == [] {
      if q != [] && v.Str? {
        assert !HasChild(Str(text), q[0]);
      }
    } else if HasChild(v, loc[0]) {
      var k, c := loc[0], Child(v, loc[0]);
      var c' := Put(c, loc[1..], text);
      var v' := WithChild(v, k, c');
      assert ShapeOf(v') == ShapeOf(v);
      if q != [] {
        assert HasChild(v', q[0]) <==> HasChild(v, q[0]);
        if q[0] == k {
          assert Child(v', k) == c';
          PutShape(c, loc[1..], text, q[1..]);
          assert q == [k] + q[1..] && loc == [k] + loc[1..];
        } else if HasChild(v, q[0]) {
          assert Child(v', q[0]) == Child(v, q[0]);
        }
      }
    } else if q == loc {
      assert ShapeAt(v, q) == Absent;
    }
  }

  /** Putting one string rewrites that string and nothing else. */
  lemma PutRewrites(d: Json, loc: Loc, text: string)
    ensures Rewritten(d, map[loc := text], Put(d, loc, text))
  {
    forall q: Loc ensures ShapeAt(Put(d, loc, text), q) == Retext(ShapeAt(d, q), map[loc := text], q) {
      PutShape(d, loc, text, q);
    }
  }

  /** Rewriting twice is rewriting once, the later texts winning. */
  lemma RewrittenCompose(d: Json, texts: map<Loc, string>, d': Json, loc: Loc, text: string)
    requires Rewritten(d, texts, d')
    ensures Rewritten(d, texts[loc := text], Put(d', loc, text))
  {
    forall q: Loc ensures ShapeAt(Put(d', loc, text), q) == Retext(ShapeAt(d, q), texts[loc := text], q) {
      PutShape(d', loc, text, q);
      assert ShapeAt(d', q) == Retext(ShapeAt(d, q), texts, q);
    }
  }

  lemma RewrittenNothing(d: Json)
    ensures Rewritten(d, map[], d)
  {
  }

  lemma RewrittenKeepsTheRest(d: Json, texts: map<Loc, string>, d': Json)
    requires Rewritten(d, texts, d')
    ensures SameButTexts(d, d', iset loc | loc in texts)
  {
  }
}
