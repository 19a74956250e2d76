/**
 * The body walkers (internal/gateway/adapter_anthropic.go, adapter_openai.go): which strings
 * of a request body are located as text-bearing fields.
 */
module Walkers {
  import opened Json
  import opened Fields

  const MAX_WALK_DEPTH := 32

  predicate FieldIs(v: Json, name: string, text: string) {
    v.Obj? && name in v.members && v.members[name] == Str(text)
  }

  // ---- which locations count, stated over locations ----

  /** A string below v, under containers no deeper than the bound allows. */
  predicate InTree(v: Json, loc: Loc, depth: nat)
    decreases |loc|
  {
    && depth <= MAX_WALK_DEPTH && loc != [] && HasChild(v, loc[0])
    && var c := Child(v, loc[0]);
      if c.Str? then loc[1..] == [] else InTree(c, loc[1..], depth + 1)
  }

  predicate InStringField(v: Json, name: string, loc: Loc) {
    loc == [Field(name)] && HasChild(v, Field(name)) && Child(v, Field(name)).Str?
  }

  /** A content value: a string itself, or an array of blocks. */
  predicate InContent(v: Json, loc: Loc)
    decreases |loc|, 0
  {
    if v.Str? then loc == []
    else
      v.Arr? && loc != [] && HasChild(v, loc[0]) && InBlock(Child(v, loc[0]), loc[1..])
  }

  predicate InBlock(b: Json, loc: Loc)
    decreases |loc|, 1
  {
    if FieldIs(b, "type", "text") then InStringField(b, "text", loc)
    else if FieldIs(b, "type", "tool_result") then
      loc != [] && loc[0] == Field("content") && HasChild(b, loc[0]) && InContent(Child(b, loc[0]), loc[1..])
    else if FieldIs(b, "type", "tool_use") then
      loc != [] && loc[0] == Field("input") && HasChild(b, loc[0]) && Child(b, loc[0]).Obj?
      && InTree(Child(b, loc[0]), loc[1..], 0)
    else if FieldIs(b, "type", "document") then
      InSource(b, loc) || InStringField(b, "title", loc) || InStringField(b, "context", loc)
    else false
  }

  /** The text of a document block's text source. */
  predicate InSource(b: Json, loc: Loc) {
    loc != [] && loc[0] == Field("source") && HasChild(b, loc[0])
    && FieldIs(Child(b, loc[0]), "type", "text") && InStringField(Child(b, loc[0]), "data", loc[1..])
  }

  /** A field of one message, whose content is a string or blocks. */
  predicate InMessage(m: Json, loc: Loc) {
    m.Obj? && loc != [] && loc[0] == Field("content") && HasChild(m, loc[0]) && InContent(Child(m, loc[0]), loc[1..])
  }

  predicate InAnthropic(doc: Json, loc: Loc) {
    && doc.Obj? && loc != [] && HasChild(doc, loc[0])
    && var c, rest := Child(doc, loc[0]), loc[1..];
      match loc[0]
      case Index(_) => false
      case Field(name) =>
        if name == "system" then InContent(c, rest)
        else if name == "messages" then
          c.Arr? && rest != [] && HasChild(c, rest[0]) && InMessage(Child(c, rest[0]), rest[1..])
        else if name == "tools" then
          c.Arr? && rest != [] && HasChild(c, rest[0]) && InStringField(Child(c, rest[0]), "description", rest[1..])
        else false
  }

  /** A string of a tool_use input is located exactly when few enough containers enclose it. */
  lemma {:induction false} TreeLocatedExactly(v: Json, loc: Loc, depth: nat)
    requires !v.Str?
    ensures InTree(v, loc, depth) <==> IsLeaf(v, loc) && depth + |loc| <= MAX_WALK_DEPTH + 1
    decreases |loc|
  {
    if loc == [] || !HasChild(v, loc[0]) {
    } else {
      var c := Child(v, loc[0]);
      assert Get(v, loc) == Get(c, loc[1..]);
      if c.Str? {
        assert loc[1..] != [] ==> !HasChild(c, loc[1..][0]);
      } else {
        TreeLocatedExactly(c, loc[1..], depth + 1);
      }
    }
  }

  // ---- the walkers ----

  ghost function TreeLocs(v: Json, depth: nat): iset<Loc> { iset loc: Loc | InTree(v, loc, depth) }

  ghost function ContentLocs(v: Json): iset<Loc> { iset loc: Loc | InContent(v, loc) }

  ghost function BlockLocs(b: Json): iset<Loc> { iset loc: Loc | InBlock(b, loc) }

  ghost function FieldLocs(v: Json, name: string): iset<Loc> { iset loc: Loc | InStringField(v, name, loc) }

  ghost function AnthropicLocs(doc: Json): iset<Loc> { iset loc: Loc | InAnthropic(doc, loc) }

  /** The part of at whose first step is one of the keys done so far. */
  ghost function Part(at: iset<Loc>, done: set<Key>): iset<Loc> {
    iset loc: Loc | loc in at && loc != [] && loc[0] in done
  }

  /** Walking the child at k extends the walked part of at by that key. */
  lemma PartStep(v: Json, fields: seq<TextField>, at: iset<Loc>, done: set<Key>, k: Key, sub: seq<TextField>,
                 below: iset<Loc>)
    requires Walks(v, fields, Part(at, done)) && k !in done
    requires HasChild(v, k) && Walks(Child(v, k), sub, below)
    requires forall loc: Loc :: [k] + loc in at <==> loc in below
    ensures Walks(v, fields + Lift(k, sub), Part(at, done + {k}))
  {
    WalksMore(v, fields, Part(at, done), k, sub, below);
    forall loc: Loc ensures loc in Part(at, done) + Under(k, below) <==> loc in Part(at, done + {k}) {
      if loc != [] && loc[0] == k { assert loc == [k] + loc[1..]; }
    }
    assert Part(at, done) + Under(k, below) == Part(at, done + {k});
  }

  /** A child with no located strings adds nothing. */
  lemma PartSkip(at: iset<Loc>, done: set<Key>, k: Key)
    requires forall loc: Loc :: [k] + loc !in at
    ensures Part(at, done + {k}) == Part(at, done)
  {
    forall loc: Loc ensures loc in Part(at, done + {k}) <==> loc in Part(at, done) {
      if loc != [] && loc[0] == k { assert loc == [k] + loc[1..]; }
    }
  }

  /** All keys done: the walked part is everything. */
  lemma PartAll(at: iset<Loc>, done: set<Key>)
    requires forall loc :: loc in at ==> loc != [] && loc[0] in done
    ensures Part(at, done) == at
  {
  }

  lemma Cons(k: Key, loc: Loc)
    ensures ([k] + loc)[0] == k && ([k] + loc)[1..] == loc
  {
  }

  /** stringField: one field if the object holds a string under the name. */
  method StringField(obj: Json, name: string) returns (fields: seq<TextField>)
    ensures Walks(obj, fields, FieldLocs(obj, name))
  {
    if obj.Obj? && name in obj.members && obj.members[name].Str? {
      fields := [TextField([Field(name)], obj.members[name].text)];
      assert fields[0].loc == [Field(name)];
      var k := Field(name);
      assert HasChild(obj, k) && Child(obj, k) == obj.members[name];
      assert [k][0] == k && [k][1..] == [];
      assert Get(obj, [k]) == Get(Child(obj, k), []);
      assert Reads(obj, fields[0]) && fields[0].loc in FieldLocs(obj, name);
      forall loc | loc in FieldLocs(obj, name) ensures Lists(fields, loc) {
        assert fields[0].loc == loc;
      }
    } else {
      fields := [];
      assert FieldLocs(obj, name) == iset{};
    }
  }

  lemma TreeBelow(v: Json, k: Key, depth: nat)
    requires HasChild(v, k) && depth <= MAX_WALK_DEPTH
    ensures var c, at := Child(v, k), TreeLocs(v, depth);
      && (c.Str? ==> forall loc: Loc :: [k] + loc in at <==> loc in iset{[]})
      && (!c.Str? ==> forall loc: Loc :: [k] + loc in at <==> loc in TreeLocs(c, depth + 1))
  {
    forall loc: Loc ensures [k] + loc in TreeLocs(v, depth) <==>
        if Child(v, k).Str? then loc == [] else loc in TreeLocs(Child(v, k), depth + 1) {
      Cons(k, loc);
    }
  }

  /** One child of a container: a string is a field, anything else is walked one level deeper. */
  method WalkJsonChild(c: Json, depth: nat) returns (fields: seq<TextField>)
    requires depth <= MAX_WALK_DEPTH
    ensures Walks(c, fields, if c.Str? then iset{[]} else TreeLocs(c, depth + 1))
    decreases c, 1
  {
    if c.Str? {
      fields := [TextField([], c.text)];
      WalksHere(c);
    } else {
      fields := WalkJsonStrings(c, depth + 1);
    }
  }

  /** Every string leaf of an arbitrary value; object members come in any order. */
  method WalkJsonStrings(v: Json, depth: nat) returns (fields: seq<TextField>)
    ensures Walks(v, fields, TreeLocs(v, depth))
    decreases v, 0
  {
    ghost var at := TreeLocs(v, depth);
    fields := [];
    if depth > MAX_WALK_DEPTH {
      assert at == iset{};
      return;
    }
    ghost var done: set<Key> := {};
    match v {
      case Obj(members) =>
        var todo := members.Keys;
        assert Part(at, done) == iset{};
        while todo != {}
          invariant todo <= members.Keys
          invariant done == set name | name in members.Keys - todo :: Field(name)
          invariant Walks(v, fields, Part(at, done))
        {
          var name :| name in todo;
          var k := Field(name);
          var sub := WalkJsonChild(Child(v, k), depth);
          TreeBelow(v, k, depth);
          PartStep(v, fields, at, done, k, sub, if Child(v, k).Str? then iset{[]}
                   else TreeLocs(Child(v, k), depth + 1));
          fields := fields + Lift(k, sub);
          done := done + {k};
          todo := todo - {name};
        }
        PartAll(at, done);
      case Arr(items) =>
        assert Part(at, done) == iset{};
        for i := 0 to |items|
          invariant done == set j | 0 <= j < i :: Index(j)
          invariant Walks(v, fields, Part(at, done))
        {
          var k := Index(i);
          var sub := WalkJsonChild(Child(v, k), depth);
          TreeBelow(v, k, depth);
          PartStep(v, fields, at, done, k, sub, if Child(v, k).Str? then iset{[]}
                   else TreeLocs(Child(v, k), depth + 1));
          fields := fields + Lift(k, sub);
          done := done + {k};
        }
        PartAll(at, done);
      case _ =>
        assert at == iset{};
    }
  }

  /** A string field of the object itself joins the walked part. */
  lemma PartField(v: Json, fields: seq<TextField>, at: iset<Loc>, done: set<Key>, name: string, sub: seq<TextField>)
    requires Walks(v, fields, Part(at, done)) && Field(name) !in done
    requires Walks(v, sub, FieldLocs(v, name))
    requires forall loc: Loc :: [Field(name)] + loc in at <==> [Field(name)] + loc in FieldLocs(v, name)
    ensures Walks(v, fields + sub, Part(at, done + {Field(name)}))
  {
    var k := Field(name);
    WalksBoth(v, fields, Part(at, done), sub, FieldLocs(v, name));
    forall loc: Loc ensures loc in Part(at, done) + FieldLocs(v, name) <==> loc in Part(at, done + {k}) {
      if loc != [] && loc[0] == k { assert loc == [k] + loc[1..]; }
    }
    assert Part(at, done) + FieldLocs(v, name) == Part(at, done + {k});
  }

  lemma PartNone(at: iset<Loc>)
    ensures Part(at, {}) == iset{}
  {
  }

  lemma ContentBelow(v: Json, k: Key)
    requires v.Arr? && HasChild(v, k)
    ensures forall loc: Loc :: [k] + loc in ContentLocs(v) <==> loc in BlockLocs(Child(v, k))
  {
    forall loc: Loc ensures [k] + loc in ContentLocs(v) <==> loc in BlockLocs(Child(v, k)) { Cons(k, loc); }
  }

  /** A content value: a string is one field, an array is walked block by block. */
  method WalkContent(v: Json) returns (fields: seq<TextField>)
    ensures Walks(v, fields, ContentLocs(v))
    decreases v, 0
  {
    ghost var at := ContentLocs(v);
    fields := [];
    match v {
      case Str(text) =>
        fields := [TextField([], text)];
        WalksHere(v);
        assert at == iset{[]};
      case Arr(items) =>
        ghost var done: set<Key> := {};
        PartNone(at);
        for i := 0 to |items|
          invariant done == set j | 0 <= j < i :: Index(j)
          invariant Walks(v, fields, Part(at, done))
        {
          var k := Index(i);
          var sub := WalkBlock(Child(v, k));
          ContentBelow(v, k);
          PartStep(v, fields, at, done, k, sub, BlockLocs(Child(v, k)));
          fields := fields + Lift(k, sub);
          done := done + {k};
        }
        PartAll(at, done);
      case _ =>
        assert at == iset{};
    }
  }

  /** The fields of one block all stand under one key, in the set below. */
  lemma BlockUnder(b: Json, k: Key, sub: seq<TextField>, below: iset<Loc>)
    requires HasChild(b, k) && Walks(Child(b, k), sub, below)
    requires forall loc :: loc in BlockLocs(b) <==> loc in Under(k, below)
    ensures Walks(b, Lift(k, sub), BlockLocs(b))
  {
    WalksUnder(b, k, sub, below);
    assert BlockLocs(b) == Under(k, below);
  }

  /** One block, dispatched on its type; anything that is not a known block has no fields. */
  method WalkBlock(b: Json) returns (fields: seq<TextField>)
    ensures Walks(b, fields, BlockLocs(b))
    decreases b, 1
  {
    fields := [];
    if FieldIs(b, "type", "text") {
      fields := StringField(b, "text");
      assert BlockLocs(b) == FieldLocs(b, "text");
    } else if FieldIs(b, "type", "tool_result") {
      var k := Field("content");
      if HasChild(b, k) {
        var sub := WalkContent(Child(b, k));
        BlockUnder(b, k, sub, ContentLocs(Child(b, k)));
        fields := Lift(k, sub);
      } else {
        assert BlockLocs(b) == iset{};
      }
    } else if FieldIs(b, "type", "tool_use") {
      var k := Field("input");
      if HasChild(b, k) && Child(b, k).Obj? {
        var sub := WalkJsonStrings(Child(b, k), 0);
        BlockUnder(b, k, sub, TreeLocs(Child(b, k), 0));
        fields := Lift(k, sub);
      } else {
        assert BlockLocs(b) == iset{};
      }
    } else if FieldIs(b, "type", "document") {
      fields := WalkDocument(b);
    } else {
      assert BlockLocs(b) == iset{};
    }
  }

  method WalkDocument(b: Json) returns (fields: seq<TextField>)
    requires FieldIs(b, "type", "document")
    ensures Walks(b, fields, BlockLocs(b))
  {
    ghost var at := BlockLocs(b);
    var source := Field("source");
    fields := [];
    PartNone(at);
    DocumentBelow(b);
    if HasChild(b, source) && FieldIs(Child(b, source), "type", "text") {
      var sub := StringField(Child(b, source), "data");
      PartStep(b, fields, at, {}, source, sub, FieldLocs(Child(b, source), "data"));
      fields := fields + Lift(source, sub);
    } else {
      PartSkip(at, {}, source);
    }
    ghost var done := {} + {source};
    var title := StringField(b, "title");
    PartField(b, fields, at, done, "title", title);
    fields := fields + title;
    done := done + {Field("title")};
    var context := StringField(b, "context");
    PartField(b, fields, at, done, "context", context);
    fields := fields + context;
    PartAll(at, done + {Field("context")});
  }

  lemma DocumentBelow(b: Json)
    requires FieldIs(b, "type", "document")
    ensures var at, source := BlockLocs(b), Field("source");
      && (forall loc: Loc :: [source] + loc in at <==>
            HasChild(b, source) && FieldIs(Child(b, source), "type", "text")
              && loc in FieldLocs(Child(b, source), "data"))
      && (forall loc: Loc :: [Field("title")] + loc in at <==> [Field("title")] + loc in FieldLocs(b, "title"))
      && (forall loc: Loc :: [Field("context")] + loc in at <==> [Field("context")] + loc in FieldLocs(b, "context"))
      && (forall loc :: loc in at ==> loc != [] && loc[0] in {source, Field("title"), Field("context")})
  {
    forall loc: Loc ensures var source := Field("source"); [source] + loc in BlockLocs(b) <==>
        HasChild(b, source) && FieldIs(Child(b, source), "type", "text") && loc in FieldLocs(Child(b, source), "data") {
      Cons(Field("source"), loc);
    }
    forall loc: Loc
      ensures [Field("title")] + loc in BlockLocs(b) <==> [Field("title")] + loc in FieldLocs(b, "title")
    {
      Cons(Field("title"), loc);
    }
    forall loc: Loc
      ensures [Field("context")] + loc in BlockLocs(b) <==> [Field("context")] + loc in FieldLocs(b, "context")
    {
      Cons(Field("context"), loc);
    }
  }
}
