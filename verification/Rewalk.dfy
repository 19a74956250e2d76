/**
 * Walking is lawful rewriting: the strings that steer a walk are never among the strings it
 * locates, so a rewritten body is walked exactly as the original was.
 */
module Rewalk {
  import opened Json
  import opened Fields
  import opened Walkers
  import opened Bodies

  ghost function Below(k: Key, at: iset<Loc>): iset<Loc> { iset loc: Loc | [k] + loc in at }

  lemma SameHere(v: Json, v': Json, at: iset<Loc>, k: Key)
    requires SameButTexts(v, v', at)
    ensures (v'.Str? <==> v.Str?) && (v'.Obj? <==> v.Obj?) && (v'.Arr? <==> v.Arr?)
    ensures HasChild(v', k) <==> HasChild(v, k)
    ensures HasChild(v, k) ==> SameButTexts(Child(v, k), Child(v', k), Below(k, at))
  {
    assert ShapeAt(v', []) == ShapeOf(v') && ShapeAt(v, []) == ShapeOf(v);
    if HasChild(v, k) {
      forall loc: Loc ensures
        if loc in Below(k, at) && ShapeAt(Child(v, k), loc).Text? then ShapeAt(Child(v', k), loc).Text?
        else ShapeAt(Child(v', k), loc) == ShapeAt(Child(v, k), loc) {
        ShapeBelow(v, k, loc);
        ShapeBelow(v', k, loc);
        assert ShapeAt(v', [k] + loc) == ShapeAt(v', [k] + loc);
      }
    }
  }

  lemma SameTag(v: Json, v': Json, at: iset<Loc>, name: string, text: string)
    requires SameButTexts(v, v', at) && [Field(name)] !in at
    ensures FieldIs(v', name, text) <==> FieldIs(v, name, text)
  {
    var k := Field(name);
    SameHere(v, v', at, k);
    ShapeBelow(v, k, []);
    ShapeBelow(v', k, []);
    assert [k] + [] == [k];
    assert ShapeAt(v', [k]) == ShapeAt(v, [k]);
    if HasChild(v, k) {
      assert ShapeAt(v, [k]) == ShapeOf(Child(v, k)) && ShapeAt(v', [k]) == ShapeOf(Child(v', k));
    }
  }

  lemma StringFieldStable(v: Json, v': Json, at: iset<Loc>, name: string, loc: Loc)
    requires SameButTexts(v, v', at)
    ensures InStringField(v', name, loc) <==> InStringField(v, name, loc)
  {
    SameHere(v, v', at, Field(name));
    if HasChild(v, Field(name)) {
      SameHere(Child(v, Field(name)), Child(v', Field(name)), Below(Field(name), at), Field(name));
    }
  }

  lemma {:induction false} TreeStable(v: Json, v': Json, at: iset<Loc>, loc: Loc, depth: nat)
    requires SameButTexts(v, v', at)
    ensures InTree(v', loc, depth) <==> InTree(v, loc, depth)
    decreases |loc|
  {
    if loc == [] {
    } else {
      var k := loc[0];
      SameHere(v, v', at, k);
      if HasChild(v, k) {
        SameHere(Child(v, k), Child(v', k), Below(k, at), k);
        TreeStable(Child(v, k), Child(v', k), Below(k, at), loc[1..], depth + 1);
      }
    }
  }

  /** A block's type tag is not one of its located strings. */
  lemma TagNotLocated(b: Json)
    ensures !InBlock(b, [Field("type")])
  {
    assert [Field("type")][0] == Field("type");
  }

  lemma SourceStable(b: Json, b': Json, at: iset<Loc>, loc: Loc)
    requires SameButTexts(b, b', at) && forall q :: q in at ==> InBlock(b, q)
    requires FieldIs(b, "type", "document")
    ensures InSource(b', loc) <==> InSource(b, loc)
  {
    var k := Field("source");
    SameHere(b, b', at, k);
    if HasChild(b, k) {
      var c, c' := Child(b, k), Child(b', k);
      var tag := [k] + [Field("type")];
      assert tag[0] == k && tag[1..] == [Field("type")];
      assert !InBlock(b, tag);
      SameTag(c, c', Below(k, at), "type", "text");
      StringFieldStable(c, c', Below(k, at), "data", if loc != [] then loc[1..] else []);
    }
  }

  lemma {:induction false} ContentStable(v: Json, v': Json, at: iset<Loc>, loc: Loc)
    requires SameButTexts(v, v', at) && forall q :: q in at ==> InContent(v, q)
    ensures InContent(v', loc) <==> InContent(v, loc)
    decreases |loc|, 0
  {
    var k := if loc == [] then Index(0) else loc[0];
    SameHere(v, v', at, k);
    if loc != [] && v.Arr? && HasChild(v, k) {
      forall q | q in Below(k, at) ensures InBlock(Child(v, k), q) { Cons(k, q); }
      BlockStable(Child(v, k), Child(v', k), Below(k, at), loc[1..]);
    }
  }

  lemma TagsStable(b: Json, b': Json, at: iset<Loc>)
    requires SameButTexts(b, b', at) && forall q :: q in at ==> InBlock(b, q)
    ensures forall text :: FieldIs(b', "type", text) <==> FieldIs(b, "type", text)
  {
    TagNotLocated(b);
    forall text ensures FieldIs(b', "type", text) <==> FieldIs(b, "type", text) {
      SameTag(b, b', at, "type", text);
    }
  }

  lemma {:induction false} BlockStable(b: Json, b': Json, at: iset<Loc>, loc: Loc)
    requires SameButTexts(b, b', at) && forall q :: q in at ==> InBlock(b, q)
    ensures InBlock(b', loc) <==> InBlock(b, loc)
    decreases |loc|, 1
  {
    TagsStable(b, b', at);
    if FieldIs(b, "type", "text") {
      StringFieldStable(b, b', at, "text", loc);
    } else if FieldIs(b, "type", "tool_result") {
      var k := Field("content");
      SameHere(b, b', at, k);
      if HasChild(b, k) && loc != [] && loc[0] == k {
        forall q | q in Below(k, at) ensures InContent(Child(b, k), q) { Cons(k, q); }
        ContentStable(Child(b, k), Child(b', k), Below(k, at), loc[1..]);
      }
    } else if FieldIs(b, "type", "tool_use") {
      var k := Field("input");
      SameHere(b, b', at, k);
      if HasChild(b, k) && loc != [] && loc[0] == k {
        SameHere(Child(b, k), Child(b', k), Below(k, at), k);
        TreeStable(Child(b, k), Child(b', k), Below(k, at), loc[1..], 0);
      }
    } else if FieldIs(b, "type", "document") {
      SourceStable(b, b', at, loc);
      StringFieldStable(b, b', at, "title", loc);
      StringFieldStable(b, b', at, "context", loc);
    }
  }

  lemma MessageStable(m: Json, m': Json, at: iset<Loc>, loc: Loc)
    requires SameButTexts(m, m', at) && forall q :: q in at ==> InMessage(m, q)
    ensures InMessage(m', loc) <==> InMessage(m, loc)
  {
    var k := Field("content");
    SameHere(m, m', at, k);
    if HasChild(m, k) && loc != [] && loc[0] == k {
      forall q | q in Below(k, at) ensures InContent(Child(m, k), q) { Cons(k, q); }
      ContentStable(Child(m, k), Child(m', k), Below(k, at), loc[1..]);
    }
  }

  lemma AnthropicStable(doc: Json, doc': Json, at: iset<Loc>, loc: Loc)
    requires SameButTexts(doc, doc', at) && forall q :: q in at ==> InAnthropic(doc, q)
    ensures InAnthropic(doc', loc) <==> InAnthropic(doc, loc)
  {
    var k := if loc == [] then Index(0) else loc[0];
    SameHere(doc, doc', at, k);
    if loc != [] && HasChild(doc, k) && k.Field? {
      var c, c', below, rest := Child(doc, k), Child(doc', k), Below(k, at), loc[1..];
      forall q | q in below ensures InAnthropic(doc, [k] + q) {}
      if k.name == "system" {
        forall q | q in below ensures InContent(c, q) { Cons(k, q); }
        ContentStable(c, c', below, rest);
      } else if k.name == "messages" {
        var i := if rest == [] then Index(0) else rest[0];
        SameHere(c, c', below, i);
        if rest != [] && c.Arr? && HasChild(c, i) {
          forall q | q in Below(i, below) ensures InMessage(Child(c, i), q) {
            Cons(k, [i] + q);
            Cons(i, q);
          }
          MessageStable(Child(c, i), Child(c', i), Below(i, below), rest[1..]);
        }
      } else if k.name == "tools" {
        var i := if rest == [] then Index(0) else rest[0];
        SameHere(c, c', below, i);
        if rest != [] && HasChild(c, i) {
          StringFieldStable(Child(c, i), Child(c', i), Below(i, below), "description", rest[1..]);
        }
      }
    }
  }

  lemma NestedStable(v: Json, v': Json, at: iset<Loc>, outer: string, inner: string, loc: Loc)
    requires SameButTexts(v, v', at)
    ensures InNested(v', outer, inner, loc) <==> InNested(v, outer, inner, loc)
  {
    var k := Field(outer);
    SameHere(v, v', at, k);
    if HasChild(v, k) && loc != [] {
      StringFieldStable(Child(v, k), Child(v', k), Below(k, at), inner, loc[1..]);
    }
  }

  lemma EachStable(v: Json, v': Json, at: iset<Loc>, outer: string, inner: string, loc: Loc)
    requires SameButTexts(v, v', at)
    ensures InEach(v', outer, inner, loc) <==> InEach(v, outer, inner, loc)
  {
    var k := if loc == [] then Index(0) else loc[0];
    SameHere(v, v', at, k);
    if loc != [] && HasChild(v, k) {
      NestedStable(Child(v, k), Child(v', k), Below(k, at), outer, inner, loc[1..]);
    }
  }

  lemma PartsStable(v: Json, v': Json, at: iset<Loc>, loc: Loc)
    requires SameButTexts(v, v', at) && forall q :: q in at ==> InParts(v, q)
    ensures InParts(v', loc) <==> InParts(v, loc)
  {
    var k := if loc == [] then Index(0) else loc[0];
    SameHere(v, v', at, k);
    if loc != [] && HasChild(v, k) {
      var tag := [k] + [Field("type")];
      assert tag[0] == k && tag[1..] == [Field("type")];
      assert !InParts(v, tag);
      SameTag(Child(v, k), Child(v', k), Below(k, at), "type", "text");
      StringFieldStable(Child(v, k), Child(v', k), Below(k, at), "text", loc[1..]);
    }
  }

  lemma ChatMessageStable(m: Json, m': Json, at: iset<Loc>, loc: Loc)
    requires SameButTexts(m, m', at) && forall q :: q in at ==> InChatMessage(m, q)
    ensures InChatMessage(m', loc) <==> InChatMessage(m, loc)
  {
    var k := if loc == [] then Index(0) else loc[0];
    SameHere(m, m', at, k);
    if loc != [] && HasChild(m, k) && k.Field? {
      var c, c', below, rest := Child(m, k), Child(m', k), Below(k, at), loc[1..];
      if k.name == "content" {
        forall q | q in below ensures InParts(c, q) { Cons(k, q); }
        PartsStable(c, c', below, rest);
      } else if k.name == "name" {
        StringFieldStable(m, m', at, "name", loc);
      } else if k.name == "tool_calls" {
        EachStable(c, c', below, "function", "arguments", rest);
      } else if k.name == "function_call" {
        StringFieldStable(c, c', below, "arguments", rest);
      }
    }
  }

  lemma OpenAIStable(doc: Json, doc': Json, at: iset<Loc>, loc: Loc)
    requires SameButTexts(doc, doc', at) && forall q :: q in at ==> InOpenAI(doc, q)
    ensures InOpenAI(doc', loc) <==> InOpenAI(doc, loc)
  {
    var k := if loc == [] then Index(0) else loc[0];
    SameHere(doc, doc', at, k);
    if loc != [] && HasChild(doc, k) && k.Field? {
      var c, c', below, rest := Child(doc, k), Child(doc', k), Below(k, at), loc[1..];
      if k.name == "messages" {
        var i := if rest == [] then Index(0) else rest[0];
        SameHere(c, c', below, i);
        if rest != [] && HasChild(c, i) {
          forall q | q in Below(i, below) ensures InChatMessage(Child(c, i), q) {
            Cons(k, [i] + q);
            Cons(i, q);
          }
          ChatMessageStable(Child(c, i), Child(c', i), Below(i, below), rest[1..]);
        }
      } else if k.name == "tools" {
        EachStable(c, c', below, "function", "description", rest);
      }
    }
  }

  /**
   * Rewriting located strings, whatever the new texts, leaves the located set as it was, and
   * each located string says its new text.
   */
  lemma RewalkSameLocations(d: Dialect, doc: Json, texts: map<Loc, string>, doc': Json, loc: Loc)
    requires Rewritten(doc, texts, doc') && forall q :: q in texts ==> Located(d, doc, q)
    ensures Located(d, doc', loc) <==> Located(d, doc, loc)
    ensures IsLeaf(doc, loc) ==> IsLeaf(doc', loc)
    ensures IsLeaf(doc, loc) ==> LeafText(doc', loc) == if loc in texts then texts[loc] else LeafText(doc, loc)
  {
    var at := iset q | q in texts;
    RewrittenKeepsTheRest(doc, texts, doc');
    match d {
      case Anthropic => AnthropicStable(doc, doc', at, loc);
      case OpenAI => OpenAIStable(doc, doc', at, loc);
    }
    if IsLeaf(doc, loc) {
      assert ShapeAt(doc', loc) == Retext(ShapeAt(doc, loc), texts, loc);
    }
  }

  /** Walking the rewritten body finds the same fields with the new texts. */
  lemma RewalkFindsNewTexts(d: Dialect, doc: Json, fields: seq<TextField>, texts: map<Loc, string>, doc': Json)
    requires Walks(doc, fields, LocatedIn(d, doc)) && Rewritten(doc, texts, doc')
    requires forall q :: q in texts ==> Located(d, doc, q)
    ensures Walks(doc', seq(|fields|, i requires 0 <= i < |fields| =>
                              TextField(fields[i].loc, if fields[i].loc in texts then texts[fields[i].loc]
                                        else fields[i].text)),
                  LocatedIn(d, doc'))
  {
    var r := seq(|fields|, i requires 0 <= i < |fields| =>
                   TextField(fields[i].loc, if fields[i].loc in texts then texts[fields[i].loc] else fields[i].text));
    forall i | 0 <= i < |r| ensures r[i].loc in LocatedIn(d, doc') && Reads(doc', r[i]) {
      assert Reads(doc, fields[i]);
      RewalkSameLocations(d, doc, texts, doc', r[i].loc);
    }
    forall loc | loc in LocatedIn(d, doc') ensures Lists(r, loc) {
      RewalkSameLocations(d, doc, texts, doc', loc);
      assert Lists(fields, loc);
      var i :| 0 <= i < |fields| && fields[i].loc == loc;
      assert r[i].loc == loc;
    }
  }
}
