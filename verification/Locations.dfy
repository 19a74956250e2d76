/**
 * Which strings of a request body are looked at (internal/gateway/adapter_anthropic.go,
 * internal/gateway/adapter_openai.go), told path by path from what the document holds.
 */
module Locations {
  import opened Common
  import opened Json
  import opened Walkers
  import opened Bodies

  /** The object at p says it is of this type. */
  predicate TypeAt(v: Json, p: Loc, t: string) { Get(v, p + [Field("type")]) == Some(Str(t)) }

  /** The strings of a content value: itself, or those of its blocks, by the block's type. */
  predicate ContentText(v: Json, loc: Loc)
    decreases |loc|
  {
    IsLeaf(v, loc) && (loc == [] || (|loc| >= 2 && loc[0].Index? && BlockText(v, loc)))
  }

  predicate BlockText(v: Json, loc: Loc)
    requires |loc| >= 2
    decreases |loc|, 0
  {
    var p := loc[..1];
    || (TypeAt(v, p, "text") && loc[1..] == [Field("text")])
    || (TypeAt(v, p, "tool_result") && loc[1] == Field("content") && Get(v, loc[..2]).Some?
        && ContentText(Get(v, loc[..2]).value, loc[2..]))
    || (TypeAt(v, p, "tool_use") && loc[1] == Field("input") && 3 <= |loc| <= MAX_WALK_DEPTH + 3 && loc[2].Field?)
    || (TypeAt(v, p, "document") && (loc[1..] == [Field("title")] || loc[1..] == [Field("context")]))
    || (TypeAt(v, p, "document") && loc[1..] == [Field("source"), Field("data")]
        && TypeAt(v, p + [Field("source")], "text"))
  }

  /** The strings of an Anthropic body. */
  predicate AnthropicText(doc: Json, loc: Loc) {
    || (|loc| >= 1 && loc[0] == Field("system") && Get(doc, loc[..1]).Some?
        && ContentText(Get(doc, loc[..1]).value, loc[1..]))
    || (|loc| >= 3 && loc[0] == Field("messages") && loc[1].Index? && loc[2] == Field("content")
        && Get(doc, loc[..3]).Some? && ContentText(Get(doc, loc[..3]).value, loc[3..]))
    || (|loc| == 3 && loc[0] == Field("tools") && loc[1].Index? && loc[2] == Field("description") && IsLeaf(doc, loc))
  }

  lemma {:induction false} GetConcat(v: Json, a: Loc, b: Loc)
    ensures Get(v, a + b) == if Get(v, a).Some? then Get(Get(v, a).value, b) else None
  {
    if a == [] {
      assert a + b == b;
    } else {
      assert (a + b)[0] == a[0] && (a + b)[1..] == a[1..] + b;
      if HasChild(v, a[0]) {
        GetConcat(Child(v, a[0]), a[1..], b);
      }
    }
  }

  lemma GetOne(v: Json, k: Key)
    ensures Get(v, [k]) == if HasChild(v, k) then Some(Child(v, k)) else None
  {
    assert [k][1..] == [];
  }

  lemma TypeIs(v: Json, k: Key, t: string)
    ensures TypeAt(v, [k], t) <==> HasChild(v, k) && FieldIs(Child(v, k), "type", t)
  {
    GetConcat(v, [k], [Field("type")]);
    GetOne(v, k);
    if HasChild(v, k) {
      GetOne(Child(v, k), Field("type"));
    }
  }

  lemma LeafBelow(v: Json, loc: Loc)
    requires loc != []
    ensures IsLeaf(v, loc) <==> HasChild(v, loc[0]) && IsLeaf(Child(v, loc[0]), loc[1..])
  {
  }

  lemma FieldLeaf(b: Json, name: string, loc: Loc)
    ensures InStringField(b, name, loc) <==> loc == [Field(name)] && IsLeaf(b, loc)
  {
    GetOne(b, Field(name));
  }

  lemma SourceLeaf(b: Json, loc: Loc)
    ensures InSource(b, loc) <==>
              loc == [Field("source"), Field("data")] && IsLeaf(b, loc) && TypeAt(b, [Field("source")], "text")
  {
    TypeIs(b, Field("source"), "text");
    if loc != [] && HasChild(b, loc[0]) {
      FieldLeaf(Child(b, loc[0]), "data", loc[1..]);
      LeafBelow(b, loc);
      assert loc == [loc[0]] + loc[1..];
    }
    if loc == [Field("source"), Field("data")] {
      assert loc[1..] == [Field("data")];
      LeafBelow(b, loc);
    }
  }

  lemma ToolInput(b: Json, loc: Loc)
    requires loc != []
    ensures loc[0] == Field("input") && HasChild(b, loc[0]) && Child(b, loc[0]).Obj?
            && InTree(Child(b, loc[0]), loc[1..], 0)
       <==> IsLeaf(b, loc) && loc[0] == Field("input") && 2 <= |loc| <= MAX_WALK_DEPTH + 2 && loc[1].Field?
  {
    LeafBelow(b, loc);
    if HasChild(b, loc[0]) {
      var c := Child(b, loc[0]);
      if !c.Str? {
        TreeLocatedExactly(c, loc[1..], 0);
      }
      if |loc| >= 2 {
        LeafBelow(c, loc[1..]);
      }
    }
  }

  /** What a block contributes, told from the list that holds it. */
  lemma BlockExactly(v: Json, loc: Loc)
    requires |loc| >= 2 && loc[0].Index? && HasChild(v, loc[0]) && IsLeaf(v, loc)
    requires forall c {:trigger InContent(c, loc[2..])} :: InContent(c, loc[2..]) <==> ContentText(c, loc[2..])
    ensures InBlock(Child(v, loc[0]), loc[1..]) <==> BlockText(v, loc)
  {
    var b, rest, p := Child(v, loc[0]), loc[1..], loc[..1];
    assert p == [loc[0]] && loc == p + rest && rest[1..] == loc[2..] && loc[..2] == p + [loc[1]];
    LeafBelow(v, loc);
    TypeIs(v, loc[0], "text");
    TypeIs(v, loc[0], "tool_result");
    TypeIs(v, loc[0], "tool_use");
    TypeIs(v, loc[0], "document");
    TypesApart();
    FieldLeaf(b, "text", rest);
    FieldLeaf(b, "title", rest);
    FieldLeaf(b, "context", rest);
    ToolInput(b, rest);
    SourceBelow(v, b, loc, rest);
    GetConcat(v, p, [loc[1]]);
    GetOne(v, loc[0]);
    GetOne(b, loc[1]);
  }

  lemma TypesApart()
    ensures "text" != "tool_result" && "text" != "tool_use" && "text" != "document"
    ensures "tool_result" != "tool_use" && "tool_result" != "document" && "tool_use" != "document"
  {
    assert "text"[0] == 't' && "document"[0] == 'd' && "tool_use"[0] == 't' && "text"[1] != "tool_use"[1];
  }

  lemma SourceBelow(v: Json, b: Json, loc: Loc, rest: Loc)
    requires |loc| >= 2 && HasChild(v, loc[0]) && b == Child(v, loc[0]) && rest == loc[1..] && IsLeaf(b, rest)
    ensures InSource(b, rest) <==>
              rest == [Field("source"), Field("data")] && TypeAt(v, loc[..1] + [Field("source")], "text")
  {
    SourceLeaf(b, rest);
    var source, typ := Field("source"), Field("type");
    assert loc[..1] == [loc[0]];
    assert loc[..1] + [source] + [typ] == [loc[0]] + ([source] + [typ]);
    GetConcat(v, [loc[0]], [source] + [typ]);
    GetOne(v, loc[0]);
  }

  lemma InContentIsLeaf(v: Json, loc: Loc)
    requires InContent(v, loc)
    ensures IsLeaf(v, loc)
    decreases |loc|
  {
    if v.Str? {
    } else {
      var b, rest := Child(v, loc[0]), loc[1..];
      LeafBelow(v, loc);
      if rest != [] {
        FieldLeaf(b, "text", rest);
        FieldLeaf(b, "title", rest);
        FieldLeaf(b, "context", rest);
        SourceLeaf(b, rest);
        ToolInput(b, rest);
        LeafBelow(b, rest);
        if FieldIs(b, "type", "tool_result") && !FieldIs(b, "type", "text") {
          InContentIsLeaf(Child(b, rest[0]), rest[1..]);
        }
      }
    }
  }

  /** The strings of a content value, path by path. */
  lemma {:induction false} ContentExactly(v: Json, loc: Loc)
    ensures InContent(v, loc) <==> ContentText(v, loc)
    decreases |loc|
  {
    if InContent(v, loc) {
      InContentIsLeaf(v, loc);
    }
    if loc == [] {
    } else if IsLeaf(v, loc) {
      LeafBelow(v, loc);
      if |loc| == 1 {
        assert loc[1..] == [];
      } else if loc[0].Index? {
        forall c ensures InContent(c, loc[2..]) <==> ContentText(c, loc[2..]) {
          ContentExactly(c, loc[2..]);
        }
        BlockExactly(v, loc);
      }
    }
  }

  lemma GetTwo(v: Json, a: Key, b: Key)
    ensures Get(v, [a, b]) == if HasChild(v, a) && HasChild(Child(v, a), b) then Some(Child(Child(v, a), b)) else None
  {
    assert [a, b] == [a] + [b];
    GetConcat(v, [a], [b]);
    GetOne(v, a);
    if HasChild(v, a) {
      GetOne(Child(v, a), b);
    }
  }

  lemma GetThree(v: Json, a: Key, b: Key, c: Key)
    ensures Get(v, [a, b, c]) ==
              if HasChild(v, a) && HasChild(Child(v, a), b) && HasChild(Child(Child(v, a), b), c)
              then Some(Child(Child(Child(v, a), b), c)) else None
  {
    assert [a, b, c] == [a] + [b, c];
    GetConcat(v, [a], [b, c]);
    GetOne(v, a);
    if HasChild(v, a) {
      GetTwo(Child(v, a), b, c);
    }
  }

  lemma SystemExactly(doc: Json, loc: Loc)
    requires doc.Obj? && loc != [] && loc[0] == Field("system")
    ensures InAnthropic(doc, loc) <==> Get(doc, loc[..1]).Some? && ContentText(Get(doc, loc[..1]).value, loc[1..])
  {
    assert loc[..1] == [loc[0]];
    GetOne(doc, loc[0]);
    if HasChild(doc, loc[0]) {
      ContentExactly(Child(doc, loc[0]), loc[1..]);
    }
  }

  lemma MessagesExactly(doc: Json, loc: Loc)
    requires doc.Obj? && loc != [] && loc[0] == Field("messages")
    ensures InAnthropic(doc, loc) <==>
              |loc| >= 3 && loc[1].Index? && loc[2] == Field("content")
              && Get(doc, loc[..3]).Some? && ContentText(Get(doc, loc[..3]).value, loc[3..])
  {
    if |loc| >= 3 {
      assert loc[..3] == [loc[0], loc[1], loc[2]] && loc[1..][1..] == loc[2..] && loc[2..][1..] == loc[3..];
      GetThree(doc, loc[0], loc[1], loc[2]);
      if Get(doc, loc[..3]).Some? {
        ContentExactly(Get(doc, loc[..3]).value, loc[3..]);
      }
    }
  }

  lemma ToolsExactly(doc: Json, loc: Loc)
    requires doc.Obj? && loc != [] && loc[0] == Field("tools")
    ensures InAnthropic(doc, loc) <==>
              |loc| == 3 && loc[1].Index? && loc[2] == Field("description") && IsLeaf(doc, loc)
  {
    if |loc| == 3 {
      assert loc == [loc[0], loc[1], loc[2]] && loc[1..][1..] == [loc[2]];
      GetThree(doc, loc[0], loc[1], loc[2]);
    }
  }

  /**
   * The strings of an Anthropic body that are looked at: the system prompt and the contents of
   * the messages, as a string or block by block, and the descriptions of the tools.
   */
  lemma AnthropicExactly(doc: Json, loc: Loc)
    ensures loc in AnthropicLocs(doc) <==> doc.Obj? && AnthropicText(doc, loc)
  {
    NamesApart();
    if doc.Obj? && loc != [] {
      if loc[0] == Field("system") {
        SystemExactly(doc, loc);
      } else if loc[0] == Field("messages") {
        MessagesExactly(doc, loc);
      } else if loc[0] == Field("tools") {
        ToolsExactly(doc, loc);
      }
    }
  }

  lemma NamesApart()
    ensures "system" != "messages" && "system" != "tools" && "messages" != "tools"
  {
    assert "system"[0] != "messages"[0] && "system"[0] != "tools"[0] && "messages"[0] != "tools"[0];
  }

  // ---- chat completions ----

  /** The strings of a chat message. */
  predicate MessageText(m: Json, loc: Loc) {
    && m.Obj? && IsLeaf(m, loc)
    && (|| loc == [Field("content")]
        || loc == [Field("name")]
        || loc == [Field("function_call"), Field("arguments")]
        || (|loc| == 3 && loc[0] == Field("content") && loc[1].Index? && loc[2] == Field("text")
            && TypeAt(m, loc[..2], "text"))
        || (|loc| == 4 && loc[0] == Field("tool_calls") && loc[1].Index?
            && loc[2..] == [Field("function"), Field("arguments")]))
  }

  /** The strings of a chat-completions body. */
  predicate OpenAIText(doc: Json, loc: Loc) {
    || (|loc| >= 2 && loc[0] == Field("messages") && loc[1].Index?
        && Get(doc, loc[..2]).Some? && MessageText(Get(doc, loc[..2]).value, loc[2..]))
    || (|loc| == 4 && loc[0] == Field("tools") && loc[1].Index?
        && loc[2..] == [Field("function"), Field("description")] && IsLeaf(doc, loc))
  }

  lemma NestedLeaf(v: Json, outer: string, inner: string, loc: Loc)
    ensures InNested(v, outer, inner, loc) <==> loc == [Field(outer), Field(inner)] && IsLeaf(v, loc)
  {
    if loc != [] && HasChild(v, loc[0]) {
      FieldLeaf(Child(v, loc[0]), inner, loc[1..]);
      LeafBelow(v, loc);
      assert loc == [loc[0]] + loc[1..];
    }
    if loc == [Field(outer), Field(inner)] {
      assert loc[1..] == [Field(inner)];
      LeafBelow(v, loc);
    }
  }

  lemma EachLeaf(v: Json, outer: string, inner: string, loc: Loc)
    ensures InEach(v, outer, inner, loc) <==>
              loc != [] && loc[0].Index? && loc[1..] == [Field(outer), Field(inner)] && IsLeaf(v, loc)
  {
    if loc != [] {
      LeafBelow(v, loc);
      if HasChild(v, loc[0]) {
        NestedLeaf(Child(v, loc[0]), outer, inner, loc[1..]);
      }
    }
  }

  lemma PartLeaf(v: Json, loc: Loc)
    requires v.Arr?
    ensures InParts(v, loc) <==>
              |loc| == 2 && loc[0].Index? && loc[1] == Field("text") && TypeAt(v, loc[..1], "text") && IsLeaf(v, loc)
  {
    if loc != [] {
      LeafBelow(v, loc);
      TypeIs(v, loc[0], "text");
      assert loc[..1] == [loc[0]];
      if HasChild(v, loc[0]) {
        FieldLeaf(Child(v, loc[0]), "text", loc[1..]);
      }
    }
  }

  lemma MessageNames()
    ensures "content" != "name" && "content" != "tool_calls" && "content" != "function_call"
    ensures "name" != "tool_calls" && "name" != "function_call" && "tool_calls" != "function_call"
  {
    assert "content"[0] == 'c' && "name"[0] == 'n' && "tool_calls"[0] == 't' && "function_call"[0] == 'f';
  }

  lemma MessageParts(m: Json, loc: Loc)
    requires m.Obj? && |loc| >= 2 && loc[0] == Field("content") && HasChild(m, loc[0])
    ensures InParts(Child(m, loc[0]), loc[1..]) <==>
              |loc| == 3 && loc[1].Index? && loc[2] == Field("text") && TypeAt(m, loc[..2], "text") && IsLeaf(m, loc)
  {
    var c, typ := Child(m, loc[0]), Field("type");
    LeafBelow(m, loc);
    if c.Arr? {
      PartLeaf(c, loc[1..]);
      assert loc[1..][..1] == [loc[1]] && loc[..2] + [typ] == [loc[0]] + ([loc[1]] + [typ]);
      GetConcat(m, [loc[0]], [loc[1]] + [typ]);
      GetOne(m, loc[0]);
    } else if loc[1].Index? {
      assert !IsLeaf(c, loc[1..]);
    }
  }

  /** The strings of a chat message, path by path. */
  lemma MessageExactly(m: Json, loc: Loc)
    ensures InChatMessage(m, loc) <==> MessageText(m, loc)
  {
    MessageNames();
    if m.Obj? && loc != [] {
      LeafBelow(m, loc);
      if HasChild(m, loc[0]) {
        var c, rest := Child(m, loc[0]), loc[1..];
        assert loc == [loc[0]] + rest;
        FieldLeaf(m, "name", loc);
        if loc[0] == Field("content") && rest == [] {
        } else if loc[0] == Field("content") {
          MessageParts(m, loc);
        } else if loc[0] == Field("tool_calls") {
          EachLeaf(c, "function", "arguments", rest);
        } else if loc[0] == Field("function_call") {
          FieldLeaf(c, "arguments", rest);
        }
      }
    }
  }

  /** The strings of a chat-completions body that are looked at, path by path. */
  lemma OpenAIExactly(doc: Json, loc: Loc)
    ensures loc in OpenAILocs(doc) <==> doc.Obj? && OpenAIText(doc, loc)
  {
    NamesApart();
    if doc.Obj? && |loc| >= 2 {
      assert loc[..2] == [loc[0], loc[1]] && loc[1..][1..] == loc[2..];
      LeafBelow(doc, loc);
      GetTwo(doc, loc[0], loc[1]);
      if HasChild(doc, loc[0]) {
        EachLeaf(Child(doc, loc[0]), "function", "description", loc[1..]);
        if HasChild(Child(doc, loc[0]), loc[1]) {
          MessageExactly(Child(Child(doc, loc[0]), loc[1]), loc[2..]);
        }
      }
    }
  }
}
