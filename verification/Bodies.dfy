/** Whole request bodies in the two dialects. */
module Bodies {
  import opened Json
  import opened Fields
  import opened Walkers

  datatype Dialect = Anthropic | OpenAI

  // ---- Anthropic ----

  ghost function MessageLocs(m: Json): iset<Loc> { iset loc: Loc | InMessage(m, loc) }

  method WalkMessage(m: Json) returns (fields: seq<TextField>)
    ensures Walks(m, fields, MessageLocs(m))
  {
    var k := Field("content");
    fields := [];
    if m.Obj? && HasChild(m, k) {
      var sub := WalkContent(Child(m, k));
      WalksUnder(m, k, sub, ContentLocs(Child(m, k)));
      assert MessageLocs(m) == Under(k, ContentLocs(Child(m, k)));
      fields := Lift(k, sub);
    } else {
      assert MessageLocs(m) == iset{};
    }
  }

  ghost function MessagesLocs(v: Json): iset<Loc> {
    iset loc: Loc | v.Arr? && loc != [] && HasChild(v, loc[0]) && InMessage(Child(v, loc[0]), loc[1..])
  }

  method WalkMessages(v: Json) returns (fields: seq<TextField>)
    ensures Walks(v, fields, MessagesLocs(v))
  {
    ghost var at := MessagesLocs(v);
    fields := [];
    if !v.Arr? {
      assert at == iset{};
      return;
    }
    ghost var done: set<Key> := {};
    PartNone(at);
    for i := 0 to |v.items|
      invariant done == set j | 0 <= j < i :: Index(j)
      invariant Walks(v, fields, Part(at, done))
    {
      var k := Index(i);
      var sub := WalkMessage(Child(v, k));
      forall loc: Loc ensures [k] + loc in at <==> loc in MessageLocs(Child(v, k)) { Cons(k, loc); }
      PartStep(v, fields, at, done, k, sub, MessageLocs(Child(v, k)));
      fields := fields + Lift(k, sub);
      done := done + {k};
    }
    PartAll(at, done);
  }

  ghost function DescriptionLocs(v: Json): iset<Loc> {
    iset loc: Loc | v.Arr? && loc != [] && HasChild(v, loc[0])
      && InStringField(Child(v, loc[0]), "description", loc[1..])
  }

  method WalkDescriptions(v: Json) returns (fields: seq<TextField>)
    ensures Walks(v, fields, DescriptionLocs(v))
  {
    ghost var at := DescriptionLocs(v);
    fields := [];
    if !v.Arr? {
      assert at == iset{};
      return;
    }
    ghost var done: set<Key> := {};
    PartNone(at);
    for i := 0 to |v.items|
      invariant done == set j | 0 <= j < i :: Index(j)
      invariant Walks(v, fields, Part(at, done))
    {
      var k := Index(i);
      var sub := StringField(Child(v, k), "description");
      forall loc: Loc ensures [k] + loc in at <==> loc in FieldLocs(Child(v, k), "description") { Cons(k, loc); }
      PartStep(v, fields, at, done, k, sub, FieldLocs(Child(v, k), "description"));
      fields := fields + Lift(k, sub);
      done := done + {k};
    }
    PartAll(at, done);
  }

  lemma AnthropicBelow(doc: Json)
    requires doc.Obj?
    ensures var at := AnthropicLocs(doc);
      && (forall loc: Loc :: [Field("system")] + loc in at <==>
            HasChild(doc, Field("system")) && loc in ContentLocs(Child(doc, Field("system"))))
      && (forall loc: Loc :: [Field("messages")] + loc in at <==>
            HasChild(doc, Field("messages")) && loc in MessagesLocs(Child(doc, Field("messages"))))
      && (forall loc: Loc :: [Field("tools")] + loc in at <==>
            HasChild(doc, Field("tools")) && loc in DescriptionLocs(Child(doc, Field("tools"))))
      && (forall loc :: loc in at ==> loc != [] && loc[0] in {Field("system"), Field("messages"), Field("tools")})
  {
    forall loc: Loc ensures [Field("system")] + loc in AnthropicLocs(doc) <==>
            HasChild(doc, Field("system"))
              && loc in ContentLocs(Child(doc, Field("system"))) { Cons(Field("system"), loc); }
    forall loc: Loc ensures [Field("messages")] + loc in AnthropicLocs(doc) <==>
            HasChild(doc, Field("messages"))
              && loc in MessagesLocs(Child(doc, Field("messages"))) { Cons(Field("messages"), loc); }
    forall loc: Loc ensures [Field("tools")] + loc in AnthropicLocs(doc) <==>
            HasChild(doc, Field("tools"))
              && loc in DescriptionLocs(Child(doc, Field("tools"))) { Cons(Field("tools"), loc); }
  }

  method WalkAnthropicBody(doc: Json) returns (fields: seq<TextField>)
    ensures Walks(doc, fields, AnthropicLocs(doc))
  {
    ghost var at := AnthropicLocs(doc);
    fields := [];
    if !doc.Obj? {
      assert at == iset{};
      return;
    }
    AnthropicBelow(doc);
    PartNone(at);
    var system := Field("system");
    if HasChild(doc, system) {
      var sub := WalkContent(Child(doc, system));
      PartStep(doc, fields, at, {}, system, sub, ContentLocs(Child(doc, system)));
      fields := fields + Lift(system, sub);
    } else {
      PartSkip(at, {}, system);
    }
    ghost var done := {} + {system};
    var messages := Field("messages");
    if HasChild(doc, messages) {
      var sub := WalkMessages(Child(doc, messages));
      PartStep(doc, fields, at, done, messages, sub, MessagesLocs(Child(doc, messages)));
      fields := fields + Lift(messages, sub);
    } else {
      PartSkip(at, done, messages);
    }
    done := done + {messages};
    var tools := Field("tools");
    if HasChild(doc, tools) {
      var sub := WalkDescriptions(Child(doc, tools));
      PartStep(doc, fields, at, done, tools, sub, DescriptionLocs(Child(doc, tools)));
      fields := fields + Lift(tools, sub);
    } else {
      PartSkip(at, done, tools);
    }
    PartAll(at, done + {tools});
  }

  // ---- OpenAI ----

  predicate InPart(p: Json, loc: Loc) { FieldIs(p, "type", "text") && InStringField(p, "text", loc) }

  /** A content value: a string itself, or an array of parts of which only text parts count. */
  predicate InParts(v: Json, loc: Loc) {
    if v.Str? then loc == []
    else v.Arr? && loc != [] && HasChild(v, loc[0]) && InPart(Child(v, loc[0]), loc[1..])
  }

  /** A named string field of a named object field. */
  predicate InNested(v: Json, outer: string, inner: string, loc: Loc) {
    loc != [] && loc[0] == Field(outer) && HasChild(v, loc[0]) && InStringField(Child(v, loc[0]), inner, loc[1..])
  }

  /** A nested field of any element of an array. */
  predicate InEach(v: Json, outer: string, inner: string, loc: Loc) {
    v.Arr? && loc != [] && HasChild(v, loc[0]) && InNested(Child(v, loc[0]), outer, inner, loc[1..])
  }

  predicate InChatMessage(m: Json, loc: Loc) {
    && m.Obj? && loc != [] && HasChild(m, loc[0])
    && var c, rest := Child(m, loc[0]), loc[1..];
      match loc[0]
      case Index(_) => false
      case Field(name) =>
        if name == "content" then InParts(c, rest)
        else if name == "name" then InStringField(m, "name", loc)
        else if name == "tool_calls" then InEach(c, "function", "arguments", rest)
        else if name == "function_call" then InStringField(c, "arguments", rest)
        else false
  }

  predicate InOpenAI(doc: Json, loc: Loc) {
    && doc.Obj? && loc != [] && HasChild(doc, loc[0])
    && var c, rest := Child(doc, loc[0]), loc[1..];
      match loc[0]
      case Index(_) => false
      case Field(name) =>
        if name == "messages" then
          c.Arr? && rest != [] && HasChild(c, rest[0]) && InChatMessage(Child(c, rest[0]), rest[1..])
        else if name == "tools" then InEach(c, "function", "description", rest)
        else false
  }

  ghost function PartLocs(p: Json): iset<Loc> { iset loc: Loc | InPart(p, loc) }
  ghost function PartsLocs(v: Json): iset<Loc> { iset loc: Loc | InParts(v, loc) }
  ghost function NestedLocs(v: Json, outer: string, inner: string): iset<Loc> {
    iset loc: Loc | InNested(v, outer, inner, loc)
  }
  ghost function EachLocs(v: Json, outer: string, inner: string): iset<Loc> {
    iset loc: Loc | InEach(v, outer, inner, loc)
  }
  ghost function ChatMessageLocs(m: Json): iset<Loc> { iset loc: Loc | InChatMessage(m, loc) }
  ghost function OpenAILocs(doc: Json): iset<Loc> { iset loc: Loc | InOpenAI(doc, loc) }
  ghost function ChatMessagesLocs(v: Json): iset<Loc> {
    iset loc: Loc | v.Arr? && loc != [] && HasChild(v, loc[0]) && InChatMessage(Child(v, loc[0]), loc[1..])
  }

  method WalkOpenAIParts(v: Json) returns (fields: seq<TextField>)
    ensures Walks(v, fields, PartsLocs(v))
  {
    ghost var at := PartsLocs(v);
    fields := [];
    match v {
      case Str(text) =>
        fields := [TextField([], text)];
        WalksHere(v);
        assert at == iset{[]};
      case Arr(items) =>
        ghost var done: set<Key> := {};
        PartNone(at);
        for i := 0 to |items|
          invariant done == set j | 0 <= j < i :: Index(j)
          invariant Walks(v, fields, Part(at, done))
        {
          var k := Index(i);
          var p := Child(v, k);
          forall loc: Loc ensures [k] + loc in at <==> loc in PartLocs(p) { Cons(k, loc); }
          if FieldIs(p, "type", "text") {
            var sub := StringField(p, "text");
            assert PartLocs(p) == FieldLocs(p, "text");
            PartStep(v, fields, at, done, k, sub, PartLocs(p));
            fields := fields + Lift(k, sub);
          } else {
            PartSkip(at, done, k);
          }
          done := done + {k};
        }
        PartAll(at, done);
      case _ =>
        assert at == iset{};
    }
  }

  method WalkNested(v: Json, outer: string, inner: string) returns (fields: seq<TextField>)
    ensures Walks(v, fields, NestedLocs(v, outer, inner))
  {
    var k := Field(outer);
    fields := [];
    if HasChild(v, k) {
      var sub := StringField(Child(v, k), inner);
      WalksUnder(v, k, sub, FieldLocs(Child(v, k), inner));
      assert NestedLocs(v, outer, inner) == Under(k, FieldLocs(Child(v, k), inner));
      fields := Lift(k, sub);
    } else {
      assert NestedLocs(v, outer, inner) == iset{};
    }
  }

  method WalkEach(v: Json, outer: string, inner: string) returns (fields: seq<TextField>)
    ensures Walks(v, fields, EachLocs(v, outer, inner))
  {
    ghost var at := EachLocs(v, outer, inner);
    fields := [];
    if !v.Arr? {
      assert at == iset{};
      return;
    }
    ghost var done: set<Key> := {};
    PartNone(at);
    for i := 0 to |v.items|
      invariant done == set j | 0 <= j < i :: Index(j)
      invariant Walks(v, fields, Part(at, done))
    {
      var k := Index(i);
      var sub := WalkNested(Child(v, k), outer, inner);
      forall loc: Loc ensures [k] + loc in at <==> loc in NestedLocs(Child(v, k), outer, inner) { Cons(k, loc); }
      PartStep(v, fields, at, done, k, sub, NestedLocs(Child(v, k), outer, inner));
      fields := fields + Lift(k, sub);
      done := done + {k};
    }
    PartAll(at, done);
  }

  lemma ChatMessageBelow(m: Json)
    requires m.Obj?
    ensures var at := ChatMessageLocs(m);
      && (forall loc: Loc :: [Field("content")] + loc in at <==>
            HasChild(m, Field("content")) && loc in PartsLocs(Child(m, Field("content"))))
      && (forall loc: Loc :: [Field("name")] + loc in at <==> [Field("name")] + loc in FieldLocs(m, "name"))
      && (forall loc: Loc :: [Field("tool_calls")] + loc in at <==>
            HasChild(m, Field("tool_calls")) && loc in EachLocs(Child(m, Field("tool_calls")), "function", "arguments"))
      && (forall loc: Loc :: [Field("function_call")] + loc in at <==>
            HasChild(m, Field("function_call")) && loc in FieldLocs(Child(m, Field("function_call")), "arguments"))
      && (forall loc :: loc in at ==>
            loc != [] && loc[0] in {Field("content"), Field("name"), Field("tool_calls"), Field("function_call")})
  {
    forall loc: Loc ensures [Field("content")] + loc in ChatMessageLocs(m) <==>
            HasChild(m, Field("content"))
              && loc in PartsLocs(Child(m, Field("content"))) { Cons(Field("content"), loc); }
    forall loc: Loc
      ensures [Field("name")] + loc in ChatMessageLocs(m) <==> [Field("name")] + loc in FieldLocs(m, "name")
    {
      Cons(Field("name"), loc);
    }
    forall loc: Loc ensures [Field("tool_calls")] + loc in ChatMessageLocs(m) <==>
            HasChild(m, Field("tool_calls"))
              && loc in EachLocs(Child(m, Field("tool_calls")), "function", "arguments") {
      Cons(Field("tool_calls"), loc);
    }
    forall loc: Loc ensures [Field("function_call")] + loc in ChatMessageLocs(m) <==>
            HasChild(m, Field("function_call")) && loc in FieldLocs(Child(m, Field("function_call")), "arguments") {
      Cons(Field("function_call"), loc);
    }
  }

  method WalkChatMessage(m: Json) returns (fields: seq<TextField>)
    ensures Walks(m, fields, ChatMessageLocs(m))
  {
    ghost var at := ChatMessageLocs(m);
    fields := [];
    if !m.Obj? {
      assert at == iset{};
      return;
    }
    ChatMessageBelow(m);
    PartNone(at);
    var content := Field("content");
    if HasChild(m, content) {
      var sub := WalkOpenAIParts(Child(m, content));
      PartStep(m, fields, at, {}, content, sub, PartsLocs(Child(m, content)));
      fields := fields + Lift(content, sub);
    } else {
      PartSkip(at, {}, content);
    }
    ghost var done := {} + {content};
    var name := StringField(m, "name");
    PartField(m, fields, at, done, "name", name);
    fields := fields + name;
    done := done + {Field("name")};
    var calls := Field("tool_calls");
    if HasChild(m, calls) {
      var sub := WalkEach(Child(m, calls), "function", "arguments");
      PartStep(m, fields, at, done, calls, sub, EachLocs(Child(m, calls), "function", "arguments"));
      fields := fields + Lift(calls, sub);
    } else {
      PartSkip(at, done, calls);
    }
    done := done + {calls};
    var call := Field("function_call");
    if HasChild(m, call) {
      var sub := StringField(Child(m, call), "arguments");
      PartStep(m, fields, at, done, call, sub, FieldLocs(Child(m, call), "arguments"));
      fields := fields + Lift(call, sub);
    } else {
      PartSkip(at, done, call);
    }
    PartAll(at, done + {call});
  }

  method WalkChatMessages(v: Json) returns (fields: seq<TextField>)
    ensures Walks(v, fields, ChatMessagesLocs(v))
  {
    ghost var at := ChatMessagesLocs(v);
    fields := [];
    if !v.Arr? {
      assert at == iset{};
      return;
    }
    ghost var done: set<Key> := {};
    PartNone(at);
    for i := 0 to |v.items|
      invariant done == set j | 0 <= j < i :: Index(j)
      invariant Walks(v, fields, Part(at, done))
    {
      var k := Index(i);
      var sub := WalkChatMessage(Child(v, k));
      forall loc: Loc ensures [k] + loc in at <==> loc in ChatMessageLocs(Child(v, k)) { Cons(k, loc); }
      PartStep(v, fields, at, done, k, sub, ChatMessageLocs(Child(v, k)));
      fields := fields + Lift(k, sub);
      done := done + {k};
    }
    PartAll(at, done);
  }

  lemma OpenAIBelow(doc: Json)
    requires doc.Obj?
    ensures var at := OpenAILocs(doc);
      && (forall loc: Loc :: [Field("messages")] + loc in at <==>
            HasChild(doc, Field("messages")) && loc in ChatMessagesLocs(Child(doc, Field("messages"))))
      && (forall loc: Loc :: [Field("tools")] + loc in at <==>
            HasChild(doc, Field("tools")) && loc in EachLocs(Child(doc, Field("tools")), "function", "description"))
      && (forall loc :: loc in at ==> loc != [] && loc[0] in {Field("messages"), Field("tools")})
  {
    forall loc: Loc ensures [Field("messages")] + loc in OpenAILocs(doc) <==>
            HasChild(doc, Field("messages"))
              && loc in ChatMessagesLocs(Child(doc, Field("messages"))) { Cons(Field("messages"), loc); }
    forall loc: Loc ensures [Field("tools")] + loc in OpenAILocs(doc) <==>
            HasChild(doc, Field("tools")) && loc in EachLocs(Child(doc, Field("tools")), "function", "description") {
      Cons(Field("tools"), loc);
    }
  }

  method WalkOpenAIBody(doc: Json) returns (fields: seq<TextField>)
    ensures Walks(doc, fields, OpenAILocs(doc))
  {
    ghost var at := OpenAILocs(doc);
    fields := [];
    if !doc.Obj? {
      assert at == iset{};
      return;
    }
    OpenAIBelow(doc);
    PartNone(at);
    var messages := Field("messages");
    if HasChild(doc, messages) {
      var sub := WalkChatMessages(Child(doc, messages));
      PartStep(doc, fields, at, {}, messages, sub, ChatMessagesLocs(Child(doc, messages)));
      fields := fields + Lift(messages, sub);
    } else {
      PartSkip(at, {}, messages);
    }
    ghost var done := {} + {messages};
    var tools := Field("tools");
    if HasChild(doc, tools) {
      var sub := WalkEach(Child(doc, tools), "function", "description");
      PartStep(doc, fields, at, done, tools, sub, EachLocs(Child(doc, tools), "function", "description"));
      fields := fields + Lift(tools, sub);
    } else {
      PartSkip(at, done, tools);
    }
    PartAll(at, done + {tools});
  }

  // ---- either dialect ----

  predicate Located(d: Dialect, doc: Json, loc: Loc) {
    match d
    case Anthropic => InAnthropic(doc, loc)
    case OpenAI => InOpenAI(doc, loc)
  }

  ghost function LocatedIn(d: Dialect, doc: Json): iset<Loc> { iset loc: Loc | Located(d, doc, loc) }

  /** The fields a dialect's walker finds: each located string once, with its text. */
  method Walk(d: Dialect, doc: Json) returns (fields: seq<TextField>)
    ensures Walks(doc, fields, LocatedIn(d, doc))
  {
    match d {
      case Anthropic =>
        fields := WalkAnthropicBody(doc);
        assert LocatedIn(d, doc) == AnthropicLocs(doc);
      case OpenAI =>
        fields := WalkOpenAIBody(doc);
        assert LocatedIn(d, doc) == OpenAILocs(doc);
    }
  }
}
