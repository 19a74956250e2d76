/**
 * The detector chain (internal/gateway/detect/detector.go) and the installation of pattern
 * packs across the chain and both engines (internal/gateway/spine_pull.go).
 */
module Detection {
  import opened Common
  import opened Sorting
  import opened Spans
  import opened Packs
  import opened Engines

  /** An engine's answer for one text: its spans, or the reason it failed. */
  type Engine = string -> Result<seq<Span>>

  /** Validators applied to every span by claimed type, whichever engine claimed it. */
  type Guards = map<string, (string, int, int) -> bool>

  /** No engine ever reports a span that ends before it starts. */
  ghost predicate Forward(engine: Engine) {
    forall text: string, sp: Span :: engine(text).Ok? && sp in engine(text).value ==> sp.start <= sp.end
  }

  predicate PassesGuard(guards: Guards, text: string, sp: Span) {
    sp.typ in guards ==> guards[sp.typ](text, sp.start, sp.end)
  }

  /** Some allow-list rule for the type names this term, whatever the letter case. */
  ghost predicate Suppresses(rules: seq<Rule>, lower: string -> string, typ: string, term: string) {
    exists r, a :: r in rules && r.kind == KIND_ALLOW_LIST && r.typ == typ && a in r.allowList && lower(a) == term
  }

  type AllowMap = map<string, set<string>>

  predicate Holds(allow: AllowMap, typ: string, term: string) { typ in allow && term in allow[typ] }

  ghost predicate AllowOf(rules: seq<Rule>, lower: string -> string, allow: AllowMap) {
    forall typ: string, term: string {:trigger Holds(allow, typ, term)} ::
      Holds(allow, typ, term) <==> Suppresses(rules, lower, typ, term)
  }

  predicate Allowed(allow: AllowMap, lower: string -> string, text: string, sp: Span) {
    0 <= sp.start <= sp.end <= |text| && Holds(allow, sp.typ, lower(text[sp.start..sp.end]))
  }

  predicate Kept(guards: Guards, allow: AllowMap, lower: string -> string, text: string, sp: Span) {
    PassesGuard(guards, text, sp) && !Allowed(allow, lower, text, sp)
  }

  function KeptSpans(guards: Guards, allow: AllowMap, lower: string -> string, text: string,
                     spans: seq<Span>): seq<Span>
  {
    if spans == [] then []
    else
      var sp := spans[|spans| - 1];
      KeptSpans(guards, allow, lower, text, spans[..|spans| - 1])
      + if Kept(guards, allow, lower, text, sp) then [sp] else []
  }

  /** Everything the engines claim about a text that survives the guards and the allow list. */
  function Claims(engines: seq<Engine>, guards: Guards, allow: AllowMap, lower: string -> string,
                  text: string): seq<Span>
  {
    if engines == [] then []
    else
      var answer := engines[|engines| - 1](text);
      Claims(engines[..|engines| - 1], guards, allow, lower, text)
      + if answer.Ok? then KeptSpans(guards, allow, lower, text, answer.value) else []
  }

  function Failures(engines: seq<Engine>, text: string): seq<string> {
    if engines == [] then []
    else
      var answer := engines[|engines| - 1](text);
      Failures(engines[..|engines| - 1], text) + if answer.Err? then [answer.message] else []
  }

  /** Everything a chain's answers depend on. */
  datatype Detector = Detector(engines: seq<Engine>, guards: Guards, allow: AllowMap, lower: string -> string)

  function TextClaims(det: Detector, text: string): seq<Span> {
    Claims(det.engines, det.guards, det.allow, det.lower, text)
  }

  function TextFailures(det: Detector, text: string): seq<string> { Failures(det.engines, text) }

  class Chain {
    const engines: seq<Engine>
    const guards: Guards
    const lower: string -> string
    var allow: AllowMap

    constructor (engines: seq<Engine>, guards: Guards, lower: string -> string)
      ensures this.engines == engines && this.guards == guards && this.lower == lower
      ensures AllowOf([], lower, allow)
    {
      this.engines := engines;
      this.guards := guards;
      this.lower := lower;
      allow := map[];
    }

    ghost predicate Installed(rules: seq<Rule>)
      reads this
    {
      AllowOf(rules, lower, allow)
    }

    ghost function Current(): Detector
      reads this
    {
      Detector(engines, guards, allow, lower)
    }

    /** Builds the allow list afresh: terms of an earlier pack do not linger. */
    method SetPatternPack(rules: seq<Rule>)
      modifies this
      ensures Installed(rules)
    {
      var next: AllowMap := map[];
      for i := 0 to |rules|
        invariant AllowOf(rules[..i], lower, next)
      {
        var r := rules[i];
        assert rules[..i + 1] == rules[..i] + [r];
        if r.kind != KIND_ALLOW_LIST || |r.allowList| == 0 {
          AllowSkip(rules[..i], r, lower, next);
          continue;
        }
        var terms: set<string> := if r.typ in next then next[r.typ] else {};
        ghost var before := terms;
        for j := 0 to |r.allowList|
          invariant terms == before + (set k | 0 <= k < j :: lower(r.allowList[k]))
        {
          terms := terms + {lower(r.allowList[j])};
        }
        AllowTerms(rules[..i], r, lower, next, terms);
        next := next[r.typ := terms];
      }
      assert rules[..|rules|] == rules;
      allow := next;
    }

    /** Drops the spans that the guard of their claimed type or the allow list overrules. */
    method Filter(text: string, spans: seq<Span>) returns (kept: seq<Span>)
      requires forall sp :: sp in spans ==> sp.start <= sp.end
      ensures kept == KeptSpans(guards, allow, lower, text, spans)
    {
      kept := [];
      for j := 0 to |spans|
        invariant kept == KeptSpans(guards, allow, lower, text, spans[..j])
      {
        var sp := spans[j];
        assert spans[..j + 1][..j] == spans[..j];
        if sp.typ in guards && !guards[sp.typ](text, sp.start, sp.end) {
          continue;
        }
        if sp.start >= 0 && sp.end <= |text| && Holds(allow, sp.typ, lower(text[sp.start..sp.end])) {
          continue;
        }
        kept := kept + [sp];
      }
      assert spans[..|spans|] == spans;
    }

    /**
     * The merged spans are those of all surviving claims; a failed engine contributes an
     * error and nothing else.
     */
    method Run(text: string) returns (spans: seq<Span>, errs: seq<string>)
      requires forall e :: e in engines ==> Forward(e)
      ensures MergeOf(TextClaims(Current(), text), spans)
      ensures errs == TextFailures(Current(), text)
    {
      var all: seq<Span> := [];
      errs := [];
      for i := 0 to |engines|
        invariant all == Claims(engines[..i], guards, allow, lower, text)
        invariant errs == Failures(engines[..i], text)
      {
        var answer := engines[i](text);
        assert engines[..i + 1][..i] == engines[..i];
        if answer.Err? {
          errs := errs + [answer.message];
          continue;
        }
        assert Forward(engines[i]);
        var kept := Filter(text, answer.value);
        all := all + kept;
      }
      assert engines[..|engines|] == engines;
      spans := MergedCopy(all);
    }
  }

  lemma AllowSkip(rules: seq<Rule>, r: Rule, lower: string -> string, allow: AllowMap)
    requires AllowOf(rules, lower, allow)
    requires r.kind != KIND_ALLOW_LIST || |r.allowList| == 0
    ensures AllowOf(rules + [r], lower, allow)
  {
    forall typ: string, term: string ensures Holds(allow, typ, term) <==> Suppresses(rules + [r], lower, typ, term) {
      assert Suppresses(rules, lower, typ, term) <==> Suppresses(rules + [r], lower, typ, term);
    }
  }

  lemma AllowTerms(rules: seq<Rule>, r: Rule, lower: string -> string, allow: AllowMap, terms: set<string>)
    requires AllowOf(rules, lower, allow) && r.kind == KIND_ALLOW_LIST
    requires terms
             == (if r.typ in allow then allow[r.typ] else {})
                + (set k | 0 <= k < |r.allowList| :: lower(r.allowList[k]))
    ensures AllowOf(rules + [r], lower, allow[r.typ := terms])
  {
    var next, rules' := allow[r.typ := terms], rules + [r];
    assert r in rules';
    forall typ: string, term: string ensures Holds(next, typ, term) <==> Suppresses(rules', lower, typ, term) {
      if Suppresses(rules, lower, typ, term) {
        var q, a :| q in rules && q.kind == KIND_ALLOW_LIST && q.typ == typ && a in q.allowList && lower(a) == term;
        assert q in rules';
        assert Holds(allow, typ, term);
      }
      if Holds(next, typ, term) && !Holds(allow, typ, term) {
        var k :| 0 <= k < |r.allowList| && lower(r.allowList[k]) == term;
        assert r.allowList[k] in r.allowList;
      }
      if Suppresses(rules', lower, typ, term) && !Suppresses(rules, lower, typ, term) {
        var q, a :| q in rules' && q.kind == KIND_ALLOW_LIST && q.typ == typ && a in q.allowList && lower(a) == term;
        assert q == r;
        var k :| 0 <= k < |r.allowList| && r.allowList[k] == a;
        assert term in terms;
      }
    }
  }

  /** The pattern-pack half of the gateway: the chain and whichever engines it runs. */
  class PackInstall {
    const chain: Chain
    const regexDet: RegexEngine?
    const presidio: PresidioEngine?
    var packVersion: int

    constructor (chain: Chain, regexDet: RegexEngine?, presidio: PresidioEngine?)
      ensures this.chain == chain && this.regexDet == regexDet && this.presidio == presidio && packVersion == 0
    {
      this.chain := chain;
      this.regexDet := regexDet;
      this.presidio := presidio;
      packVersion := 0;
    }

    /** Chain and engines all hold what these rules say, and nothing else. */
    ghost predicate InSync(rules: seq<Rule>)
      reads this, chain, regexDet, presidio
    {
      && chain.Installed(rules)
      && (regexDet != null ==> regexDet.compiled == regexDet.builtin + PackRecognizers(rules))
      && (presidio != null ==> presidio.Installed(rules))
    }

    predicate Accepts(rules: seq<Rule>)
      reads this, regexDet
    {
      regexDet != null ==> AllCompile(regexDet.matcher, rules)
    }

    /**
     * One pull. A failed fetch or an unchanged version changes nothing. Otherwise the version
     * is recorded, and either all three holders move to the new rules or none does.
     */
    method PullPatterns(fetched: Option<Pack>, ghost rules: seq<Rule>) returns (err: bool)
      requires InSync(rules)
      modifies this, chain, regexDet, presidio
      ensures packVersion == if fetched.Some? then fetched.value.version else old(packVersion)
      ensures err <==> fetched.None? || (fetched.value.version != old(packVersion) && !Accepts(fetched.value.rules))
      ensures fetched.Some? && fetched.value.version != old(packVersion) && Accepts(fetched.value.rules)
              ==> InSync(fetched.value.rules)
      ensures fetched.None? || fetched.value.version == old(packVersion) || !Accepts(fetched.value.rules)
              ==> InSync(rules) && chain.allow == old(chain.allow)
                  && (regexDet != null ==> regexDet.compiled == old(regexDet.compiled))
                  && (presidio != null ==> unchanged(presidio))
    {
      if fetched.None? {
        return true;
      }
      var pack := fetched.value;
      if pack.version == packVersion {
        return false;
      }
      if regexDet != null {
        var ok := regexDet.SetPatternPack(pack.rules);
        if !ok {
          packVersion := pack.version;
          return true;
        }
      }
      chain.SetPatternPack(pack.rules);
      if presidio != null {
        presidio.SetPatternPack(pack.rules);
      }
      packVersion := pack.version;
      return false;
    }

    /**
     * Detection with the engines this gateway runs: each engine's claims pass the guards and the
     * allow list, and what is left of all is merged. The regex engine has merged its own hits
     * before that; the sidecar's answer comes from outside. The outcome is what a chain of two
     * engines with these answers promises.
     */
    method DetectText(text: string, sidecar: Result<seq<RawResult>>, offsets: seq<int>)
      returns (spans: seq<Span>, errs: seq<string>, ghost merged: seq<Span>)
      requires Ascending(offsets) && (regexDet != null ==> FindsForward(regexDet.matcher))
      ensures if regexDet != null then MergeOf(Hits(regexDet.matcher, regexDet.compiled, text), merged)
              else merged == []
      ensures MergeOf(KeptSpans(chain.guards, chain.allow, chain.lower, text, merged)
                      + KeptSpans(chain.guards, chain.allow, chain.lower, text, SidecarSpans(sidecar, offsets)), spans)
      ensures errs == if presidio != null && sidecar.Err? then [sidecar.message] else []
      ensures MergeOf(TextClaims(AsChain(merged, sidecar, offsets), text), spans)
      ensures errs == TextFailures(AsChain(merged, sidecar, offsets), text)
    {
      var first;
      first, merged := RegexClaims(text);
      var second;
      second, errs := SidecarClaims(text, sidecar, offsets);
      AnsweringClaims(if regexDet != null then Some(merged) else None, SidecarAnswer(sidecar, offsets),
                      chain.guards, chain.allow, chain.lower, text);
      spans := MergedCopy(first + second);
    }

    method RegexClaims(text: string) returns (kept: seq<Span>, ghost merged: seq<Span>)
      requires regexDet != null ==> FindsForward(regexDet.matcher)
      ensures if regexDet != null then MergeOf(Hits(regexDet.matcher, regexDet.compiled, text), merged)
              else merged == []
      ensures kept == KeptSpans(chain.guards, chain.allow, chain.lower, text, merged)
    {
      if regexDet == null {
        return [], [];
      }
      var found := regexDet.Detect(text);
      merged := found;
      HitsForward(regexDet.matcher, regexDet.compiled, text);
      MergeForward(Hits(regexDet.matcher, regexDet.compiled, text), found);
      kept := chain.Filter(text, found);
    }

    method SidecarClaims(text: string, sidecar: Result<seq<RawResult>>, offsets: seq<int>)
      returns (kept: seq<Span>, errs: seq<string>)
      requires Ascending(offsets)
      ensures kept == KeptSpans(chain.guards, chain.allow, chain.lower, text, SidecarSpans(sidecar, offsets))
      ensures errs == if presidio != null && sidecar.Err? then [sidecar.message] else []
    {
      if presidio == null {
        return [], [];
      }
      if sidecar.Err? {
        return [], [sidecar.message];
      }
      var claimed := presidio.Detect(sidecar.value, offsets);
      AcceptedForward(presidio.entities, presidio.types, presidio.gates, offsets, sidecar.value);
      kept := chain.Filter(text, claimed);
      errs := [];
    }

    /** What the second engine answers, if it runs. */
    function SidecarAnswer(sidecar: Result<seq<RawResult>>, offsets: seq<int>): Option<Result<seq<Span>>>
      reads this, presidio
    {
      if presidio == null then None
      else if sidecar.Err? then Some(Err(sidecar.message))
      else Some(Ok(SidecarSpans(sidecar, offsets)))
    }

    /** The chain as it answers this once. */
    ghost function AsChain(merged: seq<Span>, sidecar: Result<seq<RawResult>>, offsets: seq<int>): Detector
      reads this, chain, presidio
    {
      Detector(Answering(if regexDet != null then Some(merged) else None, SidecarAnswer(sidecar, offsets)),
               chain.guards, chain.allow, chain.lower)
    }

    /** What the second engine claims, if it runs and answers. */
    function SidecarSpans(sidecar: Result<seq<RawResult>>, offsets: seq<int>): seq<Span>
      reads this, presidio
    {
      if presidio != null && sidecar.Ok?
        then Accepted(presidio.entities, presidio.types, presidio.gates, offsets, sidecar.value) else []
    }
  }

  /** The engines that run, with the answers they give. */
  function Answering(regex: Option<seq<Span>>, sidecar: Option<Result<seq<Span>>>): seq<Engine> {
    (if regex.Some? then [(text: string) => Ok(regex.value)] else [])
    + (if sidecar.Some? then [(text: string) => sidecar.value] else [])
  }

  lemma ClaimsSnoc(engines: seq<Engine>, e: Engine, guards: Guards, allow: AllowMap, lower: string -> string,
                   text: string)
    ensures Claims(engines + [e], guards, allow, lower, text)
         == Claims(engines, guards, allow, lower, text)
            + if e(text).Ok? then KeptSpans(guards, allow, lower, text, e(text).value) else []
    ensures Failures(engines + [e], text) == Failures(engines, text) + if e(text).Err? then [e(text).message] else []
  {
    assert (engines + [e])[..|engines|] == engines;
  }

  lemma AnsweringClaims(regex: Option<seq<Span>>, sidecar: Option<Result<seq<Span>>>, guards: Guards, allow: AllowMap,
                        lower: string -> string, text: string)
    ensures Claims(Answering(regex, sidecar), guards, allow, lower, text)
         == (if regex.Some? then KeptSpans(guards, allow, lower, text, regex.value) else [])
            + (if sidecar.Some? && sidecar.value.Ok? then KeptSpans(guards, allow, lower, text, sidecar.value.value)
               else [])
    ensures Failures(Answering(regex, sidecar), text)
         == if sidecar.Some? && sidecar.value.Err? then [sidecar.value.message] else []
  {
    var first := Answering(regex, None);
    assert first == [] + first;
    if regex.Some? {
      ClaimsSnoc([], first[0], guards, allow, lower, text);
      assert [] + [first[0]] == first;
    }
    if sidecar.Some? {
      var e: Engine := (text: string) => sidecar.value;
      ClaimsSnoc(first, e, guards, allow, lower, text);
      assert Answering(regex, sidecar) == first + [e];
    } else {
      assert Answering(regex, sidecar) == first;
    }
  }

  /** A match never ends before it starts. */
  ghost predicate FindsForward(m: Matcher) {
    forall regex: string, text: string, loc: (int, int) :: loc in m.find(regex, text) ==> loc.0 <= loc.1
  }

  predicate Ascending(offsets: seq<int>) { forall i, j :: 0 <= i < j < |offsets| ==> offsets[i] <= offsets[j] }

  ghost predicate AllForward(s: seq<Span>) { forall x :: x in s ==> x.start <= x.end }

  lemma {:induction false} RecognizerHitsForward(m: Matcher, rec: Recognizer, text: string, locs: seq<(int, int)>)
    requires forall loc :: loc in locs ==> loc.0 <= loc.1
    ensures AllForward(RecognizerHits(m, rec, text, locs))
  {
    if locs == [] {
    } else {
      RecognizerHitsForward(m, rec, text, locs[..|locs| - 1]);
    }
  }

  lemma {:induction false} HitsForward(m: Matcher, recs: seq<Recognizer>, text: string)
    requires FindsForward(m)
    ensures AllForward(Hits(m, recs, text))
  {
    if recs == [] {
    } else {
      HitsForward(m, recs[..|recs| - 1], text);
      RecognizerHitsForward(m, recs[|recs| - 1], text, m.find(recs[|recs| - 1].regex, text));
    }
  }

  lemma {:induction false} AcceptedForward(entities: EntityMap, types: set<string>, gates: map<string, real>,
                                           offsets: seq<int>, seen: seq<RawResult>)
    requires Ascending(offsets)
    ensures AllForward(Accepted(entities, types, gates, offsets, seen))
  {
    if seen == [] {
    } else {
      AcceptedForward(entities, types, gates, offsets, seen[..|seen| - 1]);
    }
  }

  lemma {:induction false} CompactForward(out: seq<Span>, rest: seq<Span>)
    requires out != [] && AllForward(out) && AllForward(rest)
    ensures AllForward(Compact(out, rest))
    decreases |rest|
  {
    if rest == [] {
    } else {
      assert rest[0] in rest && AllForward(Step(out, rest[0]));
      CompactForward(Step(out, rest[0]), rest[1..]);
    }
  }

  lemma MergeForward(s: seq<Span>, r: seq<Span>)
    requires AllForward(s) && MergeOf(s, r)
    ensures AllForward(r)
  {
    if |s| >= 2 {
      var t {:trigger Arrangement(Before, t, s)} :|
        Arrangement(Before, t, s) && |t| >= 1 && r == Compact(t[..1], t[1..]);
      ArrangementMembers(Before, t, s);
      CompactForward(t[..1], t[1..]);
    }
  }
}
