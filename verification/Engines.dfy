/**
 * The two detection engines (internal/gateway/detect/regex.go, presidio.go). Compiling and
 * matching a regular expression, and the analysis Presidio performs, are functions given
 * from outside.
 */
module Engines {
  import opened Spans
  import opened Packs

  /** A pattern with its type and confidence; built-in ones may also carry a validator. */
  datatype Recognizer = Recognizer(typ: string, regex: string, confidence: real, validated: bool)

  /** What the regular-expression library supplies, and the built-in validators. */
  datatype Matcher = Matcher(compiles: string -> bool,
                             find: (string, string) -> seq<(int, int)>,
                             validate: (string, string, int, int) -> bool)

  function RecognizerOf(r: Rule): Recognizer {
    Recognizer(r.typ, r.regex, if r.confidence == 0.0 then 0.75 else r.confidence, false)
  }

  /** The recognizers a rule list adds: its patterns, in order, and nothing else. */
  function PackRecognizers(rules: seq<Rule>): seq<Recognizer> {
    if rules == [] then []
    else
      var r := rules[|rules| - 1];
      PackRecognizers(rules[..|rules| - 1]) + if r.IsRegex() then [RecognizerOf(r)] else []
  }

  predicate AllCompile(m: Matcher, rules: seq<Rule>) {
    forall r :: r in rules && r.IsRegex() ==> m.compiles(r.regex)
  }

  /** The hits of one recognizer that its validator lets through. */
  function RecognizerHits(m: Matcher, rec: Recognizer, text: string, locs: seq<(int, int)>): seq<Span> {
    if locs == [] then []
    else
      var loc := locs[|locs| - 1];
      RecognizerHits(m, rec, text, locs[..|locs| - 1])
      + if rec.validated && !m.validate(rec.typ, text, loc.0, loc.1) then []
        else [Span(loc.0, loc.1, rec.typ, rec.confidence, "regex")]
  }

  function Hits(m: Matcher, recs: seq<Recognizer>, text: string): seq<Span> {
    if recs == [] then []
    else
      var rec := recs[|recs| - 1];
      Hits(m, recs[..|recs| - 1], text) + RecognizerHits(m, rec, text, m.find(rec.regex, text))
  }

  /**
   * A rule list adds one recognizer per pattern rule, with its type, pattern and confidence, or 0.75
   * if it names none.
   */
  lemma {:induction false} PackRecognizersAre(rules: seq<Rule>, rec: Recognizer)
    ensures rec in PackRecognizers(rules) <==>
              exists r :: r in rules && (r.kind == "" || r.kind == KIND_REGEX) && FromPattern(r, rec)
  {
    if rules == [] {
    } else {
      var rest, r := rules[..|rules| - 1], rules[|rules| - 1];
      PackRecognizersAre(rest, rec);
      assert rules == rest + [r];
    }
  }

  predicate FromPattern(r: Rule, rec: Recognizer) {
    && rec.typ == r.typ && rec.regex == r.regex && !rec.validated
    && (r.confidence != 0.0 ==> rec.confidence == r.confidence) && (r.confidence == 0.0 ==> rec.confidence == 0.75)
  }

  lemma {:induction false} RecognizerHitsAre(m: Matcher, rec: Recognizer, text: string, locs: seq<(int, int)>, sp: Span)
    ensures sp in RecognizerHits(m, rec, text, locs) <==> HitAmong(m, rec, text, locs, sp)
  {
    if locs == [] {
    } else {
      var rest, loc := locs[..|locs| - 1], locs[|locs| - 1];
      RecognizerHitsAre(m, rec, text, rest, sp);
      assert locs == rest + [loc];
      assert HitAmong(m, rec, text, locs, sp) <==> HitAmong(m, rec, text, rest, sp) || HitAt(m, rec, text, loc, sp);
    }
  }

  predicate HitAmong(m: Matcher, rec: Recognizer, text: string, locs: seq<(int, int)>, sp: Span) {
    exists loc :: loc in locs && HitAt(m, rec, text, loc, sp)
  }

  predicate HitAt(m: Matcher, rec: Recognizer, text: string, loc: (int, int), sp: Span) {
    && sp == Span(loc.0, loc.1, rec.typ, rec.confidence, "regex")
    && (rec.validated ==> m.validate(rec.typ, text, loc.0, loc.1))
  }

  /** The hits are the places each recognizer finds that its validator, if any, lets through. */
  lemma {:induction false} HitsAre(m: Matcher, recs: seq<Recognizer>, text: string, sp: Span)
    ensures sp in Hits(m, recs, text) <==>
              exists rec :: rec in recs && HitAmong(m, rec, text, m.find(rec.regex, text), sp)
  {
    if recs == [] {
    } else {
      var rest, rec := recs[..|recs| - 1], recs[|recs| - 1];
      HitsAre(m, rest, text, sp);
      RecognizerHitsAre(m, rec, text, m.find(rec.regex, text), sp);
      assert recs == rest + [rec];
    }
  }

  class RegexEngine {
    const matcher: Matcher
    const builtin: seq<Recognizer>
    var compiled: seq<Recognizer>

    constructor (matcher: Matcher, builtin: seq<Recognizer>)
      ensures this.matcher == matcher && this.builtin == builtin && compiled == builtin
    {
      this.matcher := matcher;
      this.builtin := builtin;
      compiled := builtin;
    }

    /** Compiles every pattern before swapping: a bad pattern leaves the old set in place. */
    method SetPatternPack(rules: seq<Rule>) returns (ok: bool)
      modifies this
      ensures ok <==> AllCompile(matcher, rules)
      ensures compiled == if ok then builtin + PackRecognizers(rules) else old(compiled)
    {
      var next := builtin;
      for i := 0 to |rules|
        invariant compiled == old(compiled)
        invariant AllCompile(matcher, rules[..i])
        invariant next == builtin + PackRecognizers(rules[..i])
      {
        var r := rules[i];
        assert rules[..i + 1] == rules[..i] + [r] && rules[..i + 1][..i] == rules[..i];
        if !r.IsRegex() {
          continue;
        }
        if !matcher.compiles(r.regex) {
          assert r in rules;
          return false;
        }
        next := next + [RecognizerOf(r)];
      }
      assert rules[..|rules|] == rules;
      compiled := next;
      return true;
    }

    /** Collects the validated hits of every recognizer and merges them. */
    method Detect(text: string) returns (spans: seq<Span>)
      ensures MergeOf(Hits(matcher, compiled, text), spans)
    {
      var hits := [];
      for i := 0 to |compiled|
        invariant hits == Hits(matcher, compiled[..i], text)
      {
        var rec := compiled[i];
        var locs := matcher.find(rec.regex, text);
        assert compiled[..i + 1][..i] == compiled[..i];
        ghost var before := hits;
        for j := 0 to |locs|
          invariant hits == before + RecognizerHits(matcher, rec, text, locs[..j])
        {
          var loc := locs[j];
          assert locs[..j + 1][..j] == locs[..j];
          if !(rec.validated && !matcher.validate(rec.typ, text, loc.0, loc.1)) {
            hits := hits + [Span(loc.0, loc.1, rec.typ, rec.confidence, "regex")];
          }
        }
        assert locs[..|locs|] == locs;
      }
      assert compiled[..|compiled|] == compiled;
      spans := MergedCopy(hits);
    }
  }

  method MergedCopy(spans: seq<Span>) returns (r: seq<Span>)
    ensures MergeOf(spans, r)
  {
    if |spans| == 0 {
      return spans;
    }
    var a := new Span[|spans|](i requires 0 <= i < |spans| => spans[i]);
    assert a[..] == spans;
    var n := Merge(a);
    r := a[..n];
  }

  // ---- Presidio ----

  /** One raw result of the sidecar, with codepoint offsets. */
  datatype RawResult = RawResult(entity: string, start: int, end: int, score: real)

  /** Type names of the sidecar that have a name of our own; the empty name means drop. */
  type EntityMap = map<string, string>

  /** What the sidecar answers: of everything it saw, the results at or above the threshold. */
  function Answered(seen: seq<RawResult>, threshold: real): seq<RawResult> {
    if seen == [] then []
    else
      var r := seen[|seen| - 1];
      Answered(seen[..|seen| - 1], threshold) + if r.score >= threshold then [r] else []
  }

  /** Our name for the result's type, if it may claim spans at all. */
  function TypeName(entities: EntityMap, packTypes: set<string>, entity: string): string {
    if entity in entities then entities[entity]
    else if entity in packTypes then entity else ""
  }

  predicate Acceptable(entities: EntityMap, packTypes: set<string>, gates: map<string, real>, offsets: seq<int>,
                       r: RawResult)
  {
    var t := TypeName(entities, packTypes, r.entity);
    && t != ""
    && 0 <= r.start < r.end <= |offsets| - 1
    && r.score >= GateFor(gates, t)
  }

  function ToSpan(entities: EntityMap, packTypes: set<string>, offsets: seq<int>, r: RawResult): Span
    requires 0 <= r.start < r.end <= |offsets| - 1
  {
    Span(offsets[r.start], offsets[r.end], TypeName(entities, packTypes, r.entity), r.score, "presidio")
  }

  /** The spans the per-type gates let through, straight from everything the sidecar saw. */
  function Accepted(entities: EntityMap, packTypes: set<string>, gates: map<string, real>, offsets: seq<int>,
                    seen: seq<RawResult>): seq<Span>
  {
    if seen == [] then []
    else
      var r := seen[|seen| - 1];
      Accepted(entities, packTypes, gates, offsets, seen[..|seen| - 1])
      + if Acceptable(entities, packTypes, gates, offsets, r) then [ToSpan(entities, packTypes, offsets, r)] else []
  }

  function RuleTypes(rules: seq<Rule>): set<string> { set r | r in rules :: r.typ }

  class PresidioEngine {
    const entities: EntityMap
    var adhoc: seq<Rule>
    var gates: map<string, real>
    var types: set<string>

    constructor (entities: EntityMap)
      ensures this.entities == entities && Installed([])
    {
      this.entities := entities;
      adhoc := [];
      gates := map[];
      types := {};
    }

    /** Everything this engine holds comes from these rules. */
    ghost predicate Installed(rules: seq<Rule>)
      reads this
    {
      adhoc == AdHoc(rules) && GatesOf(rules, gates) && types == RuleTypes(rules)
    }

    method SetPatternPack(rules: seq<Rule>)
      modifies this
      ensures Installed(rules)
    {
      var nextAdhoc: seq<Rule> := [];
      var nextGates := map[];
      var nextTypes: set<string> := {};
      for i := 0 to |rules|
        invariant nextAdhoc == AdHoc(rules[..i])
        invariant GatesOf(rules[..i], nextGates)
        invariant nextTypes == RuleTypes(rules[..i])
      {
        var r := rules[i];
        assert rules[..i + 1] == rules[..i] + [r];
        GatesStep(rules[..i], r, nextGates);
        AdHocStep(rules[..i], r);
        nextTypes := nextTypes + {r.typ};
        if r.IsRegex() {
          nextAdhoc := nextAdhoc + [r];
        } else if r.kind == KIND_DENY_LIST && |r.denyList| > 0 {
          nextAdhoc := nextAdhoc + [r];
        } else if r.kind == KIND_THRESHOLD && r.threshold > 0.0 {
          if r.typ !in nextGates || r.threshold < nextGates[r.typ] {
            nextGates := nextGates[r.typ := r.threshold];
          }
        }
      }
      assert rules[..|rules|] == rules;
      adhoc, gates, types := nextAdhoc, nextGates, nextTypes;
    }

    /** The threshold sent with the request: the lowest gate any type is held to. */
    method RequestThreshold() returns (threshold: real)
      ensures threshold <= DEFAULT_GATE && forall t :: t in gates ==> threshold <= gates[t]
      ensures threshold == DEFAULT_GATE || exists t :: t in gates && threshold == gates[t]
    {
      threshold := DEFAULT_GATE;
      var todo := gates.Keys;
      while todo != {}
        invariant todo <= gates.Keys
        invariant threshold <= DEFAULT_GATE
        invariant forall t :: t in gates && t !in todo ==> threshold <= gates[t]
        invariant threshold == DEFAULT_GATE || exists t :: t in gates && threshold == gates[t]
      {
        var t :| t in todo;
        todo := todo - {t};
        if gates[t] < threshold {
          threshold := gates[t];
        }
      }
    }

    /**
     * Two filters, one meaning: asking the sidecar for results above the request threshold
     * and then applying the per-type gates keeps exactly what the gates alone would keep.
     */
    method Detect(seen: seq<RawResult>, offsets: seq<int>) returns (spans: seq<Span>)
      ensures spans == Accepted(entities, types, gates, offsets, seen)
    {
      var threshold := RequestThreshold();
      var results := Answered(seen, threshold);
      spans := [];
      for i := 0 to |results|
        invariant spans == Accepted(entities, types, gates, offsets, results[..i])
      {
        var r := results[i];
        assert results[..i + 1][..i] == results[..i];
        var typ := TypeName(entities, types, r.entity);
        if typ == "" {
          continue;
        }
        if r.start < 0 || r.end > |offsets| - 1 || r.start >= r.end {
          continue;
        }
        if r.score < GateFor(gates, typ) {
          continue;
        }
        spans := spans + [ToSpan(entities, types, offsets, r)];
      }
      assert results[..|results|] == results;
      OneStage(entities, types, gates, offsets, seen, threshold);
    }
  }

  /** The rules that ride along as ad hoc recognizers. */
  function AdHoc(rules: seq<Rule>): seq<Rule> {
    if rules == [] then []
    else
      var r := rules[|rules| - 1];
      AdHoc(rules[..|rules| - 1])
      + if RidesAlong(r) then [r] else []
  }

  /** Patterns and filled deny lists ride along with every request, gates and allow lists do not. */
  lemma {:induction false} AdHocAre(rules: seq<Rule>, r: Rule)
    ensures r in AdHoc(rules) <==>
              r in rules && (r.kind == "" || r.kind == KIND_REGEX || (r.kind == KIND_DENY_LIST && r.denyList != []))
  {
    if rules == [] {
    } else {
      AdHocAre(rules[..|rules| - 1], r);
      assert rules == rules[..|rules| - 1] + [rules[|rules| - 1]];
    }
  }

  predicate RidesAlong(r: Rule) { r.IsRegex() || (r.kind == KIND_DENY_LIST && |r.denyList| > 0) }

  lemma AdHocStep(rules: seq<Rule>, r: Rule)
    ensures AdHoc(rules + [r]) == if RidesAlong(r) then AdHoc(rules) + [r] else AdHoc(rules)
    ensures RuleTypes(rules + [r]) == RuleTypes(rules) + {r.typ}
  {
    assert (rules + [r])[..|rules|] == rules;
  }

  lemma {:induction false} OneStage(entities: EntityMap, types: set<string>, gates: map<string, real>,
                                    offsets: seq<int>, seen: seq<RawResult>, threshold: real)
    requires threshold <= DEFAULT_GATE && forall t :: t in gates ==> threshold <= gates[t]
    ensures Accepted(entities, types, gates, offsets, Answered(seen, threshold))
         == Accepted(entities, types, gates, offsets, seen)
  {
    if seen == [] {
    } else {
      var r, rest := seen[|seen| - 1], seen[..|seen| - 1];
      OneStage(entities, types, gates, offsets, rest, threshold);
      var kept := Answered(rest, threshold);
      if r.score >= threshold {
        assert (kept + [r])[..|kept|] == kept;
      } else {
        assert kept + [] == kept;
      }
    }
  }
}
