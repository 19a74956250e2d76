/**
 * The sidecar seen from both sides: the harness probing for raw scores
 * (internal/harness/probe.go) and the gateway's engine asking for results above the gates
 * (internal/gateway/detect/presidio.go).
 */
module SidecarProbe {
  import opened Packs
  import opened Spans
  import opened Engines
  import opened Gathering

  /** The name a probe gives a result: our own if there is one, else the sidecar's. */
  function ProbeName(entities: EntityMap, entity: string): string {
    if entity in entities then entities[entity] else entity
  }

  predicate Usable(entities: EntityMap, offsets: seq<int>, r: RawResult) {
    ProbeName(entities, r.entity) != "" && 0 <= r.start < r.end <= |offsets| - 1
  }

  function ToProbeSpan(entities: EntityMap, offsets: seq<int>, r: RawResult): ProbeSpan
    requires Usable(entities, offsets, r)
  {
    ProbeSpan(offsets[r.start], offsets[r.end], ProbeName(entities, r.entity), r.score)
  }

  function ProbeSpans(entities: EntityMap, offsets: seq<int>, results: seq<RawResult>): seq<ProbeSpan> {
    if results == [] then []
    else
      var r := results[|results| - 1];
      ProbeSpans(entities, offsets, results[..|results| - 1])
      + if Usable(entities, offsets, r) then [ToProbeSpan(entities, offsets, r)] else []
  }

  /** The sidecar is asked without a threshold; its offsets count codepoints, ours bytes. */
  method AnalyzeRaw(entities: EntityMap, offsets: seq<int>, results: seq<RawResult>) returns (spans: seq<ProbeSpan>)
    ensures spans == ProbeSpans(entities, offsets, results)
    ensures forall sp :: sp in spans
              <==> exists r :: r in results && Usable(entities, offsets, r) && sp == ToProbeSpan(entities, offsets, r)
  {
    spans := [];
    for i := 0 to |results|
      invariant spans == ProbeSpans(entities, offsets, results[..i])
    {
      var r := results[i];
      assert results[..i + 1][..i] == results[..i];
      var typ := if r.entity in entities then entities[r.entity] else r.entity;
      if typ == "" {
        continue;
      }
      if r.start < 0 || r.end > |offsets| - 1 || r.start >= r.end {
        continue;
      }
      spans := spans + [ProbeSpan(offsets[r.start], offsets[r.end], typ, r.score)];
    }
    assert results[..|results|] == results;
    forall sp
      ensures sp in spans
              <==> exists r :: r in results && Usable(entities, offsets, r) && sp == ToProbeSpan(entities, offsets, r)
    {
      InProbeSpans(entities, offsets, results, sp);
    }
  }

  lemma {:induction false} InProbeSpans(entities: EntityMap, offsets: seq<int>, results: seq<RawResult>, sp: ProbeSpan)
    ensures sp in ProbeSpans(entities, offsets, results)
       <==> exists r :: r in results && Usable(entities, offsets, r) && sp == ToProbeSpan(entities, offsets, r)
  {
    if results == [] {
    } else {
      var rest, r := results[..|results| - 1], results[|results| - 1];
      InProbeSpans(entities, offsets, rest, sp);
      assert results == rest + [r];
    }
  }

  lemma {:induction false} InAccepted(entities: EntityMap, types: set<string>, gates: map<string, real>,
                                      offsets: seq<int>, seen: seq<RawResult>, sp: Span)
    ensures sp in Accepted(entities, types, gates, offsets, seen)
       <==> exists r ::
              r in seen && Acceptable(entities, types, gates, offsets, r) && sp == ToSpan(entities, types, offsets, r)
  {
    if seen == [] {
    } else {
      var rest, r := seen[..|seen| - 1], seen[|seen| - 1];
      InAccepted(entities, types, gates, offsets, rest, sp);
      assert seen == rest + [r];
    }
  }

  /** The result has a name that may claim spans here, lies in the text and clears the gate of its type. */
  predicate Admitted(entities: EntityMap, types: set<string>, gates: map<string, real>, offsets: seq<int>, r: RawResult,
                     sp: Span)
  {
    && 0 <= r.start < r.end < |offsets| && sp.start == offsets[r.start] && sp.end == offsets[r.end]
    && sp.confidence == r.score && sp.detector == "presidio" && sp.typ != ""
    && (r.entity in entities ==> sp.typ == entities[r.entity])
    && (r.entity !in entities ==> sp.typ == r.entity && r.entity in types)
    && (sp.typ in gates ==> r.score >= gates[sp.typ]) && (sp.typ !in gates ==> r.score >= DEFAULT_GATE)
  }

  /** What the engine claims: the admitted results, each under our name for it, and nothing else. */
  lemma AcceptedExactly(entities: EntityMap, types: set<string>, gates: map<string, real>, offsets: seq<int>,
                        seen: seq<RawResult>, sp: Span)
    ensures sp in Accepted(entities, types, gates, offsets, seen) <==>
              exists r :: r in seen && Admitted(entities, types, gates, offsets, r, sp)
  {
    InAccepted(entities, types, gates, offsets, seen, sp);
    forall r ensures Admitted(entities, types, gates, offsets, r, sp)
                <==> Acceptable(entities, types, gates, offsets, r) && sp == ToSpan(entities, types, offsets, r)
    {
      AdmittedIsAcceptable(entities, types, gates, offsets, r, sp);
    }
  }

  lemma AdmittedIsAcceptable(entities: EntityMap, types: set<string>, gates: map<string, real>, offsets: seq<int>,
                             r: RawResult, sp: Span)
    ensures Admitted(entities, types, gates, offsets, r, sp)
       <==> Acceptable(entities, types, gates, offsets, r) && sp == ToSpan(entities, types, offsets, r)
  {
  }

  /** Some span claims the type somewhere on the missed one, at exactly this confidence. */
  predicate ClaimedAt(spans: seq<Span>, missed: Generator.TruthSpan, typ: string, score: real) {
    exists sp :: sp in spans && sp.typ == typ && sp.start < missed.end && missed.start < sp.end
      && sp.confidence == score
  }

  /**
   * A span that a probe saw at this score is claimed at it by the gateway's engine exactly if
   * the gate of its type lets the score through, whatever else the engine is shown. The type
   * must be one that the installed rules mention.
   */
  lemma ProbedSpanClaimed(entities: EntityMap, types: set<string>, gates: map<string, real>, offsets: seq<int>,
                          results: seq<RawResult>, seen: seq<RawResult>, missed: Generator.TruthSpan, typ: string)
    requires typ in types && GateFor(gates, typ) > 0.0 && forall r :: r in results ==> r in seen
    requires Sees(ProbeSpans(entities, offsets, results), missed, typ)
    ensures var score := BestScore(ProbeSpans(entities, offsets, results), missed, typ);
      ClaimedAt(Accepted(entities, types, gates, offsets, seen), missed, typ, score) <==> GateFor(gates, typ) <= score
  {
    var raw := ProbeSpans(entities, offsets, results);
    var score := BestScore(raw, missed, typ);
    BestScoreIsBest(raw, missed, typ);
    var spans := Accepted(entities, types, gates, offsets, seen);
    if ClaimedAt(spans, missed, typ, score) {
      var sp :| sp in spans && sp.typ == typ && sp.confidence == score;
      InAccepted(entities, types, gates, offsets, seen, sp);
    }
    if GateFor(gates, typ) <= score {
      var best :| best in raw && Meets(best, missed, typ) && best.score == score;
      InProbeSpans(entities, offsets, results, best);
      var r :| r in results && Usable(entities, offsets, r) && best == ToProbeSpan(entities, offsets, r);
      assert Acceptable(entities, types, gates, offsets, r);
      var sp := ToSpan(entities, types, offsets, r);
      InAccepted(entities, types, gates, offsets, seen, sp);
      assert sp in spans && sp.typ == typ;
    }
  }
}
