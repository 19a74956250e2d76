/**
 * The score-gate ratchet (internal/harness/flywheel.go): what the flywheel's threshold rows
 * look like as long as nobody else writes any for the type.
 */
module Ratchet {
  import opened Packs
  import opened Proposals
  import opened Upserts

  predicate IsGateRow(p: Proposal, t: string) { p.kind == KIND_THRESHOLD && p.typ == t }

  /** The gates below the default that the grid offers: 0.05, 0.10, and so on up to 0.30. */
  predicate OnRatchet(p: Proposal) {
    && (p.status.Proposed? || p.status.Approved? || p.status.Rejected?)
    && OnGrid(p.threshold) && 1 <= GridStep(p.threshold) <= 6
  }

  /** Each threshold row of the type is opened after the one before it is settled, strictly below it. */
  ghost predicate Ratchets(ps: seq<Proposal>, t: string) {
    && (forall i :: 0 <= i < |ps| && IsGateRow(ps[i], t) ==> OnRatchet(ps[i]))
    && (forall i, j :: 0 <= i < j < |ps| && IsGateRow(ps[i], t) && IsGateRow(ps[j], t)
                       ==> !ps[i].status.Proposed? && ps[j].threshold < ps[i].threshold)
  }

  function GateCount(ps: seq<Proposal>, t: string): nat {
    if ps == [] then 0
    else GateCount(ps[..|ps| - 1], t) + if IsGateRow(ps[|ps| - 1], t) then 1 else 0
  }

  lemma StepsBelow(g: real, h: real)
    requires OnGrid(g) && OnGrid(h) && g < h
    ensures GridStep(g) < GridStep(h)
  {
  }

  lemma {:induction false} LowestGate(ps: seq<Proposal>, t: string) returns (i: nat)
    requires Ratchets(ps, t) && GateCount(ps, t) > 0
    ensures i < |ps| && IsGateRow(ps[i], t) && GridStep(ps[i].threshold) + GateCount(ps, t) <= 7
  {
    var rest, p := ps[..|ps| - 1], ps[|ps| - 1];
    assert Ratchets(rest, t);
    if GateCount(rest, t) == 0 {
      i := |ps| - 1;
    } else {
      i := LowestGate(rest, t);
      assert rest[i] == ps[i];
      if IsGateRow(p, t) {
        StepsBelow(p.threshold, ps[i].threshold);
        i := |ps| - 1;
      }
    }
  }

  /** However long the flywheel runs, a type never collects more than six threshold rows. */
  lemma AtMostSixGates(ps: seq<Proposal>, t: string)
    requires Ratchets(ps, t)
    ensures GateCount(ps, t) <= 6
  {
    if GateCount(ps, t) > 0 {
      var i := LowestGate(ps, t);
      assert OnRatchet(ps[i]);
    }
  }

  // ---- what leaves the ratchet alone ----

  /** No threshold row of the type comes in, and those there are at most settle. */
  ghost predicate KeepsGates(ps: seq<Proposal>, qs: seq<Proposal>, t: string) {
    && |ps| <= |qs|
    && (forall i :: 0 <= i < |ps| ==> (IsGateRow(qs[i], t) <==> IsGateRow(ps[i], t)))
    && (forall i :: 0 <= i < |ps| && IsGateRow(ps[i], t) ==>
          && qs[i].threshold == ps[i].threshold
          && (qs[i].status == ps[i].status
              || (ps[i].status.Proposed? && (qs[i].status.Approved? || qs[i].status.Rejected?))))
    && (forall i :: |ps| <= i < |qs| ==> !IsGateRow(qs[i], t))
  }

  lemma KeptGatesRatchet(ps: seq<Proposal>, qs: seq<Proposal>, t: string)
    requires Ratchets(ps, t) && KeepsGates(ps, qs, t)
    ensures Ratchets(qs, t)
  {
  }

  lemma CandidateKeepsGates(ps: seq<Proposal>, c: Candidate, hits: nat, run: string, t: string)
    ensures KeepsGates(ps, UpsertCandidate(ps, c, hits, run), t)
  {
  }

  lemma DenyKeepsGates(ps: seq<Proposal>, u: string, e: Evidence, run: string, t: string)
    ensures KeepsGates(ps, UpsertDeny(ps, u, e, run), t)
  {
  }

  lemma ManualKeepsGates(ps: seq<Proposal>, u: string, misses: int, run: string, t: string)
    ensures KeepsGates(ps, UpsertManual(ps, u, misses, run), t)
  {
  }

  lemma SupersedeKeepsGates(compiles: string -> bool, ps: seq<Proposal>, u: string, t: string)
    requires Sound(compiles, ps)
    ensures KeepsGates(ps, Supersede(ps, u), t)
  {
    var i := FirstWithId(ps, "manual-" + u);
    if i < |ps| {
      assert SoundRow(compiles, ps[i]);
    }
  }

  lemma OtherTypeKeepsGates(ps: seq<Proposal>, u: string, e: Evidence, run: string, t: string)
    requires u != t
    ensures KeepsGates(ps, UpsertThreshold(ps, u, e, run), t)
  {
  }

  // ---- the ratchet turning ----

  lemma ThresholdRatchets(ps: seq<Proposal>, t: string, e: Evidence, run: string)
    requires Ratchets(ps, t) && e.minScore < DEFAULT_GATE
    ensures Ratchets(UpsertThreshold(ps, t, e, run), t)
  {
    var needed := ProposeGate(e.minScore);
    ProposedGateOnGrid(e.minScore);
    var open := FirstOpen(ps, KIND_THRESHOLD, t);
    if !Covered(ps, t, needed) {
      forall i | 0 <= i < |ps| && IsGateRow(ps[i], t) && !ps[i].status.Proposed? ensures needed < ps[i].threshold {
        assert OnRatchet(ps[i]) && !Covers(ps[i], t, needed);
      }
      if open < |ps| {
        assert IsGateRow(ps[open], t) && OnRatchet(ps[open]);
      }
    }
  }

  /** Evidence for t, if there is any about its gate, was gathered under a gate at most the default. */
  predicate BelowDefault(evidence: map<string, Evidence>, t: string) {
    t in evidence && evidence[t].thresholdMisses > 0 ==> evidence[t].minScore < DEFAULT_GATE
  }

  lemma TypeRatchets(compiles: string -> bool, ps: seq<Proposal>, u: string, e: Evidence, run: string, t: string)
    requires Sound(compiles, ps) && ValidEvidence(e) && Ratchets(ps, t)
    requires u == t && e.thresholdMisses > 0 ==> e.minScore < DEFAULT_GATE
    ensures Ratchets(UpsertType(ps, u, e, run), t)
  {
    var ps1 := UpsertGate(ps, u, e, run);
    if u == t && e.thresholdMisses > 0 {
      ThresholdRatchets(ps, t, e, run);
    } else if u != t {
      OtherTypeKeepsGates(ps, u, e, run, t);
      KeptGatesRatchet(ps, UpsertThreshold(ps, u, e, run), t);
    }
    DenyKeepsGates(ps1, u, e, run, t);
    KeptGatesRatchet(ps1, UpsertDeny(ps1, u, e, run), t);
    var ps2 := UpsertArtifacts(ps, u, e, run);
    LeftoversRatchet(compiles, ps, ps2, u, e, run, t);
  }

  lemma LeftoversRatchet(compiles: string -> bool, ps: seq<Proposal>, ps2: seq<Proposal>, u: string, e: Evidence,
                         run: string, t: string)
    requires Sound(compiles, ps) && ValidEvidence(e)
    requires ps2 == UpsertArtifacts(ps, u, e, run) && Ratchets(ps2, t)
    ensures Ratchets(UpsertType(ps, u, e, run), t)
  {
    ArtifactsRefresh(compiles, ps, u, e, run);
    ManualRefreshes(compiles, ps2, u, e.manualMisses, run);
    ManualKeepsGates(ps2, u, e.manualMisses, run, t);
    var ps3 := if e.manualMisses > 0 then UpsertManual(ps2, u, e.manualMisses, run) else ps2;
    KeptGatesRatchet(ps2, UpsertManual(ps2, u, e.manualMisses, run), t);
    SupersedeKeepsGates(compiles, ps3, u, t);
    KeptGatesRatchet(ps3, Supersede(ps3, u), t);
  }

  lemma {:induction false} CandidatesRatchet(ps: seq<Proposal>, cands: seq<Candidate>, hits: map<string, nat>,
                                             run: string, t: string)
    requires Ratchets(ps, t)
    ensures Ratchets(UpsertCandidates(ps, cands, hits, run), t)
  {
    if cands == [] {
    } else {
      var c, rest := cands[|cands| - 1], cands[..|cands| - 1];
      CandidatesRatchet(ps, rest, hits, run, t);
      var qs := UpsertCandidates(ps, rest, hits, run);
      var n := if c.id in hits then hits[c.id] else 0;
      CandidateKeepsGates(qs, c, n, run, t);
      KeptGatesRatchet(qs, UpsertCandidate(qs, c, n, run), t);
    }
  }

  lemma {:induction false} TypesRatchet(compiles: string -> bool, ps: seq<Proposal>, types: seq<string>,
                                        evidence: map<string, Evidence>, run: string, t: string)
    requires Sound(compiles, ps) && Ratchets(ps, t) && BelowDefault(evidence, t)
    requires forall u :: u in evidence ==> ValidEvidence(evidence[u])
    ensures Ratchets(UpsertTypes(ps, types, evidence, run), t)
  {
    if types == [] {
    } else {
      var u, rest := types[|types| - 1], types[..|types| - 1];
      TypesRatchet(compiles, ps, rest, evidence, run, t);
      TypesRefresh(compiles, ps, rest, evidence, run);
      if u in evidence {
        TypeRatchets(compiles, UpsertTypes(ps, rest, evidence, run), u, evidence[u], run, t);
      }
    }
  }

  lemma UpsertAllRatchets(compiles: string -> bool, ps: seq<Proposal>, library: seq<Candidate>,
                          hits: map<string, nat>, types: seq<string>, evidence: map<string, Evidence>, run: string,
                          t: string)
    requires Sound(compiles, ps) && LibraryCompiles(compiles, library) && Ratchets(ps, t) && BelowDefault(evidence, t)
    requires forall u :: u in evidence ==> ValidEvidence(evidence[u])
    ensures Ratchets(UpsertAll(ps, library, hits, types, evidence, run), t)
  {
    CandidatesRatchet(ps, library, hits, run, t);
    CandidatesRefresh(compiles, ps, library, hits, run);
    TypesRatchet(compiles, UpsertCandidates(ps, library, hits, run), types, evidence, run, t);
  }

  // ---- evidence taken in hand ----

  /** Row k asks for a gate that would let the score through, or someone has settled such a row. */
  predicate Answers(ps: seq<Proposal>, k: int, t: string, needed: real) {
    0 <= k < |ps| && IsGateRow(ps[k], t) && ps[k].threshold <= needed
  }

  lemma AnswersLater(ps: seq<Proposal>, qs: seq<Proposal>, k: int, t: string, needed: real)
    requires Answers(ps, k, t, needed) && Evolves(ps, qs)
    ensures Answers(qs, k, t, needed)
  {
    assert RowEvolves(ps[k], qs[k]);
  }

  lemma ThresholdAnswers(ps: seq<Proposal>, t: string, e: Evidence, run: string) returns (k: nat)
    ensures Answers(UpsertThreshold(ps, t, e, run), k, t, ProposeGate(e.minScore))
  {
    var needed := ProposeGate(e.minScore);
    var open := FirstOpen(ps, KIND_THRESHOLD, t);
    if Covered(ps, t, needed) {
      k :| 0 <= k < |ps| && Covers(ps[k], t, needed);
    } else {
      k := open;
    }
  }

  /** After a run, each type with gate evidence has a row that answers it. */
  lemma {:induction false} TypesAnswer(compiles: string -> bool, ps: seq<Proposal>, types: seq<string>,
                                       evidence: map<string, Evidence>, run: string, t: string) returns (k: nat)
    requires Sound(compiles, ps) && t in types && t in evidence && evidence[t].thresholdMisses > 0
    requires forall u :: u in evidence ==> ValidEvidence(evidence[u])
    ensures Answers(UpsertTypes(ps, types, evidence, run), k, t, ProposeGate(evidence[t].minScore))
  {
    var u, rest := types[|types| - 1], types[..|types| - 1];
    var qs := UpsertTypes(ps, rest, evidence, run);
    TypesRefresh(compiles, ps, rest, evidence, run);
    if u == t {
      k := TypeAnswers(compiles, qs, t, evidence[t], run);
    } else {
      k := TypesAnswer(compiles, ps, rest, evidence, run, t);
      if u in evidence {
        TypeRefreshes(compiles, qs, u, evidence[u], run);
        AnswersLater(qs, UpsertType(qs, u, evidence[u], run), k, t, ProposeGate(evidence[t].minScore));
      }
    }
  }

  lemma TypeAnswers(compiles: string -> bool, ps: seq<Proposal>, t: string, e: Evidence, run: string) returns (k: nat)
    requires Sound(compiles, ps) && ValidEvidence(e) && e.thresholdMisses > 0
    ensures Answers(UpsertType(ps, t, e, run), k, t, ProposeGate(e.minScore))
  {
    k := ThresholdAnswers(ps, t, e, run);
    var ps1 := UpsertGate(ps, t, e, run);
    ArtifactsRefresh(compiles, ps, t, e, run);
    if e.denyTerms != [] {
      DenyRefreshes(compiles, ps1, t, e, run);
    }
    var ps2 := UpsertArtifacts(ps, t, e, run);
    EvolvesReflexive(ps1);
    AnswersLater(ps1, ps2, k, t, ProposeGate(e.minScore));
    LeftoversRefresh(compiles, ps2, t, e.manualMisses, GainsArtifact(ps, t, e, run), run);
    AnswersLater(ps2, UpsertType(ps, t, e, run), k, t, ProposeGate(e.minScore));
  }

  lemma EvolvesReflexive(ps: seq<Proposal>)
    ensures Evolves(ps, ps)
  {
  }
}
