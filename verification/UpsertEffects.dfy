/**
 * What a run of the harness brings about in the proposal list (internal/harness/flywheel.go):
 * that every artifact its misses call for is there afterwards, told row by row.
 */
module UpsertEffects {
  import opened Packs
  import opened Proposals
  import opened Upserts

  // ---- curated patterns ----

  /** The row a curated pattern gets when it first has hits. */
  predicate NewCandidateRow(p: Proposal, c: Candidate, hits: nat, run: string) {
    && p.id == c.id && p.typ == c.typ && p.kind == KIND_REGEX && p.regex == c.regex && p.confidence == c.confidence
    && p.denyList == [] && p.allowList == [] && p.threshold == 0.0
    && p.misses == hits && p.status.Proposed? && p.sourceRun == run
  }

  /** What a run with hits for the pattern makes of its row. */
  predicate CandidateEffect(ps: seq<Proposal>, qs: seq<Proposal>, k: nat, c: Candidate, hits: nat, run: string) {
    && k < |qs| && qs[k].id == c.id
    && (k < |ps| ==> ps[k].id == c.id)
    && (k >= |ps| ==> NewCandidateRow(qs[k], c, hits, run) && forall i :: 0 <= i < |ps| ==> ps[i].id != c.id)
    && (k < |ps| && ps[k].status.Proposed? ==> qs[k] == ps[k].(misses := ps[k].misses + hits, sourceRun := run))
    && (k < |ps| && !ps[k].status.Proposed? ==> qs[k] == ps[k])
  }

  /** No row has changed but the one with this id, and no row but one with this id has come in. */
  predicate OnlyTouches(ps: seq<Proposal>, qs: seq<Proposal>, id: string) {
    && |ps| <= |qs|
    && (forall i :: 0 <= i < |ps| && ps[i].id != id ==> qs[i] == ps[i])
    && (forall i :: 0 <= i < |ps| ==> qs[i].id == ps[i].id)
    && (forall i :: |ps| <= i < |qs| ==> qs[i].id == id)
  }

  lemma CandidateTouches(ps: seq<Proposal>, c: Candidate, hits: nat, run: string)
    ensures OnlyTouches(ps, UpsertCandidate(ps, c, hits, run), c.id)
  {
  }

  lemma CandidateAnswered(ps: seq<Proposal>, c: Candidate, hits: nat, run: string) returns (k: nat)
    requires hits > 0
    ensures CandidateEffect(ps, UpsertCandidate(ps, c, hits, run), k, c, hits, run)
  {
    k := FirstWithId(ps, c.id);
  }

  predicate DistinctCandidates(cands: seq<Candidate>) {
    forall i, j :: 0 <= i < j < |cands| ==> cands[i].id != cands[j].id
  }

  /** Rows of other patterns stay as they are. */
  lemma {:induction false} OtherCandidates(ps: seq<Proposal>, cands: seq<Candidate>, hits: map<string, nat>,
                                           run: string, id: string)
    requires forall c :: c in cands ==> c.id != id
    ensures var qs := UpsertCandidates(ps, cands, hits, run);
      && |ps| <= |qs| && (forall i :: 0 <= i < |ps| ==> qs[i].id == ps[i].id && (ps[i].id == id ==> qs[i] == ps[i]))
      && (forall i :: |ps| <= i < |qs| ==> qs[i].id != id)
  {
    if cands == [] {
    } else {
      var rest, c := cands[..|cands| - 1], cands[|cands| - 1];
      OtherCandidates(ps, rest, hits, run, id);
      CandidateTouches(UpsertCandidates(ps, rest, hits, run), c, if c.id in hits then hits[c.id] else 0, run);
    }
  }

  /** With hits for a pattern, its row is there after the run's patterns have been gone through. */
  lemma {:induction false} CandidatesAnswered(ps: seq<Proposal>, cands: seq<Candidate>, hits: map<string, nat>,
                                              run: string, n: nat) returns (k: nat)
    requires DistinctCandidates(cands) && n < |cands| && cands[n].id in hits && hits[cands[n].id] > 0
    ensures CandidateEffect(ps, UpsertCandidates(ps, cands, hits, run), k, cands[n], hits[cands[n].id], run)
    decreases |cands|
  {
    var rest, c := cands[..|cands| - 1], cands[|cands| - 1];
    var mid := UpsertCandidates(ps, rest, hits, run);
    if n < |rest| {
      k := CandidatesAnswered(ps, rest, hits, run, n);
      CandidateTouches(mid, c, if c.id in hits then hits[c.id] else 0, run);
    } else {
      OtherCandidates(ps, rest, hits, run, c.id);
      k := CandidateAnswered(mid, c, hits[c.id], run);
    }
  }

  // ---- what the types leave alone ----

  /** The row is neither a gate nor a deny list of the type, nor a manual one. */
  predicate Aside(p: Proposal, t: string) {
    !p.status.Manual? && !((p.kind == KIND_THRESHOLD || p.kind == KIND_DENY_LIST) && p.typ == t)
  }

  predicate Stays(ps: seq<Proposal>, qs: seq<Proposal>, k: nat) { k < |ps| && k < |qs| && qs[k] == ps[k] }

  lemma GateLeaves(ps: seq<Proposal>, t: string, e: Evidence, run: string, k: nat)
    requires k < |ps| && Aside(ps[k], t)
    ensures Stays(ps, UpsertGate(ps, t, e, run), k)
  {
  }

  lemma DenyLeaves(ps: seq<Proposal>, t: string, e: Evidence, run: string, k: nat)
    requires k < |ps| && Aside(ps[k], t)
    ensures Stays(ps, UpsertDeny(ps, t, e, run), k)
  {
  }

  lemma LeftoversLeave(ps: seq<Proposal>, t: string, misses: nat, gains: bool, run: string, k: nat)
    requires k < |ps| && !ps[k].status.Manual?
    ensures var ps1 := if misses > 0 then UpsertManual(ps, t, misses, run) else ps;
      Stays(ps, if gains then Supersede(ps1, t) else ps1, k)
  {
  }

  lemma TypeLeavesAside(ps: seq<Proposal>, t: string, e: Evidence, run: string, k: nat)
    requires k < |ps| && Aside(ps[k], t)
    ensures Stays(ps, UpsertType(ps, t, e, run), k)
  {
    var ps1 := UpsertGate(ps, t, e, run);
    GateLeaves(ps, t, e, run, k);
    DenyLeaves(ps1, t, e, run, k);
    LeftoversLeave(UpsertArtifacts(ps, t, e, run), t, e.manualMisses, GainsArtifact(ps, t, e, run), run, k);
  }

  /** A pattern's row, whoever wrote it, is aside for every type as long as it is a pattern. */
  lemma {:induction false} TypesLeaveAside(ps: seq<Proposal>, types: seq<string>, evidence: map<string, Evidence>,
                                           run: string, k: nat)
    requires k < |ps| && !ps[k].status.Manual? && ps[k].kind != KIND_THRESHOLD && ps[k].kind != KIND_DENY_LIST
    ensures Stays(ps, UpsertTypes(ps, types, evidence, run), k)
  {
    if types == [] {
    } else {
      var t, rest := types[|types| - 1], types[..|types| - 1];
      TypesLeaveAside(ps, rest, evidence, run, k);
      if t in evidence {
        TypeLeavesAside(UpsertTypes(ps, rest, evidence, run), t, evidence[t], run, k);
      }
    }
  }

  /** The run as a whole does to a pattern's row what its hits ask for. */
  predicate PatternEffect(ps: seq<Proposal>, qs: seq<Proposal>, c: Candidate, hits: nat, run: string) {
    && (c.id !in Ids(ps) ==> exists k :: |ps| <= k < |qs| && NewCandidateRow(qs[k], c, hits, run))
    && (forall k ::
          0 <= k < |ps| && ps[k].id == c.id && ps[k].status.Proposed? && (ps[k].kind == "" || ps[k].kind == KIND_REGEX)
          ==> k < |qs| && qs[k] == ps[k].(misses := ps[k].misses + hits, sourceRun := run))
    && (forall k :: 0 <= k < |ps| && ps[k].id == c.id && ps[k].IsSettled() ==> k < |qs| && qs[k] == ps[k])
  }

  lemma PatternAnswered(compiles: string -> bool, ps: seq<Proposal>, library: seq<Candidate>, hits: map<string, nat>,
                        types: seq<string>, evidence: map<string, Evidence>, run: string, n: nat)
    requires Sound(compiles, ps) && LibraryCompiles(compiles, library) && DistinctCandidates(library)
    requires forall t :: t in evidence ==> ValidEvidence(evidence[t])
    requires n < |library| && library[n].id in hits && hits[library[n].id] > 0
    ensures PatternEffect(ps, UpsertAll(ps, library, hits, types, evidence, run), library[n], hits[library[n].id], run)
  {
    var c := library[n];
    var mid, qs := UpsertCandidates(ps, library, hits, run), UpsertAll(ps, library, hits, types, evidence, run);
    var k := CandidatesAnswered(ps, library, hits, run, n);
    UpsertAllRefreshes(compiles, ps, library, hits, types, evidence, run);
    if k >= |ps| {
      TypesLeaveAside(mid, types, evidence, run, k);
      forall i | 0 <= i < |ps| ensures ps[i].id != c.id {}
    } else {
      OneRowPerId(compiles, ps, k);
      assert RowEvolves(ps[k], qs[k]);
      if (ps[k].kind == "" || ps[k].kind == KIND_REGEX) && ps[k].status.Proposed? {
        TypesLeaveAside(mid, types, evidence, run, k);
      }
      assert ps[k] in ps && c.id in Ids(ps);
    }
  }

  lemma OneRowPerId(compiles: string -> bool, ps: seq<Proposal>, k: nat)
    requires Sound(compiles, ps) && k < |ps|
    ensures forall i :: 0 <= i < |ps| && ps[i].id == ps[k].id ==> i == k
  {
    forall i | 0 <= i < |ps| && ps[i].id == ps[k].id ensures i == k {
      assert i < k || k < i || i == k;
    }
  }

  // ---- gates ----

  /** Row k answers the gate evidence: a settled one that asks for as little, or an open one that now does. */
  predicate GateEffect(ps: seq<Proposal>, qs: seq<Proposal>, k: nat, t: string, e: Evidence, run: string) {
    var needed := ProposeGate(e.minScore);
    && k < |qs| && qs[k].kind == KIND_THRESHOLD && qs[k].typ == t && qs[k].threshold <= needed
    && (k >= |ps| ==> qs[k].status.Proposed? && qs[k].threshold == needed && qs[k].misses == e.thresholdMisses
                      && qs[k].sourceRun == run)
    && (k < |ps| && ps[k].status.Proposed? ==>
          && qs[k].status.Proposed? && qs[k].misses == ps[k].misses + e.thresholdMisses && qs[k].sourceRun == run
          && (qs[k].threshold == needed || qs[k].threshold == ps[k].threshold))
    && (k < |ps| && !ps[k].status.Proposed? ==> qs[k] == ps[k] && (ps[k].status.Approved? || ps[k].status.Rejected?))
  }

  lemma GateAnswered(ps: seq<Proposal>, t: string, e: Evidence, run: string) returns (k: nat)
    ensures GateEffect(ps, UpsertThreshold(ps, t, e, run), k, t, e, run)
  {
    var needed := ProposeGate(e.minScore);
    var open := FirstOpen(ps, KIND_THRESHOLD, t);
    if Covered(ps, t, needed) {
      k :| 0 <= k < |ps| && Covers(ps[k], t, needed);
    } else if open < |ps| {
      k := open;
    } else {
      k := |ps|;
    }
  }

  // ---- deny terms ----

  /** The term stands in a deny row of the type, or the open row has no more room. */
  ghost predicate TermTaken(qs: seq<Proposal>, t: string, d: string) {
    || d in DenyTerms(qs, t)
    || exists i :: 0 <= i < |qs| && IsOpen(qs[i], KIND_DENY_LIST, t) && |qs[i].denyList| >= MAX_DENY_TERMS
  }

  lemma DenyTaken(ps: seq<Proposal>, t: string, e: Evidence, run: string, d: string)
    requires d in e.denyTerms
    ensures TermTaken(UpsertDeny(ps, t, e, run), t, d)
  {
    var qs, known := UpsertDeny(ps, t, e, run), DenyTerms(ps, t);
    var terms := Unknown(e.denyTerms, known);
    UnknownMembers(e.denyTerms, known);
    var open := FirstOpen(ps, KIND_DENY_LIST, t);
    if d in known {
      KnownStays(ps, t, e, run, d);
    } else if open < |ps| {
      var room := MAX_DENY_TERMS - |ps[open].denyList|;
      FirstTermsTake(terms, room, d);
      assert qs[open].denyList == ps[open].denyList + FirstTerms(terms, room);
      InDenyTermsIf(qs, open, t, d);
    } else {
      FirstTermsTake(terms, MAX_DENY_TERMS, d);
      assert terms != [] && qs[|ps|].denyList == FirstTerms(terms, MAX_DENY_TERMS);
      InDenyTermsIf(qs, |ps|, t, d);
    }
  }

  lemma InDenyTermsIf(qs: seq<Proposal>, i: int, t: string, d: string)
    requires 0 <= i < |qs| && IsDenyRow(qs[i], t)
    ensures d in qs[i].denyList ==> d in DenyTerms(qs, t)
  {
    if d in qs[i].denyList {
      InDenyTerms(qs, i, t, d);
    }
  }

  lemma FirstTermsTake(terms: seq<string>, n: int, d: string)
    requires d in terms
    ensures d in FirstTerms(terms, n) || |FirstTerms(terms, n)| >= n
  {
  }

  lemma KnownStays(ps: seq<Proposal>, t: string, e: Evidence, run: string, d: string)
    requires d in DenyTerms(ps, t)
    ensures d in DenyTerms(UpsertDeny(ps, t, e, run), t)
  {
    var p :| p in ps && IsDenyRow(p, t) && d in p.denyList;
    var i :| 0 <= i < |ps| && ps[i] == p;
    var qs := UpsertDeny(ps, t, e, run);
    assert IsDenyRow(qs[i], t) && d in qs[i].denyList;
    InDenyTerms(qs, i, t, d);
  }

  /** The row that takes the terms carries the run's misses, if one is open or some term is new. */
  predicate DenyEffect(ps: seq<Proposal>, qs: seq<Proposal>, k: nat, t: string, e: Evidence, run: string) {
    && k < |qs| && qs[k].kind == KIND_DENY_LIST && qs[k].typ == t && qs[k].status.Proposed? && qs[k].sourceRun == run
    && (k >= |ps| ==> qs[k].misses == e.denyMisses && qs[k].confidence == 1.0
                      && forall d :: d in qs[k].denyList ==> d in e.denyTerms)
    && (k < |ps| ==>
          && ps[k].status.Proposed? && qs[k].misses == ps[k].misses + e.denyMisses && ps[k].denyList <= qs[k].denyList
          && forall d :: d in qs[k].denyList ==> d in ps[k].denyList || d in e.denyTerms)
  }

  lemma DenyAnswered(ps: seq<Proposal>, t: string, e: Evidence, run: string) returns (k: nat)
    requires (exists d :: d in e.denyTerms && d !in DenyTerms(ps, t))
             || exists i :: 0 <= i < |ps| && IsOpen(ps[i], KIND_DENY_LIST, t)
    ensures DenyEffect(ps, UpsertDeny(ps, t, e, run), k, t, e, run)
  {
    UnknownMembers(e.denyTerms, DenyTerms(ps, t));
    k := FirstOpen(ps, KIND_DENY_LIST, t);
  }

  // ---- manual rows ----

  function ManualId(t: string): string { "manual-" + t }

  /** What becomes of the type's manual row: more misses, a new row, and no longer open once there is an artifact. */
  predicate ManualEffect(ps: seq<Proposal>, qs: seq<Proposal>, t: string, misses: nat, gains: bool, run: string) {
    && (forall k :: 0 <= k < |ps| && ps[k].id == ManualId(t) && ps[k].status.Manual? ==>
          k < |qs| && qs[k] == ps[k].(misses := ps[k].misses + misses, status := if gains then Superseded else Manual))
    && (misses > 0 && (forall k :: 0 <= k < |ps| ==> ps[k].id != ManualId(t)) ==>
          exists k :: |ps| <= k < |qs| && qs[k].id == ManualId(t) && qs[k].typ == t && qs[k].kind == ""
            && qs[k].misses == misses && qs[k].sourceRun == run
            && qs[k].status == if gains then Superseded else Manual)
  }

  lemma MoreManual(ps: seq<Proposal>, t: string, misses: nat, run: string, i: nat)
    requires i == FirstWithId(ps, "manual-" + t) && i < |ps| && ps[i].status.Manual?
    ensures UpsertManual(ps, t, misses, run) == ps[i := ps[i].(misses := ps[i].misses + misses)]
  {
  }

  lemma SupersedeRow(ps: seq<Proposal>, t: string, i: nat)
    requires i == FirstWithId(ps, "manual-" + t) && i < |ps| && ps[i].status.Manual?
    ensures Supersede(ps, t) == ps[i := ps[i].(status := Superseded)]
  {
  }

  lemma ManualGrown(ps: seq<Proposal>, t: string, misses: nat, gains: bool, run: string, i: nat, ps1: seq<Proposal>,
                    qs: seq<Proposal>)
    requires i == FirstWithId(ps, "manual-" + t) && i < |ps| && ps[i].status.Manual?
    requires ps1 == if misses > 0 then UpsertManual(ps, t, misses, run) else ps
    requires qs == if gains then Supersede(ps1, t) else ps1
    ensures qs == ps[i := ps[i].(misses := ps[i].misses + misses, status := if gains then Superseded else Manual)]
  {
    if misses > 0 {
      MoreManual(ps, t, misses, run, i);
    }
    assert ps1 == ps[i := ps[i].(misses := ps[i].misses + misses)];
    SameFirst(ps, ps1, "manual-" + t);
    if gains {
      SupersedeRow(ps1, t, i);
    }
  }

  lemma OnlyManualRow(compiles: string -> bool, ps: seq<Proposal>, qs: seq<Proposal>, t: string, misses: nat,
                      gains: bool, run: string, i: nat)
    requires Sound(compiles, ps) && i < |ps| && ps[i].id == ManualId(t)
    requires ps[i].status.Manual? ==>
               qs == ps[i := ps[i].(misses := ps[i].misses + misses, status := if gains then Superseded else Manual)]
    ensures ManualEffect(ps, qs, t, misses, gains, run)
  {
    OneRowPerId(compiles, ps, i);
  }

  lemma ManualGrows(compiles: string -> bool, ps: seq<Proposal>, t: string, misses: nat, gains: bool, run: string,
                    i: nat)
    requires Sound(compiles, ps) && i == FirstWithId(ps, "manual-" + t) && i < |ps|
    ensures var ps1 := if misses > 0 then UpsertManual(ps, t, misses, run) else ps;
      ManualEffect(ps, if gains then Supersede(ps1, t) else ps1, t, misses, gains, run)
  {
    var ps1 := if misses > 0 then UpsertManual(ps, t, misses, run) else ps;
    var qs := if gains then Supersede(ps1, t) else ps1;
    if ps[i].status.Manual? {
      ManualGrown(ps, t, misses, gains, run, i, ps1, qs);
    }
    OnlyManualRow(compiles, ps, qs, t, misses, gains, run, i);
  }

  lemma ManualOpens(ps: seq<Proposal>, t: string, misses: nat, gains: bool, run: string)
    requires FirstWithId(ps, ManualId(t)) == |ps| && misses > 0
    ensures var ps1 := UpsertManual(ps, t, misses, run);
      ManualEffect(ps, if gains then Supersede(ps1, t) else ps1, t, misses, gains, run)
  {
    var ps1 := UpsertManual(ps, t, misses, run);
    var row := Proposal(ManualId(t), t, "", "", [], [], 0.0, 0.0, misses, Manual, run);
    assert ps1 == ps + [row];
    AppendedFirst(ps, row, ManualId(t));
    var qs := if gains then Supersede(ps1, t) else ps1;
    assert qs[|ps|] == row.(status := if gains then Superseded else Manual);
  }

  lemma ManualAnswered(compiles: string -> bool, ps: seq<Proposal>, t: string, misses: nat, gains: bool, run: string)
    requires Sound(compiles, ps)
    ensures var ps1 := if misses > 0 then UpsertManual(ps, t, misses, run) else ps;
      ManualEffect(ps, if gains then Supersede(ps1, t) else ps1, t, misses, gains, run)
  {
    var i := FirstWithId(ps, ManualId(t));
    if i < |ps| {
      ManualGrows(compiles, ps, t, misses, gains, run, i);
    } else if misses > 0 {
      ManualOpens(ps, t, misses, gains, run);
    }
  }

  lemma {:induction false} SameFirst(ps: seq<Proposal>, qs: seq<Proposal>, id: string)
    requires |qs| == |ps| && forall i :: 0 <= i < |ps| ==> qs[i].id == ps[i].id
    ensures FirstWithId(qs, id) == FirstWithId(ps, id)
    decreases |ps|
  {
    if ps == [] {
    } else {
      SameFirst(ps[1..], qs[1..], id);
    }
  }

  lemma AppendedFirst(ps: seq<Proposal>, q: Proposal, id: string)
    requires q.id == id && FirstWithId(ps, id) == |ps|
    ensures FirstWithId(ps + [q], id) == |ps|
  {
    assert (ps + [q])[|ps|] == q;
    assert forall j :: 0 <= j < |ps| ==> (ps + [q])[j] == ps[j];
  }

  // ---- one type ----

  /**
   * The artifacts this evidence gains: a gate not yet covered, or a deny row that is open or has
   * something new to hold.
   */
  ghost predicate Gains(ps: seq<Proposal>, t: string, e: Evidence) {
    || (e.thresholdMisses > 0 && forall i :: 0 <= i < |ps| ==>
          !(ps[i].kind == KIND_THRESHOLD && ps[i].typ == t && (ps[i].status.Approved? || ps[i].status.Rejected?)
            && ps[i].threshold <= ProposeGate(e.minScore)))
    || (e.denyTerms != [] && ((exists d :: d in e.denyTerms && d !in DenyTerms(ps, t))
                              || exists i :: 0 <= i < |ps| && IsOpen(ps[i], KIND_DENY_LIST, t)))
  }

  lemma GateLeavesDeny(ps: seq<Proposal>, t: string, e: Evidence, run: string)
    ensures var qs := UpsertGate(ps, t, e, run);
      && DenyTerms(qs, t) == DenyTerms(ps, t)
      && ((exists i :: 0 <= i < |qs| && IsOpen(qs[i], KIND_DENY_LIST, t))
          <==> exists i :: 0 <= i < |ps| && IsOpen(ps[i], KIND_DENY_LIST, t))
  {
    var qs := UpsertGate(ps, t, e, run);
    forall i | 0 <= i < |ps|
      ensures i < |qs| && (IsDenyRow(ps[i], t) ==> qs[i] == ps[i]) && (IsDenyRow(qs[i], t) ==> qs[i] == ps[i])
    {
    }
    assert forall i :: |ps| <= i < |qs| ==> !IsDenyRow(qs[i], t);
    forall d ensures d in DenyTerms(qs, t) <==> d in DenyTerms(ps, t) {
      if d in DenyTerms(qs, t) {
        var q :| q in qs && IsDenyRow(q, t) && d in q.denyList;
        var i :| 0 <= i < |qs| && qs[i] == q;
        InDenyTerms(ps, i, t, d);
      }
      if d in DenyTerms(ps, t) {
        var p :| p in ps && IsDenyRow(p, t) && d in p.denyList;
        var i :| 0 <= i < |ps| && ps[i] == p;
        InDenyTerms(qs, i, t, d);
      }
    }
  }

  /** The flag that supersedes the manual row says exactly that an artifact is gained. */
  lemma GainsExactly(ps: seq<Proposal>, t: string, e: Evidence, run: string)
    ensures GainsArtifact(ps, t, e, run) <==> Gains(ps, t, e)
  {
    GateLeavesDeny(ps, t, e, run);
    var qs := UpsertGate(ps, t, e, run);
    UnknownMembers(e.denyTerms, DenyTerms(qs, t));
    var terms := Unknown(e.denyTerms, DenyTerms(qs, t));
    assert terms != [] <==> exists d :: d in terms by {
      if terms != [] { assert terms[0] in terms; }
    }
  }

  /** What the evidence of one type brings about. */
  ghost predicate TypeEffect(ps: seq<Proposal>, qs: seq<Proposal>, t: string, e: Evidence, run: string) {
    && (e.thresholdMisses > 0
        ==> exists k {:trigger GateEffect(ps, qs, k, t, e, run)} :: GateEffect(ps, qs, k, t, e, run))
    && (forall d :: d in e.denyTerms ==> TermTaken(qs, t, d))
    && (e.denyTerms != [] && ((exists d :: d in e.denyTerms && d !in DenyTerms(ps, t))
                              || exists i :: 0 <= i < |ps| && IsOpen(ps[i], KIND_DENY_LIST, t)) ==>
          exists k {:trigger DenyEffect(ps, qs, k, t, e, run)} :: DenyEffect(ps, qs, k, t, e, run))
    && ManualEffect(ps, qs, t, e.manualMisses, Gains(ps, t, e), run)
  }

  lemma GateEffectLater(ps: seq<Proposal>, ps1: seq<Proposal>, qs: seq<Proposal>, k: nat, t: string, e: Evidence,
                        run: string)
    requires GateEffect(ps, ps1, k, t, e, run) && Stays(ps1, qs, k)
    ensures GateEffect(ps, qs, k, t, e, run)
  {
  }

  /** Rows of artifacts are no manual rows, so what is done to those leaves them alone. */
  lemma ArtifactRowStays(compiles: string -> bool, ps: seq<Proposal>, t: string, misses: nat, gains: bool,
                         run: string, k: nat)
    requires Sound(compiles, ps) && k < |ps| && (ps[k].kind == KIND_THRESHOLD || ps[k].kind == KIND_DENY_LIST)
    ensures var ps1 := if misses > 0 then UpsertManual(ps, t, misses, run) else ps;
      Stays(ps, if gains then Supersede(ps1, t) else ps1, k)
  {
    assert SoundRow(compiles, ps[k]);
    LeftoversLeave(ps, t, misses, gains, run, k);
  }

  lemma GateRowStays(ps: seq<Proposal>, t: string, e: Evidence, run: string, k: nat)
    requires k < |ps| && ps[k].kind == KIND_THRESHOLD
    ensures Stays(ps, if e.denyTerms != [] then UpsertDeny(ps, t, e, run) else ps, k)
  {
  }

  lemma TypeGate(compiles: string -> bool, ps: seq<Proposal>, t: string, e: Evidence, run: string) returns (k: nat)
    requires Sound(compiles, ps) && ValidEvidence(e) && e.thresholdMisses > 0
    ensures GateEffect(ps, UpsertType(ps, t, e, run), k, t, e, run)
  {
    ArtifactsRefresh(compiles, ps, t, e, run);
    var ps1, ps2 := UpsertGate(ps, t, e, run), UpsertArtifacts(ps, t, e, run);
    k := GateAnswered(ps, t, e, run);
    GateRowStays(ps1, t, e, run, k);
    ArtifactRowStays(compiles, ps2, t, e.manualMisses, GainsArtifact(ps, t, e, run), run, k);
    GateEffectLater(ps, ps1, ps2, k, t, e, run);
    GateEffectLater(ps, ps2, UpsertType(ps, t, e, run), k, t, e, run);
  }

  lemma TermTakenLater(compiles: string -> bool, ps: seq<Proposal>, qs: seq<Proposal>, t: string, d: string)
    requires Refreshes(compiles, ps, qs) && TermTaken(ps, t, d)
    ensures TermTaken(qs, t, d)
  {
    if d in DenyTerms(ps, t) {
      DenyTermsGrow(ps, qs, t);
    } else {
      var i :| 0 <= i < |ps| && IsOpen(ps[i], KIND_DENY_LIST, t) && |ps[i].denyList| >= MAX_DENY_TERMS;
      assert RowEvolves(ps[i], qs[i]);
    }
  }

  lemma TypeTakesTerms(compiles: string -> bool, ps: seq<Proposal>, t: string, e: Evidence, run: string, d: string)
    requires Sound(compiles, ps) && ValidEvidence(e) && d in e.denyTerms
    ensures TermTaken(UpsertType(ps, t, e, run), t, d)
  {
    ArtifactsRefresh(compiles, ps, t, e, run);
    var ps1, ps2 := UpsertGate(ps, t, e, run), UpsertArtifacts(ps, t, e, run);
    DenyTaken(ps1, t, e, run, d);
    LeftoversRefresh(compiles, ps2, t, e.manualMisses, GainsArtifact(ps, t, e, run), run);
    TermTakenLater(compiles, ps2, UpsertType(ps, t, e, run), t, d);
  }

  lemma DenyEffectFrom(ps: seq<Proposal>, ps1: seq<Proposal>, ps2: seq<Proposal>, qs: seq<Proposal>, k: nat, t: string,
                       e: Evidence, run: string)
    requires DenyEffect(ps1, ps2, k, t, e, run) && |ps| <= |ps1| && Stays(ps2, qs, k)
    requires k < |ps1| ==> k < |ps| && ps1[k] == ps[k]
    ensures DenyEffect(ps, qs, k, t, e, run)
  {
  }

  lemma TypeDeny(compiles: string -> bool, ps: seq<Proposal>, t: string, e: Evidence, run: string) returns (k: nat)
    requires Sound(compiles, ps) && ValidEvidence(e) && e.denyTerms != []
    requires (exists d :: d in e.denyTerms && d !in DenyTerms(ps, t))
             || exists i :: 0 <= i < |ps| && IsOpen(ps[i], KIND_DENY_LIST, t)
    ensures DenyEffect(ps, UpsertType(ps, t, e, run), k, t, e, run)
  {
    ArtifactsRefresh(compiles, ps, t, e, run);
    var ps1, ps2 := UpsertGate(ps, t, e, run), UpsertArtifacts(ps, t, e, run);
    GateLeavesDeny(ps, t, e, run);
    k := DenyAnswered(ps1, t, e, run);
    DenyRowBefore(ps, t, e, run, k);
    ArtifactRowStays(compiles, ps2, t, e.manualMisses, GainsArtifact(ps, t, e, run), run, k);
    DenyEffectFrom(ps, ps1, ps2, UpsertType(ps, t, e, run), k, t, e, run);
  }

  lemma DenyRowBefore(ps: seq<Proposal>, t: string, e: Evidence, run: string, k: nat)
    ensures var ps1 := UpsertGate(ps, t, e, run);
      |ps| <= |ps1| && (k < |ps1| && ps1[k].kind == KIND_DENY_LIST ==> k < |ps| && ps1[k] == ps[k])
  {
  }

  lemma ManualFrom(ps: seq<Proposal>, ps2: seq<Proposal>, qs: seq<Proposal>, t: string, misses: nat, gains: bool,
                   run: string)
    requires ManualEffect(ps2, qs, t, misses, gains, run) && |ps| <= |ps2|
    requires forall i :: 0 <= i < |ps| ==> ps2[i].id == ps[i].id && (ps[i].status.Manual? ==> ps2[i] == ps[i])
    requires forall i :: |ps| <= i < |ps2| ==> ps2[i].id != ManualId(t)
    ensures ManualEffect(ps, qs, t, misses, gains, run)
  {
  }

  lemma {:induction false} FreeFromBegins(taken: set<string>, base: string, n: nat)
    requires base != ""
    ensures FreeFrom(taken, base, n) != "" && FreeFrom(taken, base, n)[0] == base[0]
    decreases |taken|
  {
    var id := Numbered(base, n);
    assert id[0] == base[0];
    if id in taken {
      FreeFromBegins(taken - {id}, base, n + 1);
    }
  }

  /** Artifact rows get ids of their own, and manual rows are left alone by them. */
  predicate ApartFromManual(ps: seq<Proposal>, qs: seq<Proposal>, t: string) {
    && |ps| <= |qs|
    && (forall i :: 0 <= i < |ps| ==> qs[i].id == ps[i].id && (ps[i].status.Manual? ==> qs[i] == ps[i]))
    && (forall i :: |ps| <= i < |qs| ==> qs[i].id != ManualId(t))
  }

  lemma GateApart(ps: seq<Proposal>, t: string, e: Evidence, run: string)
    ensures ApartFromManual(ps, UpsertGate(ps, t, e, run), t)
  {
    var base := "threshold-" + t;
    assert base[0] == 't' && ManualId(t)[0] == 'm';
    FreeFromBegins(Ids(ps), base, 2);
  }

  lemma DenyApart(ps: seq<Proposal>, t: string, e: Evidence, run: string)
    ensures ApartFromManual(ps, UpsertDeny(ps, t, e, run), t)
  {
    var base := "deny-" + t;
    assert base[0] == 'd' && ManualId(t)[0] == 'm';
    FreeFromBegins(Ids(ps), base, 2);
  }

  lemma TypeManual(compiles: string -> bool, ps: seq<Proposal>, t: string, e: Evidence, run: string)
    requires Sound(compiles, ps) && ValidEvidence(e)
    ensures ManualEffect(ps, UpsertType(ps, t, e, run), t, e.manualMisses, Gains(ps, t, e), run)
  {
    ArtifactsRefresh(compiles, ps, t, e, run);
    var ps2 := UpsertArtifacts(ps, t, e, run);
    ManualAnswered(compiles, ps2, t, e.manualMisses, GainsArtifact(ps, t, e, run), run);
    GainsExactly(ps, t, e, run);
    GateApart(ps, t, e, run);
    DenyApart(UpsertGate(ps, t, e, run), t, e, run);
    ManualFrom(ps, ps2, UpsertType(ps, t, e, run), t, e.manualMisses, Gains(ps, t, e), run);
  }

  /** What the evidence of one type brings about in the list. */
  lemma TypeAnswered(compiles: string -> bool, ps: seq<Proposal>, t: string, e: Evidence, run: string)
    requires Sound(compiles, ps) && ValidEvidence(e)
    ensures TypeEffect(ps, UpsertType(ps, t, e, run), t, e, run)
  {
    var qs := UpsertType(ps, t, e, run);
    if e.thresholdMisses > 0 {
      var k := TypeGate(compiles, ps, t, e, run);
    }
    forall d | d in e.denyTerms ensures TermTaken(qs, t, d) {
      TypeTakesTerms(compiles, ps, t, e, run, d);
    }
    if e.denyTerms != [] && ((exists d :: d in e.denyTerms && d !in DenyTerms(ps, t))
                             || exists i :: 0 <= i < |ps| && IsOpen(ps[i], KIND_DENY_LIST, t)) {
      var k := TypeDeny(compiles, ps, t, e, run);
    }
    TypeManual(compiles, ps, t, e, run);
  }

  /** Over a whole run: the deny terms of every type's evidence are taken, and its manual misses have a row. */
  lemma {:induction false} RunTakesTerms(compiles: string -> bool, ps: seq<Proposal>, types: seq<string>,
                                         evidence: map<string, Evidence>, run: string, t: string, d: string)
    requires Sound(compiles, ps) && forall u :: u in evidence ==> ValidEvidence(evidence[u])
    requires t in types && t in evidence && d in evidence[t].denyTerms
    ensures TermTaken(UpsertTypes(ps, types, evidence, run), t, d)
  {
    var u, rest := types[|types| - 1], types[..|types| - 1];
    var mid := UpsertTypes(ps, rest, evidence, run);
    TypesRefresh(compiles, ps, rest, evidence, run);
    if u == t {
      TypeTakesTerms(compiles, mid, t, evidence[t], run, d);
    } else {
      RunTakesTerms(compiles, ps, rest, evidence, run, t, d);
      if u in evidence {
        TypeRefreshes(compiles, mid, u, evidence[u], run);
        TermTakenLater(compiles, mid, UpsertType(mid, u, evidence[u], run), t, d);
      }
    }
  }

  lemma AllTermsTaken(compiles: string -> bool, ps: seq<Proposal>, library: seq<Candidate>, hits: map<string, nat>,
                      types: seq<string>, evidence: map<string, Evidence>, run: string, t: string, d: string)
    requires Sound(compiles, ps) && LibraryCompiles(compiles, library)
    requires forall u :: u in evidence ==> ValidEvidence(evidence[u])
    requires t in types && t in evidence && d in evidence[t].denyTerms
    ensures TermTaken(UpsertAll(ps, library, hits, types, evidence, run), t, d)
  {
    CandidatesRefresh(compiles, ps, library, hits, run);
    RunTakesTerms(compiles, UpsertCandidates(ps, library, hits, run), types, evidence, run, t, d);
  }
}
