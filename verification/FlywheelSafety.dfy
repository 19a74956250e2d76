/**
 * What holds over every run of the flywheel: settled rows stay settled, approval cannot fail,
 * rejected terms do not return, gates only ratchet down, and what gateways install is what
 * was approved.
 */
module FlywheelSafety {
  import opened Common
  import opened Packs
  import opened Proposals
  import opened Upserts
  import opened Ratchet
  import opened Flywheel
  import opened Gathering
  import opened FlywheelRuns
  import opened SidecarProbe
  import Detection

  lemma AfterOneMore(compiles: string -> bool, lib: seq<Candidate>, before: seq<Step>, more: seq<Step>)
    requires more != []
    ensures After(compiles, lib, before + more)
         == Apply(compiles, lib, After(compiles, lib, before + more[..|more| - 1]), more[|more| - 1])
  {
    var all := before + more;
    assert all[..|all| - 1] == before + more[..|more| - 1];
  }

  /** Rows are never removed or reordered, and published rules are only ever added to. */
  lemma {:induction false} HistoryKept(compiles: string -> bool, lib: seq<Candidate>, before: seq<Step>,
                                       more: seq<Step>)
    requires LibraryCompiles(compiles, lib)
    ensures Follows(After(compiles, lib, before), After(compiles, lib, before + more))
  {
    var s := After(compiles, lib, before);
    if more == [] {
      assert before + more == before;
      EvolvesReflexive(s.proposals);
    } else {
      var rest := more[..|more| - 1];
      HistoryKept(compiles, lib, before, rest);
      AfterOneMore(compiles, lib, before, more);
      EveryRunConsistent(compiles, lib, before + rest);
      var s' := After(compiles, lib, before + rest);
      StepConsistent(compiles, lib, s', more[|more| - 1]);
      EvolvesTransitive(s.proposals, s'.proposals, After(compiles, lib, before + more).proposals);
    }
  }

  lemma IdFindsRow(ps: seq<Proposal>, i: nat)
    requires UniqueIds(ps) && i < |ps|
    ensures FirstWithId(ps, ps[i].id) == i && forall j :: 0 <= j < |ps| && ps[j].id == ps[i].id ==> j == i
  {
    forall j | 0 <= j < |ps| && ps[j].id == ps[i].id ensures j == i {
      assert j < i || i < j || i == j;
    }
  }

  /** In a consistent state, approving a proposed row succeeds and publishes the next version. */
  lemma ApprovalSucceeds(compiles: string -> bool, lib: seq<Candidate>, s: State, i: nat)
    requires Consistent(compiles, s) && i < |s.proposals| && s.proposals[i].status.Proposed?
    ensures var s' := Apply(compiles, lib, s, Approve(s.proposals[i].id));
      s'.proposals == Settle(s.proposals, i, Approved) && s'.pack.version == s.pack.version + 1
  {
    IdFindsRow(s.proposals, i);
    ApproveConsistent(compiles, s, s.proposals[i].id);
  }

  /**
   * The life of a proposal: its id is its own, once it is approved, rejected or superseded it
   * never changes again, and as long as it is proposed approving it succeeds.
   */
  lemma ProposalLifecycle(compiles: string -> bool, lib: seq<Candidate>, before: seq<Step>, more: seq<Step>, i: nat)
    requires LibraryCompiles(compiles, lib) && i < |After(compiles, lib, before).proposals|
    ensures var p, s := After(compiles, lib, before).proposals[i], After(compiles, lib, before + more);
      && i < |s.proposals| && s.proposals[i].id == p.id
      && (forall j :: 0 <= j < |s.proposals| && s.proposals[j].id == p.id ==> j == i)
      && (p.IsSettled() ==> s.proposals[i] == p)
      && (s.proposals[i].status.Proposed? ==>
            var s' := Apply(compiles, lib, s, Approve(p.id));
            s'.proposals == Settle(s.proposals, i, Approved) && s'.pack.version == s.pack.version + 1)
  {
    HistoryKept(compiles, lib, before, more);
    EveryRunConsistent(compiles, lib, before + more);
    var p, s := After(compiles, lib, before).proposals[i], After(compiles, lib, before + more);
    assert RowEvolves(p, s.proposals[i]);
    IdFindsRow(s.proposals, i);
    if s.proposals[i].status.Proposed? {
      ApprovalSucceeds(compiles, lib, s, i);
    }
  }

  // ---- deny terms ----

  /** No owner writes a deny list for the type by hand. */
  predicate NoAuthoredDeny(steps: seq<Step>, t: string) {
    forall k :: 0 <= k < |steps| && steps[k].Author? ==> !IsDenyRow(steps[k].draft, t)
  }

  ghost predicate RevivesNothing(ps: seq<Proposal>, qs: seq<Proposal>, t: string) {
    NoRevival(ps, qs, t) && (OneHolder(ps, t) ==> OneHolder(qs, t))
  }

  lemma QuietForTerms(ps: seq<Proposal>, t: string)
    ensures RevivesNothing(ps, ps, t)
  {
  }

  lemma SettlingRevivesNothing(ps: seq<Proposal>, i: nat, verdict: Status, t: string)
    requires i < |ps|
    ensures RevivesNothing(ps, Settle(ps, i, verdict), t)
  {
  }

  lemma AppendingRevivesNothing(ps: seq<Proposal>, p: Proposal, t: string)
    requires !IsDenyRow(p, t)
    ensures RevivesNothing(ps, ps + [p], t)
  {
  }

  lemma UpsertRevivesNothing(compiles: string -> bool, lib: seq<Candidate>, s: State, step: Step, t: string)
    requires LibraryCompiles(compiles, lib) && Consistent(compiles, s) && step.Upsert?
    ensures RevivesNothing(s.proposals, Apply(compiles, lib, s, step).proposals, t)
  {
    QuietForTerms(s.proposals, t);
    if step.evidence in s.pending {
      UpsertConsistent(compiles, lib, s, step.run, step.hits, step.types, step.evidence);
    }
  }

  lemma StepRevivesNothing(compiles: string -> bool, lib: seq<Candidate>, s: State, step: Step, t: string)
    requires LibraryCompiles(compiles, lib) && Consistent(compiles, s)
    requires step.Author? ==> !IsDenyRow(step.draft, t)
    ensures RevivesNothing(s.proposals, Apply(compiles, lib, s, step).proposals, t)
  {
    if step.Upsert? {
      UpsertRevivesNothing(compiles, lib, s, step, t);
    } else if step.Author? {
      QuietForTerms(s.proposals, t);
      var r := Authored(compiles, s.proposals, step.draft, step.rationale, step.uuid);
      if r.Ok? {
        AppendingRevivesNothing(s.proposals, r.value, t);
      }
    } else if step.Approve? || step.Reject? {
      QuietForTerms(s.proposals, t);
      var at := Settleable(s.proposals, step.id);
      if at.Some? {
        SettlingRevivesNothing(s.proposals, at.value, if step.Approve? then Approved else Rejected, t);
      }
    } else {
      QuietForTerms(s.proposals, t);
    }
  }

  /** This step is an owner writing a deny row with the term by hand, and it becomes row i. */
  ghost predicate WritesRow(compiles: string -> bool, lib: seq<Candidate>, s: State, step: Step, t: string, i: int,
                            d: string)
  {
    && step.Author? && IsDenyRow(step.draft, t) && d in step.draft.denyList
    && i == |s.proposals| < |Apply(compiles, lib, s, step).proposals|
  }

  /** Some step of the run has written row i by hand, with the term in it. */
  ghost predicate WrittenByHand(compiles: string -> bool, lib: seq<Candidate>, before: seq<Step>, more: seq<Step>,
                                t: string, i: int, d: string)
  {
    exists k {:trigger more[k]} ::
      0 <= k < |more| && WritesRow(compiles, lib, After(compiles, lib, before + more[..k]), more[k], t, i, d)
  }

  lemma StepRevivesOnlyByHand(compiles: string -> bool, lib: seq<Candidate>, s: State, step: Step, t: string, i: int,
                              d: string)
    requires LibraryCompiles(compiles, lib) && Consistent(compiles, s)
    requires var qs := Apply(compiles, lib, s, step).proposals;
      0 <= i < |qs| && IsDenyRow(qs[i], t) && d in qs[i].denyList && d in DenyTerms(s.proposals, t)
    ensures (i < |s.proposals| && d in s.proposals[i].denyList) || WritesRow(compiles, lib, s, step, t, i, d)
  {
    if step.Author? && IsDenyRow(step.draft, t) {
      var r := Authored(compiles, s.proposals, step.draft, step.rationale, step.uuid);
    } else {
      StepRevivesNothing(compiles, lib, s, step, t);
    }
  }

  lemma WrittenEarlier(compiles: string -> bool, lib: seq<Candidate>, before: seq<Step>, rest: seq<Step>, step: Step,
                       t: string, i: int, d: string)
    requires WrittenByHand(compiles, lib, before, rest, t, i, d)
    ensures WrittenByHand(compiles, lib, before, rest + [step], t, i, d)
  {
    var more := rest + [step];
    var k {:trigger rest[k]} :| 0 <= k < |rest|
      && WritesRow(compiles, lib, After(compiles, lib, before + rest[..k]), rest[k], t, i, d);
    assert more[k] == rest[k] && more[..k] == rest[..k];
  }

  lemma WrittenLast(compiles: string -> bool, lib: seq<Candidate>, before: seq<Step>, rest: seq<Step>, step: Step,
                    t: string, i: int, d: string)
    requires WritesRow(compiles, lib, After(compiles, lib, before + rest), step, t, i, d)
    ensures WrittenByHand(compiles, lib, before, rest + [step], t, i, d)
  {
    var more := rest + [step];
    assert more[|rest|] == step && more[..|rest|] == rest;
  }

  /**
   * Over every run: a term that some deny row has held, whatever became of that row, stands in
   * another row only if an owner has since written that very row by hand, with the term in it.
   */
  lemma {:induction false} TermReturnsOnlyByHand(compiles: string -> bool, lib: seq<Candidate>, before: seq<Step>,
                                                 more: seq<Step>, t: string, i: int, d: string)
    requires LibraryCompiles(compiles, lib)
    requires var qs := After(compiles, lib, before + more).proposals;
      0 <= i < |qs| && IsDenyRow(qs[i], t) && d in qs[i].denyList
        && d in DenyTerms(After(compiles, lib, before).proposals, t)
    ensures var ps := After(compiles, lib, before).proposals;
      (i < |ps| && d in ps[i].denyList) || WrittenByHand(compiles, lib, before, more, t, i, d)
    decreases |more|
  {
    if more == [] {
      assert before + more == before;
    } else {
      var rest, step := more[..|more| - 1], more[|more| - 1];
      assert rest + [step] == more;
      var s := After(compiles, lib, before + rest);
      HistoryKept(compiles, lib, before, rest);
      DenyTermsGrow(After(compiles, lib, before).proposals, s.proposals, t);
      AfterOneMore(compiles, lib, before, more);
      EveryRunConsistent(compiles, lib, before + rest);
      StepRevivesOnlyByHand(compiles, lib, s, step, t, i, d);
      if WritesRow(compiles, lib, s, step, t, i, d) {
        WrittenLast(compiles, lib, before, rest, step, t, i, d);
      } else {
        StepConsistent(compiles, lib, s, step);
        assert RowEvolves(s.proposals[i], Apply(compiles, lib, s, step).proposals[i]);
        TermReturnsOnlyByHand(compiles, lib, before, rest, t, i, d);
        if WrittenByHand(compiles, lib, before, rest, t, i, d) {
          WrittenEarlier(compiles, lib, before, rest, step, t, i, d);
        }
      }
    }
  }

  /** The same for all rows and terms at once: the flywheel proposes no term again. */
  lemma RejectedTermsStayRejected(compiles: string -> bool, lib: seq<Candidate>, before: seq<Step>, more: seq<Step>,
                                  t: string)
    requires LibraryCompiles(compiles, lib)
    ensures var ps, qs := After(compiles, lib, before).proposals, After(compiles, lib, before + more).proposals;
      forall i, d :: 0 <= i < |qs| && IsDenyRow(qs[i], t) && d in qs[i].denyList && d in DenyTerms(ps, t)
        ==> (i < |ps| && d in ps[i].denyList) || WrittenByHand(compiles, lib, before, more, t, i, d)
  {
    var ps, qs := After(compiles, lib, before).proposals, After(compiles, lib, before + more).proposals;
    forall i, d | 0 <= i < |qs| && IsDenyRow(qs[i], t) && d in qs[i].denyList && d in DenyTerms(ps, t)
      ensures (i < |ps| && d in ps[i].denyList) || WrittenByHand(compiles, lib, before, more, t, i, d)
    {
      TermReturnsOnlyByHand(compiles, lib, before, more, t, i, d);
    }
  }

  /** Every upsert of every run, hand-written rows or not, proposes only terms new to all deny rows of the type. */
  lemma UpsertsProposeNewTerms(compiles: string -> bool, lib: seq<Candidate>, before: seq<Step>, upsert: Step,
                               t: string)
    requires LibraryCompiles(compiles, lib) && upsert.Upsert?
    ensures NoRevival(After(compiles, lib, before).proposals, After(compiles, lib, before + [upsert]).proposals, t)
  {
    EveryRunConsistent(compiles, lib, before);
    UpsertRevivesNothing(compiles, lib, After(compiles, lib, before), upsert, t);
    assert (before + [upsert])[..|before|] == before;
  }

  /** Unless an owner writes one by hand, each term stands in at most one deny row, of at most fifty. */
  lemma {:induction false} EachTermHasOneHolder(compiles: string -> bool, lib: seq<Candidate>, steps: seq<Step>,
                                                t: string)
    requires LibraryCompiles(compiles, lib) && NoAuthoredDeny(steps, t)
    ensures var ps := After(compiles, lib, steps).proposals;
      && OneHolder(ps, t)
      && forall i :: 0 <= i < |ps| && ps[i].kind == KIND_DENY_LIST ==> |ps[i].denyList| <= MAX_DENY_TERMS
  {
    EveryRunConsistent(compiles, lib, steps);
    var ps := After(compiles, lib, steps).proposals;
    forall i | 0 <= i < |ps| && ps[i].kind == KIND_DENY_LIST ensures |ps[i].denyList| <= MAX_DENY_TERMS {
      assert SoundRow(compiles, ps[i]);
    }
    if steps == [] {
    } else {
      var rest, step := steps[..|steps| - 1], steps[|steps| - 1];
      EachTermHasOneHolder(compiles, lib, rest, t);
      EveryRunConsistent(compiles, lib, rest);
      StepRevivesNothing(compiles, lib, After(compiles, lib, rest), step, t);
    }
  }

  // ---- the ratchet ----

  /** No owner writes a threshold row for the type by hand. */
  predicate NoAuthoredGate(steps: seq<Step>, t: string) {
    forall k :: 0 <= k < |steps| && steps[k].Author? ==> !IsGateRow(steps[k].draft, t)
  }

  ghost predicate PendingBelow(pending: set<map<string, Evidence>>, t: string) {
    forall ev :: ev in pending ==> BelowDefault(ev, t)
  }

  lemma GateRuleOnRatchet(compiles: string -> bool, ps: seq<Proposal>, r: Rule, t: string)
    requires FromRow(compiles, ps, r) && Ratchets(ps, t) && r.IsGate() && r.typ == t
    ensures r.threshold <= DEFAULT_GATE
  {
    var i :| 0 <= i < |ps| && ps[i].status.Approved? && RuleFromProposal(compiles, ps[i]) == Ok(r);
    assert IsGateRow(ps[i], t) && OnRatchet(ps[i]);
  }

  /** Under a ratcheted list the gate in force never lies above the default. */
  lemma GateAtMostDefault(compiles: string -> bool, ps: seq<Proposal>, rules: seq<Rule>, gates: map<string, real>,
                          t: string)
    requires forall k :: 0 <= k < |rules| ==> FromRow(compiles, ps, rules[k])
    requires Ratchets(ps, t) && GatesOf(rules, gates)
    ensures GateFor(gates, t) <= DEFAULT_GATE
  {
    if t in gates {
      assert SetsGate(rules, t, gates[t]);
      var k :| 0 <= k < |rules| && rules[k].IsGate() && rules[k].typ == t && rules[k].threshold == gates[t];
      GateRuleOnRatchet(compiles, ps, rules[k], t);
    }
  }

  lemma GatherRatchets(compiles: string -> bool, s: State, step: Step, t: string)
    requires Consistent(compiles, s) && step.Gather? && Ratchets(s.proposals, t)
    requires GatheredUnder(s.pack.rules, step.probe, step.misses, step.chain, step.evidence)
    ensures BelowDefault(step.evidence, t)
  {
    var gates {:trigger GatesOf(s.pack.rules, gates)} :| GatesOf(s.pack.rules, gates)
      && Gathered(step.probe, step.misses, |step.misses|, gates, Contains(step.chain, "presidio"), step.evidence);
    GateAtMostDefault(compiles, s.proposals, s.pack.rules, gates, t);
    BelowGate(step.probe, step.misses, gates, Contains(step.chain, "presidio"), step.evidence, t);
  }

  lemma BelowGate(probe: Probe, us: seq<Miss>, gates: map<string, real>, consulted: bool, ev: map<string, Evidence>,
                  t: string)
    requires Gathered(probe, us, |us|, gates, consulted, ev) && GateFor(gates, t) <= DEFAULT_GATE
    ensures BelowDefault(ev, t)
  {
    if t in ev {
      assert GatheredType(probe, us, |us|, gates, consulted, t, ev[t]);
    }
  }

  lemma SettlingRatchets(ps: seq<Proposal>, i: nat, verdict: Status, t: string)
    requires Ratchets(ps, t) && i < |ps| && ps[i].status.Proposed? && (verdict.Approved? || verdict.Rejected?)
    ensures Ratchets(Settle(ps, i, verdict), t)
  {
    KeptGatesRatchet(ps, Settle(ps, i, verdict), t);
  }

  lemma AppendingRatchets(ps: seq<Proposal>, p: Proposal, t: string)
    requires Ratchets(ps, t) && !IsGateRow(p, t)
    ensures Ratchets(ps + [p], t)
  {
    KeptGatesRatchet(ps, ps + [p], t);
  }

  lemma StepRatchets(compiles: string -> bool, lib: seq<Candidate>, s: State, step: Step, t: string)
    requires LibraryCompiles(compiles, lib) && Consistent(compiles, s)
    requires step.Author? ==> !IsGateRow(step.draft, t)
    requires Ratchets(s.proposals, t) && PendingBelow(s.pending, t)
    ensures var s' := Apply(compiles, lib, s, step); Ratchets(s'.proposals, t) && PendingBelow(s'.pending, t)
  {
    if step.Gather? {
      if GatheredUnder(s.pack.rules, step.probe, step.misses, step.chain, step.evidence) {
        GatherRatchets(compiles, s, step, t);
      }
    } else if step.Upsert? {
      if step.evidence in s.pending {
        UpsertAllRatchets(compiles, s.proposals, lib, step.hits, step.types, step.evidence, step.run, t);
      }
    } else if step.Author? {
      var r := Authored(compiles, s.proposals, step.draft, step.rationale, step.uuid);
      if r.Ok? {
        AppendingRatchets(s.proposals, r.value, t);
      }
    } else if step.Approve? || step.Reject? {
      var at := Settleable(s.proposals, step.id);
      if at.Some? {
        SettlingRatchets(s.proposals, at.value, if step.Approve? then Approved else Rejected, t);
      }
    }
  }

  lemma {:induction false} RunRatchets(compiles: string -> bool, lib: seq<Candidate>, steps: seq<Step>, t: string)
    requires LibraryCompiles(compiles, lib) && NoAuthoredGate(steps, t)
    ensures var s := After(compiles, lib, steps); Ratchets(s.proposals, t) && PendingBelow(s.pending, t)
  {
    if steps == [] {
    } else {
      var rest, step := steps[..|steps| - 1], steps[|steps| - 1];
      RunRatchets(compiles, lib, rest, t);
      EveryRunConsistent(compiles, lib, rest);
      StepRatchets(compiles, lib, After(compiles, lib, rest), step, t);
    }
  }

  /**
   * The ratchet of a type nobody writes gates for by hand: at most one threshold row is open,
   * each one asks for strictly less than those before it, and there are never more than six.
   */
  lemma GatesRatchetDown(compiles: string -> bool, lib: seq<Candidate>, steps: seq<Step>, t: string)
    requires LibraryCompiles(compiles, lib) && NoAuthoredGate(steps, t)
    ensures var ps := After(compiles, lib, steps).proposals;
      && (forall i, j ::
            0 <= i < |ps| && 0 <= j < |ps| && IsOpen(ps[i], KIND_THRESHOLD, t) && IsOpen(ps[j], KIND_THRESHOLD, t)
            ==> i == j)
      && (forall i, j :: 0 <= i < j < |ps| && IsGateRow(ps[i], t) && IsGateRow(ps[j], t)
            ==> ps[j].threshold < ps[i].threshold)
      && GateCount(ps, t) <= 6
  {
    RunRatchets(compiles, lib, steps, t);
    var ps := After(compiles, lib, steps).proposals;
    AtMostSixGates(ps, t);
    forall i, j | 0 <= i < |ps| && 0 <= j < |ps| && IsOpen(ps[i], KIND_THRESHOLD, t) && IsOpen(ps[j], KIND_THRESHOLD, t)
      ensures i == j
    {
      assert IsGateRow(ps[i], t) && IsGateRow(ps[j], t);
      assert i < j || j < i || i == j;
    }
  }

  // ---- what the evidence was for ----

  /** An approved threshold row is in force: the type's gate is at most what the row asks for. */
  lemma ApprovedGateInForce(compiles: string -> bool, ps: seq<Proposal>, pack: Pack, k: nat, t: string,
                            gates: map<string, real>)
    requires Sound(compiles, ps) && PackMatches(compiles, ps, pack) && GatesOf(pack.rules, gates)
    requires k < |ps| && IsGateRow(ps[k], t) && ps[k].status.Approved?
    ensures GateFor(gates, t) <= ps[k].threshold
  {
    assert InPack(compiles, pack.rules, ps[k]);
    var n :| 0 <= n < |pack.rules| && RuleFromProposal(compiles, ps[k]) == Ok(pack.rules[n]);
    assert pack.rules[n] in pack.rules && pack.rules[n].IsGate();
  }

  /** No published gate lies below one step of the grid. */
  lemma GateAtLeastOneStep(compiles: string -> bool, rules: seq<Rule>, gates: map<string, real>, t: string)
    requires GatesOf(rules, gates) && forall r :: r in rules ==> SafeRule(compiles, r)
    ensures GateFor(gates, t) >= MIN_GATE
  {
    if t in gates {
      assert SetsGate(rules, t, gates[t]);
    }
  }

  /** Under these rules a probe of the run saw a missed span of the type at this score, below its gate. */
  ghost predicate Motive(rules: seq<Rule>, gather: Step, t: string, i: nat, j: nat, score: real) {
    && gather.Gather? && Contains(gather.chain, "presidio")
    && exists gates {:trigger GatesOf(rules, gates)} ::
         GatesOf(rules, gates) && Motivates(gather.probe, gather.misses, GateFor(gates, t), t, i, j, score)
  }

  /** Evidence gathered under these rules records the lowest of the scores that motivate it. */
  lemma LowestMotive(compiles: string -> bool, s: State, gather: Step, t: string, i: nat, j: nat, score: real)
    requires Consistent(compiles, s) && Motive(s.pack.rules, gather, t, i, j, score)
    requires GatheredUnder(s.pack.rules, gather.probe, gather.misses, gather.chain, gather.evidence)
    ensures t in gather.evidence && gather.evidence[t].thresholdMisses > 0 && gather.evidence[t].minScore <= score
  {
    var gates {:trigger GatesOf(s.pack.rules, gates)} :| GatesOf(s.pack.rules, gates)
      && gather.evidence == Synthesized(gates, gather.probe, gather.chain, gather.misses);
    var gates' {:trigger GatesOf(s.pack.rules, gates')} :| GatesOf(s.pack.rules, gates')
      && Motivates(gather.probe, gather.misses, GateFor(gates', t), t, i, j, score);
    GatesUnique(s.pack.rules, gates, gates');
    PackIsSafe(compiles, s.proposals, s.pack);
    ProbeRunLowest(gather.probe, gates, gather.misses, |gather.misses|);
    assert gather.misses[i].typ == t;
  }

  /** The run gathers evidence and later, with anything in between, brings it to the proposals. */
  ghost predicate BringsEvidence(compiles: string -> bool, lib: seq<Candidate>, first: seq<Step>, gather: Step,
                                 mid: seq<Step>, upsert: Step)
  {
    && gather.Gather? && upsert.Upsert? && upsert.evidence == gather.evidence
    && GatheredUnder(After(compiles, lib, first).pack.rules, gather.probe, gather.misses, gather.chain, gather.evidence)
    && upsert.evidence in After(compiles, lib, first + [gather] + mid).pending
    && SortedKeys(upsert.types, upsert.evidence)
  }

  /** An upsert of gate evidence leaves a row of the type that asks for the proposed gate or less, and so it stays. */
  lemma EvidenceAnswered(compiles: string -> bool, lib: seq<Candidate>, before: seq<Step>, upsert: Step,
                         more: seq<Step>, t: string) returns (k: nat)
    requires LibraryCompiles(compiles, lib) && upsert.Upsert?
    requires upsert.evidence in After(compiles, lib, before).pending && SortedKeys(upsert.types, upsert.evidence)
    requires t in upsert.evidence && upsert.evidence[t].thresholdMisses > 0
    ensures Answers(After(compiles, lib, before + [upsert] + more).proposals, k, t,
                    ProposeGate(upsert.evidence[t].minScore))
  {
    var s0, ev := After(compiles, lib, before), upsert.evidence;
    EveryRunConsistent(compiles, lib, before);
    CandidatesRefresh(compiles, s0.proposals, lib, upsert.hits, upsert.run);
    k := TypesAnswer(compiles, UpsertCandidates(s0.proposals, lib, upsert.hits, upsert.run), upsert.types, ev,
                     upsert.run, t);
    assert (before + [upsert])[..|before|] == before;
    HistoryKept(compiles, lib, before + [upsert], more);
    AnswersLater(After(compiles, lib, before + [upsert]).proposals,
                 After(compiles, lib, before + [upsert] + more).proposals, k, t,
                 ProposeGate(ev[t].minScore));
  }

  /** In a consistent state, an approved row that answers a score lets it through exactly from one grid step on. */
  lemma AnswerInForce(compiles: string -> bool, s: State, k: nat, t: string, lowest: real, score: real,
                      gates: map<string, real>)
    requires Consistent(compiles, s) && GatesOf(s.pack.rules, gates)
    requires Answers(s.proposals, k, t, ProposeGate(lowest)) && s.proposals[k].status.Approved? && lowest <= score
    ensures GateFor(gates, t) <= score <==> score >= MIN_GATE
  {
    ProposedGateAccepts(lowest);
    PackIsSafe(compiles, s.proposals, s.pack);
    GateAtLeastOneStep(compiles, s.pack.rules, gates, t);
    ApprovedGateInForce(compiles, s.proposals, s.pack, k, t, gates);
  }

  /** An approved row's type is one the published rules mention. */
  lemma ApprovedTypeMentioned(compiles: string -> bool, s: State, k: nat)
    requires Consistent(compiles, s) && k < |s.proposals| && s.proposals[k].status.Approved?
    ensures s.proposals[k].typ in Engines.RuleTypes(s.pack.rules)
  {
    assert InPack(compiles, s.pack.rules, s.proposals[k]);
    var n :| 0 <= n < |s.pack.rules| && RuleFromProposal(compiles, s.proposals[k]) == Ok(s.pack.rules[n]);
    assert s.pack.rules[n] in s.pack.rules;
  }

  /**
   * The gateway's engine, with these rules installed, claims the missed span at the probed score
   * exactly if that score is at least one step of the grid. It may be shown more than the probe
   * was, since its ad hoc rules ride along.
   */
  ghost predicate ClaimsMissed(rules: seq<Rule>, gates: map<string, real>, gather: Step, t: string, i: nat, j: nat,
                               score: real)
    requires gather.Gather? && i < |gather.misses| && j < |gather.misses[i].truth|
  {
    forall entities: Engines.EntityMap, offsets: seq<int>, results: seq<Engines.RawResult>, seen: seq<Engines.RawResult>
      {:trigger ProbeSpans(entities, offsets, results),
       Engines.Accepted(entities, Engines.RuleTypes(rules), gates, offsets, seen)} ::
      && HeardFor(gather.probe, gather.misses, i) == Some(ProbeSpans(entities, offsets, results))
      && (forall r :: r in results ==> r in seen)
      ==>
      (ClaimedAt(Engines.Accepted(entities, Engines.RuleTypes(rules), gates, offsets, seen),
                 gather.misses[i].truth[j], t, score)
       <==> score >= MIN_GATE)
  }

  lemma MissedSpanClaimed(compiles: string -> bool, s: State, k: nat, lowest: real, rules: seq<Rule>, gather: Step,
                          t: string, i: nat, j: nat, score: real, gates: map<string, real>)
    requires Consistent(compiles, s) && GatesOf(s.pack.rules, gates)
    requires Answers(s.proposals, k, t, ProposeGate(lowest)) && s.proposals[k].status.Approved? && lowest <= score
    requires Motive(rules, gather, t, i, j, score)
    ensures ClaimsMissed(s.pack.rules, gates, gather, t, i, j, score)
  {
    AnswerInForce(compiles, s, k, t, lowest, score, gates);
    PackIsSafe(compiles, s.proposals, s.pack);
    GateAtLeastOneStep(compiles, s.pack.rules, gates, t);
    ApprovedTypeMentioned(compiles, s, k);
    var types := Engines.RuleTypes(s.pack.rules);
    forall entities: Engines.EntityMap, offsets: seq<int>, results: seq<Engines.RawResult>, seen: seq<Engines.RawResult>
      | && HeardFor(gather.probe, gather.misses, i) == Some(ProbeSpans(entities, offsets, results))
        && forall r :: r in results ==> r in seen
      ensures ClaimedAt(Engines.Accepted(entities, types, gates, offsets, seen), gather.misses[i].truth[j], t, score)
              <==> score >= MIN_GATE
    {
      ProbedSpanClaimed(entities, types, gates, offsets, results, seen, gather.misses[i].truth[j], t);
    }
  }

  /** From one step of the grid on the score gets through and the span missed at it is claimed. */
  ghost predicate MotiveAccepted(rules: seq<Rule>, gates: map<string, real>, gather: Step, t: string, i: nat, j: nat,
                                 score: real)
  {
    && gather.Gather? && i < |gather.misses| && j < |gather.misses[i].truth|
    && (GateFor(gates, t) <= score <==> score >= MIN_GATE)
    && ClaimsMissed(rules, gates, gather, t, i, j, score)
  }

  /** Every single score that motivated the evidence. */
  ghost predicate MotivesAccepted(s: State, rules: seq<Rule>, gather: Step, t: string) {
    forall gates, i: nat, j: nat, score
      {:trigger GatesOf(s.pack.rules, gates), Motive(rules, gather, t, i, j, score)} ::
      GatesOf(s.pack.rules, gates) && Motive(rules, gather, t, i, j, score)
      ==> MotiveAccepted(s.pack.rules, gates, gather, t, i, j, score)
  }

  lemma OneMotiveAccepted(compiles: string -> bool, s0: State, gather: Step, s: State, k: nat, t: string, i: nat,
                          j: nat, score: real, gates: map<string, real>)
    requires Consistent(compiles, s0) && gather.Gather?
    requires GatheredUnder(s0.pack.rules, gather.probe, gather.misses, gather.chain, gather.evidence)
             && t in gather.evidence
    requires Consistent(compiles, s) && Answers(s.proposals, k, t, ProposeGate(gather.evidence[t].minScore))
    requires s.proposals[k].status.Approved?
    requires GatesOf(s.pack.rules, gates) && Motive(s0.pack.rules, gather, t, i, j, score)
    ensures MotiveAccepted(s.pack.rules, gates, gather, t, i, j, score)
  {
    LowestMotive(compiles, s0, gather, t, i, j, score);
    AnswerInForce(compiles, s, k, t, gather.evidence[t].minScore, score, gates);
    MissedSpanClaimed(compiles, s, k, gather.evidence[t].minScore, s0.pack.rules, gather, t, i, j, score, gates);
  }

  lemma ApprovalAcceptsMotives(compiles: string -> bool, s0: State, gather: Step, s: State, k: nat, t: string)
    requires Consistent(compiles, s0) && gather.Gather?
    requires GatheredUnder(s0.pack.rules, gather.probe, gather.misses, gather.chain, gather.evidence)
             && t in gather.evidence
    requires Consistent(compiles, s) && Answers(s.proposals, k, t, ProposeGate(gather.evidence[t].minScore))
    requires s.proposals[k].status.Approved?
    ensures MotivesAccepted(s, s0.pack.rules, gather, t)
  {
    forall gates, i: nat, j: nat, score | GatesOf(s.pack.rules, gates) && Motive(s0.pack.rules, gather, t, i, j, score)
      ensures MotiveAccepted(s.pack.rules, gates, gather, t, i, j, score)
    {
      OneMotiveAccepted(compiles, s0, gather, s, k, t, i, j, score, gates);
    }
  }

  /**
   * Gate evidence gets its answer: some threshold row of the type. Once that row is approved, at
   * once or any time later, the gate lets through every single score that motivated it, and the
   * engine claims every span missed at such a score, unless the score lies below one step of the
   * grid; those no gate ever lets through.
   */
  lemma MotivatingScoresAccepted(compiles: string -> bool, lib: seq<Candidate>, first: seq<Step>, gather: Step,
                                 mid: seq<Step>, upsert: Step, more: seq<Step>, t: string) returns (k: nat)
    requires LibraryCompiles(compiles, lib) && BringsEvidence(compiles, lib, first, gather, mid, upsert)
    requires t in upsert.evidence && upsert.evidence[t].thresholdMisses > 0
    ensures var s := After(compiles, lib, first + [gather] + mid + [upsert] + more);
      && k < |s.proposals| && IsGateRow(s.proposals[k], t)
      && (s.proposals[k].status.Approved? ==> MotivesAccepted(s, After(compiles, lib, first).pack.rules, gather, t))
  {
    var s := After(compiles, lib, first + [gather] + mid + [upsert] + more);
    k := EvidenceAnswered(compiles, lib, first + [gather] + mid, upsert, more, t);
    EveryRunConsistent(compiles, lib, first);
    EveryRunConsistent(compiles, lib, first + [gather] + mid + [upsert] + more);
    if s.proposals[k].status.Approved? {
      ApprovalAcceptsMotives(compiles, After(compiles, lib, first), gather, s, k, t);
    }
  }

  // ---- publication ----

  /**
   * The published pack has one version and one rule per approval, each rule with an id of its
   * own; every gateway holds the rules as published under its version; and any regex engine
   * with the same pattern syntax accepts them.
   */
  lemma PublishedAsApproved(compiles: string -> bool, lib: seq<Candidate>, steps: seq<Step>, m: Engines.Matcher)
    requires LibraryCompiles(compiles, lib) && m.compiles == compiles
    ensures var s := After(compiles, lib, steps);
      && s.pack.version == |s.pack.rules| == ApprovedCount(s.proposals)
      && RuleIdsDistinct(s.pack.rules)
      && (forall r :: r in s.pack.rules ==> SafeRule(compiles, r))
      && Engines.AllCompile(m, s.pack.rules)
      && (forall g :: g in s.gateways
            ==> HoldsPrefix(s.gateways[g], s.pack) && Engines.AllCompile(m, s.gateways[g].rules))
  {
    EveryRunConsistent(compiles, lib, steps);
    var s := After(compiles, lib, steps);
    PackIsSafe(compiles, s.proposals, s.pack);
    forall g | g in s.gateways ensures Engines.AllCompile(m, s.gateways[g].rules) {
      assert HoldsPrefix(s.gateways[g], s.pack);
    }
  }

  /** A version names its content: two packs published under one version are one pack. */
  lemma VersionNamesContent(compiles: string -> bool, lib: seq<Candidate>, before: seq<Step>, more: seq<Step>)
    requires LibraryCompiles(compiles, lib)
    ensures var p, q := After(compiles, lib, before).pack, After(compiles, lib, before + more).pack;
      p.version <= q.version && p.rules <= q.rules && (p.version == q.version ==> p == q)
  {
    HistoryKept(compiles, lib, before, more);
    EveryRunConsistent(compiles, lib, before);
    EveryRunConsistent(compiles, lib, before + more);
  }

  /**
   * A gateway pulling the published pack: chain and engines hold the rules published under the
   * version it holds, before and after, and only an unreachable control plane makes it fail.
   */
  method PullPublished(gateway: Detection.PackInstall, published: Pack, reachable: bool, ghost held: Pack)
    returns (err: bool)
    requires published.version == |published.rules| && gateway.Accepts(published.rules)
    requires held.version == gateway.packVersion && HoldsPrefix(held, published) && gateway.InSync(held.rules)
    modifies gateway, gateway.chain, gateway.regexDet, gateway.presidio
    ensures err <==> !reachable
    ensures gateway.packVersion == if reachable then published.version else old(gateway.packVersion)
    ensures 0 <= gateway.packVersion <= |published.rules| && gateway.InSync(published.rules[..gateway.packVersion])
  {
    assert published.rules[..published.version] == published.rules;
    err := gateway.PullPatterns(if reachable then Some(published) else None, held.rules);
  }
}
