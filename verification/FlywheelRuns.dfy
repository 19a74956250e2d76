/**
 * Whole runs of the flywheel: harness runs that gather evidence now and change the proposals
 * later, owner acts in between, and gateways that pull the published pack
 * (internal/harness/flywheel.go, internal/gateway/spine_pull.go).
 */
module FlywheelRuns {
  import opened Common
  import opened Packs
  import opened Proposals
  import opened Upserts
  import opened Ratchet
  import opened Flywheel
  import opened Gathering

  /** Gateways hold the version they last saw and the rules they have installed. */
  datatype State = State(proposals: seq<Proposal>, pack: Pack, pending: set<map<string, Evidence>>,
                         gateways: map<string, Pack>)

  const FRESH_STATE := State([], EMPTY_PACK, {}, map[])

  datatype Step =
    | Gather(probe: Probe, misses: seq<Miss>, chain: string, evidence: map<string, Evidence>)
    | Upsert(run: string, hits: map<string, nat>, types: seq<string>, evidence: map<string, Evidence>)
    | Author(draft: Proposal, rationale: string, uuid: string)
    | Approve(id: string)
    | Reject(id: string)
    | Pull(gateway: string)
    | PullFailed(gateway: string)
    | GatewayRestart(gateway: string)
    | Restart

  /** The evidence that gathering against these rules produces, and what is proved of it. */
  ghost predicate GatheredUnder(rules: seq<Rule>, probe: Probe, us: seq<Miss>, chain: string, ev: map<string, Evidence>)
  {
    exists gates {:trigger GatesOf(rules, gates)} ::
      && GatesOf(rules, gates)
      && ev == Synthesized(gates, probe, chain, us)
      && Gathered(probe, us, |us|, gates, Contains(chain, "presidio"), ev)
  }

  predicate PatternsCompile(compiles: string -> bool, rules: seq<Rule>) {
    forall r :: r in rules && r.IsRegex() ==> compiles(r.regex)
  }

  /** A pull records the version it saw; the rules move only if all patterns compile. */
  function PullInto(compiles: string -> bool, held: Pack, pack: Pack): Pack {
    if held.version == pack.version then held
    else Pack(pack.version, if PatternsCompile(compiles, pack.rules) then pack.rules else held.rules)
  }

  function Held(s: State, g: string): Pack { if g in s.gateways then s.gateways[g] else EMPTY_PACK }

  function Settle(ps: seq<Proposal>, i: nat, verdict: Status): seq<Proposal>
    requires i < |ps|
  {
    ps[i := ps[i].(status := verdict)]
  }

  function ApproveIn(compiles: string -> bool, s: State, id: string): State {
    var i := Settleable(s.proposals, id);
    if i.None? then s
    else
      var rule := RuleFromProposal(compiles, s.proposals[i.value]);
      if rule.Err? then s
      else s.(proposals := Settle(s.proposals, i.value, Approved), pack := Published(s.pack, rule.value))
  }

  function RejectIn(s: State, id: string): State {
    var i := Settleable(s.proposals, id);
    if i.None? then s else s.(proposals := Settle(s.proposals, i.value, Rejected))
  }

  function AuthorIn(compiles: string -> bool, s: State, draft: Proposal, rationale: string, uuid: string): State {
    var r := Authored(compiles, s.proposals, draft, rationale, uuid);
    if r.Err? then s else s.(proposals := s.proposals + [r.value])
  }

  /** A step that is not possible in a state leaves it as it is. */
  ghost function Apply(compiles: string -> bool, lib: seq<Candidate>, s: State, step: Step): State {
    match step
    case Gather(probe, us, chain, ev) =>
      if GatheredUnder(s.pack.rules, probe, us, chain, ev) then s.(pending := s.pending + {ev}) else s
    case Upsert(run, hits, types, ev) =>
      if ev in s.pending && SortedKeys(types, ev)
        then s.(proposals := UpsertAll(s.proposals, lib, hits, types, ev, run)) else s
    case Author(draft, rationale, uuid) => AuthorIn(compiles, s, draft, rationale, uuid)
    case Approve(id) => ApproveIn(compiles, s, id)
    case Reject(id) => RejectIn(s, id)
    case Pull(g) => s.(gateways := s.gateways[g := PullInto(compiles, Held(s, g), s.pack)])
    case PullFailed(g) => s
    case GatewayRestart(g) => s.(gateways := s.gateways[g := EMPTY_PACK])
    case Restart => s.(pending := {})
  }

  ghost function After(compiles: string -> bool, lib: seq<Candidate>, steps: seq<Step>): State {
    if steps == [] then FRESH_STATE
    else Apply(compiles, lib, After(compiles, lib, steps[..|steps| - 1]), steps[|steps| - 1])
  }

  // ---- pack and proposals ----

  function ApprovedCount(ps: seq<Proposal>): nat {
    if ps == [] then 0
    else ApprovedCount(ps[..|ps| - 1]) + if ps[|ps| - 1].status.Approved? then 1 else 0
  }

  ghost predicate FromRow(compiles: string -> bool, ps: seq<Proposal>, r: Rule) {
    exists i :: 0 <= i < |ps| && ps[i].status.Approved? && RuleFromProposal(compiles, ps[i]) == Ok(r)
  }

  ghost predicate InPack(compiles: string -> bool, rules: seq<Rule>, p: Proposal) {
    exists k :: 0 <= k < |rules| && RuleFromProposal(compiles, p) == Ok(rules[k])
  }

  ghost predicate RuleIdsDistinct(rules: seq<Rule>) {
    forall j, k :: 0 <= j < k < |rules| ==> rules[j].id != rules[k].id
  }

  /** One rule per approved proposal, one version per rule. */
  ghost predicate PackMatches(compiles: string -> bool, ps: seq<Proposal>, pack: Pack) {
    && pack.version == |pack.rules| == ApprovedCount(ps)
    && RuleIdsDistinct(pack.rules)
    && (forall k :: 0 <= k < |pack.rules| ==> FromRow(compiles, ps, pack.rules[k]))
    && (forall i :: 0 <= i < |ps| && ps[i].status.Approved? ==> InPack(compiles, pack.rules, ps[i]))
  }

  lemma {:induction false} SameApprovedCount(ps: seq<Proposal>, qs: seq<Proposal>)
    requires SameApproved(ps, qs)
    ensures ApprovedCount(qs) == ApprovedCount(ps)
    decreases |qs|
  {
    if qs == [] {
    } else if |qs| > |ps| {
      SameApprovedCount(ps, qs[..|qs| - 1]);
    } else {
      SameApprovedCount(ps[..|ps| - 1], qs[..|qs| - 1]);
    }
  }

  lemma {:induction false} OneMoreApproved(ps: seq<Proposal>, i: nat)
    requires i < |ps| && !ps[i].status.Approved?
    ensures ApprovedCount(Settle(ps, i, Approved)) == ApprovedCount(ps) + 1
  {
    var qs := Settle(ps, i, Approved);
    if i == |ps| - 1 {
      assert qs[..i] == ps[..i];
    } else {
      OneMoreApproved(ps[..|ps| - 1], i);
      assert qs[..|qs| - 1] == Settle(ps[..|ps| - 1], i, Approved);
    }
  }

  lemma RefreshKeepsPack(compiles: string -> bool, ps: seq<Proposal>, qs: seq<Proposal>, pack: Pack)
    requires PackMatches(compiles, ps, pack) && Evolves(ps, qs) && SameApproved(ps, qs)
    ensures PackMatches(compiles, qs, pack)
  {
    SameApprovedCount(ps, qs);
    forall k | 0 <= k < |pack.rules| ensures FromRow(compiles, qs, pack.rules[k]) {
      assert FromRow(compiles, ps, pack.rules[k]);
      var i :| 0 <= i < |ps| && ps[i].status.Approved? && RuleFromProposal(compiles, ps[i]) == Ok(pack.rules[k]);
      assert RowEvolves(ps[i], qs[i]);
    }
    forall i | 0 <= i < |qs| && qs[i].status.Approved? ensures InPack(compiles, pack.rules, qs[i]) {
      assert RowEvolves(ps[i], qs[i]);
      assert InPack(compiles, pack.rules, ps[i]);
    }
  }

  lemma NewRuleIdIsNew(compiles: string -> bool, ps: seq<Proposal>, rules: seq<Rule>, i: nat, k: nat)
    requires UniqueIds(ps) && i < |ps| && ps[i].status.Proposed? && k < |rules| && FromRow(compiles, ps, rules[k])
    ensures rules[k].id != ps[i].id
  {
    var j :| 0 <= j < |ps| && ps[j].status.Approved? && RuleFromProposal(compiles, ps[j]) == Ok(rules[k]);
    assert j < i || i < j;
  }

  lemma ApprovalKeepsPack(compiles: string -> bool, ps: seq<Proposal>, pack: Pack, i: nat)
    requires Sound(compiles, ps) && PackMatches(compiles, ps, pack)
    requires i < |ps| && ps[i].status.Proposed? && RuleFromProposal(compiles, ps[i]).Ok?
    ensures PackMatches(compiles, Settle(ps, i, Approved), Published(pack, RuleFromProposal(compiles, ps[i]).value))
  {
    var qs, rule := Settle(ps, i, Approved), RuleFromProposal(compiles, ps[i]).value;
    var rules := pack.rules + [rule];
    OneMoreApproved(ps, i);
    assert RuleFromProposal(compiles, qs[i]) == Ok(rule);
    forall k | 0 <= k < |rules| ensures FromRow(compiles, qs, rules[k]) {
      if k < |pack.rules| {
        assert FromRow(compiles, ps, pack.rules[k]);
        var j :| 0 <= j < |ps| && ps[j].status.Approved? && RuleFromProposal(compiles, ps[j]) == Ok(pack.rules[k]);
        assert qs[j] == ps[j];
      }
    }
    forall k | 0 <= k < |pack.rules| ensures pack.rules[k].id != rule.id {
      NewRuleIdIsNew(compiles, ps, pack.rules, i, k);
    }
    ApprovedRowsInPack(compiles, ps, pack, i);
  }

  lemma ApprovedRowsInPack(compiles: string -> bool, ps: seq<Proposal>, pack: Pack, i: nat)
    requires PackMatches(compiles, ps, pack)
    requires i < |ps| && ps[i].status.Proposed? && RuleFromProposal(compiles, ps[i]).Ok?
    ensures var qs, rules := Settle(ps, i, Approved), pack.rules + [RuleFromProposal(compiles, ps[i]).value];
      forall j :: 0 <= j < |qs| && qs[j].status.Approved? ==> InPack(compiles, rules, qs[j])
  {
    var qs, rules := Settle(ps, i, Approved), pack.rules + [RuleFromProposal(compiles, ps[i]).value];
    forall j | 0 <= j < |qs| && qs[j].status.Approved? ensures InPack(compiles, rules, qs[j]) {
      if j == i {
        assert RuleFromProposal(compiles, qs[j]) == Ok(rules[|pack.rules|]);
      } else {
        assert InPack(compiles, pack.rules, ps[j]);
        var k :| 0 <= k < |pack.rules| && RuleFromProposal(compiles, ps[j]) == Ok(pack.rules[k]);
        assert rules[k] == pack.rules[k];
      }
    }
  }

  /** Whatever approvals built is accepted by every gateway, and keeps every gate in bounds. */
  lemma PackIsSafe(compiles: string -> bool, ps: seq<Proposal>, pack: Pack)
    requires PackMatches(compiles, ps, pack)
    ensures forall r :: r in pack.rules ==> SafeRule(compiles, r)
    ensures PatternsCompile(compiles, pack.rules)
    ensures forall gates {:trigger GatesOf(pack.rules, gates)} :: GatesOf(pack.rules, gates) ==> GatesBounded(gates)
  {
    forall r | r in pack.rules ensures SafeRule(compiles, r) {
      var k :| 0 <= k < |pack.rules| && pack.rules[k] == r;
      assert FromRow(compiles, ps, pack.rules[k]);
    }
    forall gates | GatesOf(pack.rules, gates) ensures GatesBounded(gates) {
      forall t | t in gates ensures gates[t] <= 1.0 {
        assert SetsGate(pack.rules, t, gates[t]);
      }
    }
  }

  // ---- the invariant of every run ----

  /** A gateway holds the published rules as they stood at the version it holds. */
  ghost predicate HoldsPrefix(held: Pack, pack: Pack) {
    0 <= held.version <= |pack.rules| && held.rules == pack.rules[..held.version]
  }

  ghost predicate PendingValid(pending: set<map<string, Evidence>>) {
    forall ev, t :: ev in pending && t in ev ==> ValidEvidence(ev[t])
  }

  ghost predicate Consistent(compiles: string -> bool, s: State) {
    && Sound(compiles, s.proposals)
    && PackMatches(compiles, s.proposals, s.pack)
    && PendingValid(s.pending)
    && forall g :: g in s.gateways ==> HoldsPrefix(s.gateways[g], s.pack)
  }

  /** What is kept from one state of a run to every later one. */
  ghost predicate Follows(s: State, s': State) {
    Evolves(s.proposals, s'.proposals) && s.pack.rules <= s'.pack.rules
  }

  lemma UpsertConsistent(compiles: string -> bool, lib: seq<Candidate>, s: State, run: string,
                         hits: map<string, nat>, types: seq<string>, ev: map<string, Evidence>)
    requires LibraryCompiles(compiles, lib) && Consistent(compiles, s) && ev in s.pending
    ensures var s' := s.(proposals := UpsertAll(s.proposals, lib, hits, types, ev, run));
      Consistent(compiles, s') && Follows(s, s')
    ensures Refreshes(compiles, s.proposals, UpsertAll(s.proposals, lib, hits, types, ev, run))
  {
    UpsertAllRefreshes(compiles, s.proposals, lib, hits, types, ev, run);
    RefreshKeepsPack(compiles, s.proposals, UpsertAll(s.proposals, lib, hits, types, ev, run), s.pack);
  }

  lemma AuthorConsistent(compiles: string -> bool, s: State, draft: Proposal, rationale: string, uuid: string)
    requires Consistent(compiles, s)
    ensures var s' := AuthorIn(compiles, s, draft, rationale, uuid); Consistent(compiles, s') && Follows(s, s')
  {
    var r := Authored(compiles, s.proposals, draft, rationale, uuid);
    EvolvesReflexive(s.proposals);
    if r.Ok? {
      AuthoredKeepsSound(compiles, s.proposals, r.value);
      RefreshKeepsPack(compiles, s.proposals, s.proposals + [r.value], s.pack);
    }
  }

  lemma ApproveConsistent(compiles: string -> bool, s: State, id: string)
    requires Consistent(compiles, s)
    ensures var s' := ApproveIn(compiles, s, id); Consistent(compiles, s') && Follows(s, s')
    ensures Settleable(s.proposals, id).Some? ==>
      var i := Settleable(s.proposals, id).value;
      && RuleFromProposal(compiles, s.proposals[i]).Ok?
      && ApproveIn(compiles, s, id).pack == Published(s.pack, RuleFromProposal(compiles, s.proposals[i]).value)
  {
    var at := Settleable(s.proposals, id);
    EvolvesReflexive(s.proposals);
    if at.Some? {
      SettlingKeepsSound(compiles, s.proposals, at.value, Approved);
      ApprovalKeepsPack(compiles, s.proposals, s.pack, at.value);
      var rules := s.pack.rules + [RuleFromProposal(compiles, s.proposals[at.value]).value];
      forall g | g in s.gateways ensures HoldsPrefix(s.gateways[g], Published(s.pack, rules[|s.pack.rules|])) {
        assert HoldsPrefix(s.gateways[g], s.pack);
        assert rules[..s.gateways[g].version] == s.pack.rules[..s.gateways[g].version];
      }
    }
  }

  lemma RejectConsistent(compiles: string -> bool, s: State, id: string)
    requires Consistent(compiles, s)
    ensures Consistent(compiles, RejectIn(s, id)) && Follows(s, RejectIn(s, id))
  {
    var at := Settleable(s.proposals, id);
    EvolvesReflexive(s.proposals);
    if at.Some? {
      SettlingKeepsSound(compiles, s.proposals, at.value, Rejected);
      RefreshKeepsPack(compiles, s.proposals, Settle(s.proposals, at.value, Rejected), s.pack);
    }
  }

  lemma PullConsistent(compiles: string -> bool, s: State, g: string)
    requires Consistent(compiles, s)
    ensures HoldsPrefix(PullInto(compiles, Held(s, g), s.pack), s.pack)
    ensures PullInto(compiles, Held(s, g), s.pack) == s.pack
  {
    PackIsSafe(compiles, s.proposals, s.pack);
    var held := Held(s, g);
    assert HoldsPrefix(held, s.pack);
    assert s.pack.rules[..|s.pack.rules|] == s.pack.rules;
  }

  lemma StepConsistent(compiles: string -> bool, lib: seq<Candidate>, s: State, step: Step)
    requires LibraryCompiles(compiles, lib) && Consistent(compiles, s)
    ensures Consistent(compiles, Apply(compiles, lib, s, step)) && Follows(s, Apply(compiles, lib, s, step))
  {
    EvolvesReflexive(s.proposals);
    match step
    case Gather(probe, us, chain, ev) =>
    case Upsert(run, hits, types, ev) =>
      if ev in s.pending {
        UpsertConsistent(compiles, lib, s, run, hits, types, ev);
      }
    case Author(draft, rationale, uuid) => AuthorConsistent(compiles, s, draft, rationale, uuid);
    case Approve(id) => ApproveConsistent(compiles, s, id);
    case Reject(id) => RejectConsistent(compiles, s, id);
    case Pull(g) => PullConsistent(compiles, s, g);
    case PullFailed(g) =>
    case GatewayRestart(g) =>
    case Restart =>
  }

  /** In every reachable state the proposals are sound and the published rules are what approvals made them. */
  lemma {:induction false} EveryRunConsistent(compiles: string -> bool, lib: seq<Candidate>, steps: seq<Step>)
    requires LibraryCompiles(compiles, lib)
    ensures Consistent(compiles, After(compiles, lib, steps))
  {
    if steps == [] {
    } else {
      EveryRunConsistent(compiles, lib, steps[..|steps| - 1]);
      StepConsistent(compiles, lib, After(compiles, lib, steps[..|steps| - 1]), steps[|steps| - 1]);
    }
  }
}
