/**
 * The file that holds proposals and published rules between restarts
 * (internal/harness/runner.go, internal/harness/persist.go): written through on every change,
 * and published from memory even if the write fails.
 */
module PatternFile {
  import opened Common
  import opened Packs
  import opened Proposals
  import opened Upserts
  import opened Ratchet
  import opened Flywheel
  import opened FlywheelRuns

  /** The flywheel and what its file holds. */
  datatype Durable = Durable(state: State, savedProposals: seq<Proposal>, savedPack: Pack)

  const BOOT := Durable(FRESH_STATE, [], EMPTY_PACK)

  datatype Event = Take(step: Step, writes: bool) | Reload

  /** A step writes if it changes proposals or rules; a run of the harness writes in any case. */
  ghost predicate Saves(s: State, step: Step, s': State) {
    || s'.proposals != s.proposals || s'.pack != s.pack
    || (step.Upsert? && step.evidence in s.pending && SortedKeys(step.types, step.evidence))
  }

  /** What the control plane starts from after a restart; gateways keep what they hold. */
  function Reloaded(d: Durable): State { State(d.savedProposals, d.savedPack, {}, d.state.gateways) }

  ghost function Next(compiles: string -> bool, lib: seq<Candidate>, d: Durable, event: Event): Durable {
    match event
    case Take(step, writes) =>
      var s' := Apply(compiles, lib, d.state, step);
      if writes && Saves(d.state, step, s') then Durable(s', s'.proposals, s'.pack) else d.(state := s')
    case Reload => d.(state := Reloaded(d))
  }

  /** No gateway is ahead of the file. */
  predicate Safe(d: Durable) {
    forall g :: g in d.state.gateways ==> d.state.gateways[g].version <= d.savedPack.version
  }

  ghost function RunEvents(compiles: string -> bool, lib: seq<Candidate>, events: seq<Event>): Durable {
    if events == [] then BOOT
    else Next(compiles, lib, RunEvents(compiles, lib, events[..|events| - 1]), events[|events| - 1])
  }

  /** The control plane restarts only from a file no gateway is ahead of. */
  ghost predicate Guarded(compiles: string -> bool, lib: seq<Candidate>, events: seq<Event>) {
    events == []
    || (Guarded(compiles, lib, events[..|events| - 1])
        && (events[|events| - 1].Reload? ==> Safe(RunEvents(compiles, lib, events[..|events| - 1]))))
  }

  /** The file holds a sound state that the memory has grown from. */
  ghost predicate Kept(compiles: string -> bool, d: Durable) {
    && Consistent(compiles, d.state)
    && Sound(compiles, d.savedProposals) && PackMatches(compiles, d.savedProposals, d.savedPack)
    && Evolves(d.savedProposals, d.state.proposals) && d.savedPack.rules <= d.state.pack.rules
  }

  lemma TakeKeeps(compiles: string -> bool, lib: seq<Candidate>, d: Durable, step: Step, writes: bool)
    requires LibraryCompiles(compiles, lib) && Kept(compiles, d)
    ensures Kept(compiles, Next(compiles, lib, d, Take(step, writes)))
  {
    StepConsistent(compiles, lib, d.state, step);
    var s' := Apply(compiles, lib, d.state, step);
    EvolvesTransitive(d.savedProposals, d.state.proposals, s'.proposals);
    EvolvesReflexive(s'.proposals);
  }

  /** A gateway that is not ahead of the file holds a prefix of the rules in it. */
  lemma ReloadKeeps(compiles: string -> bool, d: Durable)
    requires Kept(compiles, d) && Safe(d)
    ensures Consistent(compiles, Reloaded(d)) && Kept(compiles, d.(state := Reloaded(d)))
  {
    forall g | g in d.state.gateways ensures HoldsPrefix(d.state.gateways[g], d.savedPack) {
      var v := d.state.gateways[g].version;
      assert HoldsPrefix(d.state.gateways[g], d.state.pack);
      assert v <= |d.savedPack.rules|;
      assert d.state.pack.rules[..v] == d.savedPack.rules[..v];
    }
    EvolvesReflexive(d.savedProposals);
  }

  /** Over every guarded run, failed writes included, rules and versions stay as approvals made them. */
  lemma {:induction false} EveryGuardedRunKept(compiles: string -> bool, lib: seq<Candidate>, events: seq<Event>)
    requires LibraryCompiles(compiles, lib) && Guarded(compiles, lib, events)
    ensures Kept(compiles, RunEvents(compiles, lib, events))
  {
    if events == [] {
    } else {
      var rest, event := events[..|events| - 1], events[|events| - 1];
      EveryGuardedRunKept(compiles, lib, rest);
      var d := RunEvents(compiles, lib, rest);
      if event.Take? {
        TakeKeeps(compiles, lib, d, event.step, event.writes);
      } else {
        ReloadKeeps(compiles, d);
      }
    }
  }

  // ---- exactly when a restart is safe ----

  ghost function Onward(compiles: string -> bool, lib: seq<Candidate>, s: State, steps: seq<Step>): State {
    if steps == [] then s else Apply(compiles, lib, Onward(compiles, lib, s, steps[..|steps| - 1]), steps[|steps| - 1])
  }

  lemma OnwardSnoc(compiles: string -> bool, lib: seq<Candidate>, s: State, steps: seq<Step>, step: Step)
    ensures Onward(compiles, lib, s, steps + [step]) == Apply(compiles, lib, Onward(compiles, lib, s, steps), step)
  {
    assert (steps + [step])[..|steps|] == steps;
  }

  lemma {:induction false} OnwardConsistent(compiles: string -> bool, lib: seq<Candidate>, s: State, steps: seq<Step>)
    requires LibraryCompiles(compiles, lib) && Consistent(compiles, s)
    ensures Consistent(compiles, Onward(compiles, lib, s, steps))
  {
    if steps == [] {
    } else {
      OnwardConsistent(compiles, lib, s, steps[..|steps| - 1]);
      StepConsistent(compiles, lib, Onward(compiles, lib, s, steps[..|steps| - 1]), steps[|steps| - 1]);
    }
  }

  /** Every gateway that holds the published version holds the published rules. */
  predicate Faithful(s: State) {
    forall g :: g in s.gateways && s.gateways[g].version == s.pack.version ==> s.gateways[g] == s.pack
  }

  lemma ConsistentIsFaithful(compiles: string -> bool, s: State)
    requires Consistent(compiles, s)
    ensures Faithful(s)
  {
    forall g | g in s.gateways && s.gateways[g].version == s.pack.version ensures s.gateways[g] == s.pack {
      assert HoldsPrefix(s.gateways[g], s.pack);
      assert s.pack.rules[..|s.pack.rules|] == s.pack.rules;
    }
  }

  function Draft(id: string): Proposal { Proposal(id, "X", KIND_THRESHOLD, "", [], [], 0.5, 0.0, 0, Proposed, "") }

  /** Only ids and growth matter here: how a state has grown by n approvals, the last under an id outside a set. */
  ghost predicate Grown(s: State, s': State, n: nat, taken: set<string>) {
    && s'.gateways == s.gateways && s'.pack.version == s.pack.version + n && |s'.pack.rules| == |s.pack.rules| + n
    && (n > 0 ==> s'.pack.rules[|s'.pack.rules| - 1].id !in taken)
  }

  lemma AuthorAndApprove(compiles: string -> bool, s: State, id: string)
    requires id !in Ids(s.proposals) && id != ""
    ensures var s' := ApproveIn(compiles, AuthorIn(compiles, s, Draft(id), "r", ""), id);
      && s'.gateways == s.gateways && s'.pack.version == s.pack.version + 1
      && |s'.pack.rules| == |s.pack.rules| + 1 && s'.pack.rules[|s.pack.rules|].id == id
  {
    var p := Draft(id).(status := Proposed, sourceRun := "manual", id := id);
    assert forall j :: 0 <= j < |s.proposals|
             ==> s.proposals[j] in s.proposals && s.proposals[j].id in Ids(s.proposals);
    assert Authored(compiles, s.proposals, Draft(id), "r", "") == Ok(p);
    var ps := s.proposals + [p];
    assert FirstWithId(ps, id) == |s.proposals| by {
      assert ps[|s.proposals|].id == id;
      NotBefore(ps, id, |s.proposals|);
    }
  }

  lemma NotBefore(ps: seq<Proposal>, id: string, n: nat)
    requires n < |ps| && ps[n].id == id && forall j :: 0 <= j < n ==> ps[j].id != id
    ensures FirstWithId(ps, id) == n
  {
  }

  lemma {:induction false} Climb(compiles: string -> bool, lib: seq<Candidate>, s: State, n: nat, taken: set<string>)
    returns (steps: seq<Step>)
    ensures Grown(s, Onward(compiles, lib, s, steps), n, taken)
    decreases n
  {
    if n == 0 {
      steps := [];
    } else {
      var before := Climb(compiles, lib, s, n - 1, taken);
      var s1 := Onward(compiles, lib, s, before);
      var id := FreeId(Ids(s1.proposals) + taken + {""}, "x");
      FreeIdIsFree(Ids(s1.proposals) + taken + {""}, "x");
      AuthorAndApprove(compiles, s1, id);
      OnwardSnoc(compiles, lib, s, before, Author(Draft(id), "r", ""));
      OnwardSnoc(compiles, lib, s, before + [Author(Draft(id), "r", "")], Approve(id));
      steps := before + [Author(Draft(id), "r", "")] + [Approve(id)];
    }
  }

  ghost function RuleIds(rules: seq<Rule>): set<string> { set r | r in rules :: r.id }

  /** From a file that a gateway is ahead of, approvals can reach its version with other rules. */
  lemma VersionReused(compiles: string -> bool, lib: seq<Candidate>, s: State, g: string, n: nat)
    returns (steps: seq<Step>)
    requires g in s.gateways && n > 0 && s.gateways[g].version == s.pack.version + n
    ensures !Faithful(Onward(compiles, lib, s, steps))
  {
    steps := Climb(compiles, lib, s, n, RuleIds(s.gateways[g].rules));
    var s' := Onward(compiles, lib, s, steps);
    var last := s'.pack.rules[|s'.pack.rules| - 1];
    assert last in s'.pack.rules && last.id !in RuleIds(s.gateways[g].rules);
    assert s'.gateways[g].rules != s'.pack.rules;
  }

  /**
   * Restarting the control plane keeps the meaning of versions, over everything that can happen
   * afterwards, exactly when no gateway is ahead of the file. When some gateway is, an approval's
   * write has failed, and later approvals reuse its version for another rule.
   */
  lemma ReloadSafeExactly(compiles: string -> bool, lib: seq<Candidate>, d: Durable)
    requires LibraryCompiles(compiles, lib) && Kept(compiles, d)
    ensures Safe(d) <==> forall steps :: Faithful(Onward(compiles, lib, Reloaded(d), steps))
  {
    if Safe(d) {
      ReloadKeeps(compiles, d);
      forall steps ensures Faithful(Onward(compiles, lib, Reloaded(d), steps)) {
        OnwardConsistent(compiles, lib, Reloaded(d), steps);
        ConsistentIsFaithful(compiles, Onward(compiles, lib, Reloaded(d), steps));
      }
    } else {
      var g :| g in d.state.gateways && d.state.gateways[g].version > d.savedPack.version;
      var steps := VersionReused(compiles, lib, Reloaded(d), g, d.state.gateways[g].version - d.savedPack.version);
    }
  }

  lemma {:induction false} OnwardGrows(compiles: string -> bool, lib: seq<Candidate>, s: State, steps: seq<Step>)
    requires LibraryCompiles(compiles, lib) && Consistent(compiles, s)
    ensures s.pack.rules <= Onward(compiles, lib, s, steps).pack.rules
  {
    if steps == [] {
    } else {
      var rest := steps[..|steps| - 1];
      OnwardGrows(compiles, lib, s, rest);
      OnwardConsistent(compiles, lib, s, rest);
      StepConsistent(compiles, lib, Onward(compiles, lib, s, rest), steps[|steps| - 1]);
    }
  }

  /** Whatever is published from here on under the version of this pack is this pack. */
  ghost predicate NamesContent(compiles: string -> bool, lib: seq<Candidate>, s: State, pack: Pack) {
    forall steps :: var q := Onward(compiles, lib, s, steps).pack; q.version == pack.version ==> q == pack
  }

  lemma ConsistentNamesContent(compiles: string -> bool, lib: seq<Candidate>, s: State)
    requires LibraryCompiles(compiles, lib) && Consistent(compiles, s)
    ensures NamesContent(compiles, lib, s, s.pack)
  {
    forall steps ensures var q := Onward(compiles, lib, s, steps).pack; q.version == s.pack.version ==> q == s.pack {
      OnwardGrows(compiles, lib, s, steps);
      OnwardConsistent(compiles, lib, s, steps);
    }
  }

  /**
   * A version names its content for good as long as the control plane does not restart; across a
   * restart exactly if the file holds what was last published, otherwise approvals can publish
   * other rules under a version that was published before.
   */
  lemma VersionNamesContentExactly(compiles: string -> bool, lib: seq<Candidate>, d: Durable)
    requires LibraryCompiles(compiles, lib) && Kept(compiles, d)
    ensures NamesContent(compiles, lib, d.state, d.state.pack)
    ensures d.savedPack == d.state.pack <==> NamesContent(compiles, lib, Reloaded(d), d.state.pack)
  {
    ConsistentNamesContent(compiles, lib, d.state);
    if d.savedPack == d.state.pack {
      SavedIsSafe(compiles, d);
      ReloadKeeps(compiles, d);
      ConsistentNamesContent(compiles, lib, Reloaded(d));
    } else {
      var n := d.state.pack.version - d.savedPack.version;
      assert n > 0;
      var steps := Climb(compiles, lib, Reloaded(d), n, RuleIds(d.state.pack.rules));
      var q := Onward(compiles, lib, Reloaded(d), steps).pack;
      assert q.rules[|q.rules| - 1] in q.rules && q.rules[|q.rules| - 1].id !in RuleIds(d.state.pack.rules);
      assert q.version == d.state.pack.version && q.rules != d.state.pack.rules;
    }
  }

  lemma SavedIsSafe(compiles: string -> bool, d: Durable)
    requires Kept(compiles, d) && d.savedPack == d.state.pack
    ensures Safe(d)
  {
    forall g | g in d.state.gateways ensures d.state.gateways[g].version <= d.savedPack.version {
      assert HoldsPrefix(d.state.gateways[g], d.state.pack);
    }
  }
}
