/**
 * The flywheel itself (internal/harness/flywheel.go): its proposal list and the published
 * pack, updated in place.
 */
module Flywheel {
  import opened Common
  import opened Sorting
  import opened Packs
  import opened Proposals
  import opened Upserts
  import opened UpsertEffects

  // ---- owner acts, as functions ----

  function ToLower(s: string): string {
    seq(|s|, i requires 0 <= i < |s| => if 'A' <= s[i] <= 'Z' then (s[i] as int + 32) as char else s[i])
  }

  /** The row an owner's draft becomes, if it may enter the list; uuid is freshly drawn. */
  function Authored(compiles: string -> bool, ps: seq<Proposal>, draft: Proposal, rationale: string,
                    uuid: string): Result<Proposal>
  {
    var p := draft.(status := Proposed, sourceRun := "manual",
                    id := if draft.id == "" then "manual-" + ToLower(draft.typ) + "-" + uuid else draft.id);
    if draft.typ == "" then Err("type is required")
    else if rationale == "" then Err("rationale is required")
    else if !Approvable(compiles, p) then Err("artifact")
    else if FirstWithId(ps, p.id) < |ps| then Err("already exists")
    else Ok(p)
  }

  /** Position of the row that may be settled under this id, if there is one. */
  function Settleable(ps: seq<Proposal>, id: string): Option<nat> {
    var i := FirstWithId(ps, id);
    if i < |ps| && ps[i].status.Proposed? then Some(i) else None
  }

  function Published(pack: Pack, rule: Rule): Pack { Pack(pack.version + 1, pack.rules + [rule]) }

  // ---- sorted type names ----

  ghost predicate SortedKeys<T>(types: seq<string>, m: map<string, T>) {
    && Ordered(StringLeq, types) && |types| == |m|
    && forall t :: t in types <==> t in m
  }

  method KeysInOrder<T>(m: map<string, T>) returns (types: seq<string>)
    ensures SortedKeys(types, m)
  {
    var out: seq<string> := [];
    var todo := m.Keys;
    while todo != {}
      invariant todo <= m.Keys && |out| + |todo| == |m.Keys|
      invariant forall t :: t in out <==> t in m.Keys - todo
    {
      var t :| t in todo;
      out := out + [t];
      todo := todo - {t};
    }
    if |out| == 0 {
      return [];
    }
    var a := new string[|out|](i requires 0 <= i < |out| => out[i]);
    assert a[..] == out;
    StringLeqPreorder();
    SortSlice(a, StringLeq);
    types := a[..];
    ArrangementMembers(StringLeq, types, out);
  }

  // ---- the runner ----

  class Runner {
    const compiles: string -> bool
    const library: seq<Candidate>
    var proposals: seq<Proposal>
    var pack: Pack

    constructor (compiles: string -> bool, library: seq<Candidate>)
      requires LibraryCompiles(compiles, library)
      ensures Valid() && this.compiles == compiles && this.library == library && proposals == [] && pack == EMPTY_PACK
    {
      this.compiles := compiles;
      this.library := library;
      proposals := [];
      pack := EMPTY_PACK;
    }

    ghost predicate Valid()
      reads this
    {
      Sound(compiles, proposals) && LibraryCompiles(compiles, library)
    }

    /** Lowers the open row, or opens one, unless a settled row already covers what is needed. */
    method UpsertThreshold(t: string, e: Evidence, run: string) returns (artifact: bool)
      modifies this`proposals
      ensures proposals == Upserts.UpsertThreshold(old(proposals), t, e, run)
      ensures artifact == !Covered(old(proposals), t, ProposeGate(e.minScore))
    {
      var needed := ProposeGate(e.minScore);
      var open: nat := |proposals|;
      for i := 0 to |proposals|
        invariant proposals == old(proposals)
        invariant !Covered(proposals[..i], t, needed)
        invariant if open < |proposals| then open < i && IsOpen(proposals[open], KIND_THRESHOLD, t)
                  else open == |proposals|
        invariant forall j :: 0 <= j < i && j < open ==> !IsOpen(proposals[j], KIND_THRESHOLD, t)
      {
        var p := proposals[i];
        assert proposals[..i + 1] == proposals[..i] + [p];
        if p.kind != KIND_THRESHOLD || p.typ != t {
          continue;
        }
        match p.status {
          case Proposed =>
            if open == |proposals| {
              open := i;
            }
          case Approved =>
            if p.threshold <= needed {
              assert Covers(proposals[i], t, needed);
              return false;
            }
          case Rejected =>
            if p.threshold <= needed {
              assert Covers(proposals[i], t, needed);
              return false;
            }
          case Manual =>
          case Superseded =>
        }
      }
      assert proposals[..|proposals|] == proposals;
      assert open == FirstOpen(proposals, KIND_THRESHOLD, t);
      if open < |proposals| {
        var p := proposals[open];
        if needed < p.threshold {
          p := p.(threshold := needed);
        }
        p := p.(misses := p.misses + e.thresholdMisses, sourceRun := run);
        proposals := proposals[open := p];
        return true;
      }
      var id := FreeProposalID(proposals, "threshold-" + t);
      proposals := proposals + [NewThreshold(id, t, needed, e.thresholdMisses, run)];
      return true;
    }

    /** The terms of all deny rows of the type, and the first open one. */
    method ScanDeny(t: string) returns (known: set<string>, open: nat)
      ensures known == DenyTerms(proposals, t) && open == FirstOpen(proposals, KIND_DENY_LIST, t)
    {
      known, open := {}, |proposals|;
      for i := 0 to |proposals|
        invariant known == DenyTerms(proposals[..i], t)
        invariant if open < |proposals| then open < i && IsOpen(proposals[open], KIND_DENY_LIST, t)
                  else open == |proposals|
        invariant forall j :: 0 <= j < i && j < open ==> !IsOpen(proposals[j], KIND_DENY_LIST, t)
      {
        var p := proposals[i];
        assert proposals[..i + 1] == proposals[..i] + [p];
        if p.kind != KIND_DENY_LIST || p.typ != t {
          assert DenyTerms(proposals[..i + 1], t) == DenyTerms(proposals[..i], t);
          continue;
        }
        ghost var before := known;
        for j := 0 to |p.denyList|
          invariant known == before + (set k | 0 <= k < j :: p.denyList[k])
        {
          known := known + {p.denyList[j]};
        }
        assert DenyTerms(proposals[..i + 1], t) == DenyTerms(proposals[..i], t) + (set d | d in p.denyList);
        if p.status.Proposed? && open == |proposals| {
          open := i;
        }
      }
      assert proposals[..|proposals|] == proposals;
    }

    /** Adds terms no deny row of the type holds yet to the open row, or opens one. */
    method UpsertDeny(t: string, e: Evidence, run: string) returns (artifact: bool)
      requires Valid()
      modifies this`proposals
      ensures proposals == Upserts.UpsertDeny(old(proposals), t, e, run)
      ensures artifact == DenyArtifact(old(proposals), t, e)
    {
      var known, open := ScanDeny(t);
      var terms: seq<string> := [];
      for i := 0 to |e.denyTerms|
        invariant terms == Unknown(e.denyTerms[..i], known)
      {
        assert e.denyTerms[..i + 1][..i] == e.denyTerms[..i];
        if e.denyTerms[i] !in known {
          terms := terms + [e.denyTerms[i]];
        }
      }
      assert e.denyTerms[..|e.denyTerms|] == e.denyTerms;
      if open < |proposals| {
        assert SoundRow(compiles, proposals[open]);
        AddTerms(open, terms, e.denyMisses, run);
        return true;
      }
      if |terms| == 0 {
        return false;
      }
      if |terms| > MAX_DENY_TERMS {
        terms := terms[..MAX_DENY_TERMS];
      }
      var id := FreeProposalID(proposals, "deny-" + t);
      proposals := proposals + [NewDeny(id, t, terms, e.denyMisses, run)];
      return true;
    }

    /** As many of the terms as the open row has room for. */
    method AddTerms(open: nat, terms: seq<string>, misses: int, run: string)
      requires open < |proposals| && |proposals[open].denyList| <= MAX_DENY_TERMS
      modifies this`proposals
      ensures var p := Again(old(proposals)[open], misses, run);
        proposals == old(proposals)[open := p.(denyList := p.denyList
                                               + FirstTerms(terms, MAX_DENY_TERMS - |p.denyList|))]
    {
      var p := proposals[open];
      var more := terms;
      if |terms| > 0 {
        var room := MAX_DENY_TERMS - |p.denyList|;
        if |more| > room {
          more := more[..room];
        }
      }
      proposals := proposals[open := p.(denyList := p.denyList + more, misses := p.misses + misses, sourceRun := run)];
    }

    method Find(id: string) returns (i: nat)
      ensures i == FirstWithId(proposals, id)
    {
      i := 0;
      while i < |proposals|
        invariant i <= |proposals| && forall j :: 0 <= j < i ==> proposals[j].id != id
      {
        if proposals[i].id == id {
          return;
        }
        i := i + 1;
      }
    }

    method UpsertManual(t: string, misses: int, run: string)
      modifies this`proposals
      ensures proposals == Upserts.UpsertManual(old(proposals), t, misses, run)
    {
      var id := "manual-" + t;
      var i := Find(id);
      if i < |proposals| {
        if proposals[i].status.Manual? {
          proposals := proposals[i := proposals[i].(misses := proposals[i].misses + misses)];
        }
        return;
      }
      proposals := proposals + [Proposal(id, t, "", "", [], [], 0.0, 0.0, misses, Manual, run)];
    }

    method UpsertType(t: string, e: Evidence, run: string)
      requires Valid() && ValidEvidence(e)
      modifies this`proposals
      ensures Valid() && proposals == Upserts.UpsertType(old(proposals), t, e, run)
      ensures TypeEffect(old(proposals), proposals, t, e, run)
    {
      ghost var was := proposals;
      TypeKeepsSound(compiles, was, t, e, run);
      var artifact := false;
      if e.thresholdMisses > 0 {
        var a := UpsertThreshold(t, e, run);
        artifact := a || artifact;
      }
      assert proposals == UpsertGate(old(proposals), t, e, run);
      if |e.denyTerms| > 0 {
        var a := UpsertDeny(t, e, run);
        artifact := a || artifact;
      }
      assert proposals == UpsertArtifacts(old(proposals), t, e, run);
      if e.manualMisses > 0 {
        UpsertManual(t, e.manualMisses, run);
      }
      if artifact {
        var i := Find("manual-" + t);
        if i < |proposals| && proposals[i].status.Manual? {
          proposals := proposals[i := proposals[i].(status := Superseded)];
        }
      }
      TypeAnswered(compiles, was, t, e, run);
    }

    method UpsertCandidate(c: Candidate, hits: nat, run: string)
      requires Valid() && compiles(c.regex)
      modifies this`proposals
      ensures Valid() && proposals == Upserts.UpsertCandidate(old(proposals), c, hits, run)
    {
      CandidateRefreshes(compiles, proposals, c, hits, run);
      if hits == 0 {
        return;
      }
      var i := Find(c.id);
      if i < |proposals| {
        if proposals[i].status.Proposed? {
          proposals := proposals[i := proposals[i].(misses := proposals[i].misses + hits, sourceRun := run)];
        }
        return;
      }
      proposals := proposals
        + [Proposal(c.id, c.typ, KIND_REGEX, c.regex, [], [], 0.0, c.confidence, hits, Proposed, run)];
    }

    /** One run's candidate hits and evidence, type by type in the order of their names. */
    method UpsertProposals(run: string, hits: map<string, nat>, evidence: map<string, Evidence>)
      returns (ghost types: seq<string>)
      requires Valid() && forall t :: t in evidence ==> ValidEvidence(evidence[t])
      modifies this`proposals
      ensures Valid() && SortedKeys(types, evidence)
      ensures proposals == UpsertAll(old(proposals), library, hits, types, evidence, run)
      ensures DistinctCandidates(library) ==>
        forall c :: c in library && c.id in hits && hits[c.id] > 0
          ==> PatternEffect(old(proposals), proposals, c, hits[c.id], run)
      ensures forall t, d :: t in evidence && d in evidence[t].denyTerms ==> TermTaken(proposals, t, d)
    {
      for i := 0 to |library|
        invariant Valid()
        invariant proposals == UpsertCandidates(old(proposals), library[..i], hits, run)
      {
        var c := library[i];
        assert library[..i + 1][..i] == library[..i];
        UpsertCandidate(c, if c.id in hits then hits[c.id] else 0, run);
      }
      assert library[..|library|] == library;
      ghost var base := proposals;
      var order := KeysInOrder(evidence);
      for i := 0 to |order|
        invariant Valid()
        invariant proposals == UpsertTypes(base, order[..i], evidence, run)
      {
        assert order[..i + 1][..i] == order[..i];
        assert order[i] in evidence;
        UpsertType(order[i], evidence[order[i]], run);
      }
      assert order[..|order|] == order;
      types := order;
      AllAnswered(compiles, old(proposals), library, hits, types, evidence, run);
    }

    /** An owner's own proposal; it enters the list only if it could be approved as it stands. */
    method AddProposal(draft: Proposal, rationale: string, uuid: string) returns (r: Result<Proposal>)
      requires Valid()
      modifies this`proposals
      ensures Valid() && r == Authored(compiles, old(proposals), draft, rationale, uuid)
      ensures proposals == old(proposals) + if r.Ok? then [r.value] else []
      ensures draft.typ == "" || rationale == "" ==> r.Err? && proposals == old(proposals)
      ensures r.Ok? ==>
        && r.value.status.Proposed? && r.value.sourceRun == "manual"
        && r.value.id == (if draft.id == "" then "manual-" + ToLower(draft.typ) + "-" + uuid else draft.id)
        && r.value == draft.(id := r.value.id, status := Proposed, sourceRun := "manual")
        && RuleFromProposal(compiles, r.value).Ok?
        && forall i :: 0 <= i < |old(proposals)| ==> old(proposals)[i].id != r.value.id
      ensures r.Err? && draft.typ != "" && rationale != "" ==>
        var id := if draft.id == "" then "manual-" + ToLower(draft.typ) + "-" + uuid else draft.id;
        || RuleFromProposal(compiles, draft.(id := id, status := Proposed, sourceRun := "manual")).Err?
        || exists i :: 0 <= i < |old(proposals)| && old(proposals)[i].id == id
    {
      if draft.typ == "" {
        return Err("type is required");
      }
      if rationale == "" {
        return Err("rationale is required");
      }
      var p := draft.(status := Proposed, sourceRun := "manual",
                      id := if draft.id == "" then "manual-" + ToLower(draft.typ) + "-" + uuid else draft.id);
      if !Approvable(compiles, p) {
        return Err("artifact");
      }
      var i := Find(p.id);
      if i < |proposals| {
        return Err("already exists");
      }
      AuthoredKeepsSound(compiles, proposals, p);
      proposals := proposals + [p];
      return Ok(p);
    }

    /** The last row with this id, which is the only one. */
    method FindLast(id: string) returns (at: nat)
      requires UniqueIds(proposals)
      ensures at == FirstWithId(proposals, id)
    {
      at := |proposals|;
      for i := 0 to |proposals|
        invariant if at < |proposals| then at < i && proposals[at].id == id
                  else at == |proposals| && forall j :: 0 <= j < i ==> proposals[j].id != id
      {
        if proposals[i].id == id {
          at := i;
        }
      }
    }

    /** Approval fails only for want of an open row; it publishes one rule under the next version. */
    method ApproveProposal(id: string) returns (r: Result<Pack>)
      requires Valid()
      modifies this
      ensures Valid()
      ensures r.Ok? <==> Settleable(old(proposals), id).Some?
      ensures r.Err? ==> proposals == old(proposals) && pack == old(pack)
      ensures r.Ok? ==>
        var i := Settleable(old(proposals), id).value;
        && RuleFromProposal(compiles, old(proposals)[i]).Ok?
        && proposals == old(proposals)[i := old(proposals)[i].(status := Approved)]
        && pack == Published(old(pack), RuleFromProposal(compiles, old(proposals)[i]).value) && r.value == pack
      ensures r.Ok? <==>
               exists i :: 0 <= i < |old(proposals)| && old(proposals)[i].id == id && old(proposals)[i].status.Proposed?
      ensures r.Ok? ==>
        && |proposals| == |old(proposals)|
        && (forall i :: 0 <= i < |proposals| ==>
              proposals[i] == if old(proposals)[i].id == id then old(proposals)[i].(status := Approved)
                else old(proposals)[i])
        && pack.version == old(pack).version + 1 && |pack.rules| == |old(pack).rules| + 1
        && pack.rules[..|old(pack).rules|] == old(pack).rules && pack.rules[|old(pack).rules|].id == id
    {
      var at := FindLast(id);
      if at == |proposals| {
        return Err("unknown proposal");
      }
      if !proposals[at].status.Proposed? {
        return Err("not approvable");
      }
      assert SoundRow(compiles, proposals[at]);
      var rule := RuleFromProposal(compiles, proposals[at]);
      if rule.Err? {
        return Err("artifact");
      }
      SettlingKeepsSound(compiles, proposals, at, Approved);
      proposals := proposals[at := proposals[at].(status := Approved)];
      pack := Published(pack, rule.value);
      return Ok(pack);
    }

    method RejectProposal(id: string) returns (err: bool)
      requires Valid()
      modifies this`proposals
      ensures Valid()
      ensures err <==> Settleable(old(proposals), id).None?
      ensures proposals == if err then old(proposals)
                           else
                             var i := Settleable(old(proposals), id).value;
                             old(proposals)[i := old(proposals)[i].(status := Rejected)]
      ensures !err <==>
               exists i :: 0 <= i < |old(proposals)| && old(proposals)[i].id == id && old(proposals)[i].status.Proposed?
      ensures !err ==>
        && |proposals| == |old(proposals)|
        && forall i :: 0 <= i < |proposals| ==>
             proposals[i] == if old(proposals)[i].id == id then old(proposals)[i].(status := Rejected)
               else old(proposals)[i]
    {
      var i := Find(id);
      if i == |proposals| || !proposals[i].status.Proposed? {
        return true;
      }
      SettlingKeepsSound(compiles, proposals, i, Rejected);
      proposals := proposals[i := proposals[i].(status := Rejected)];
      return false;
    }
  }

  // ---- what a run calls for is there ----

  lemma AllAnswered(compiles: string -> bool, ps: seq<Proposal>, library: seq<Candidate>, hits: map<string, nat>,
                    types: seq<string>, evidence: map<string, Evidence>, run: string)
    requires Sound(compiles, ps) && LibraryCompiles(compiles, library) && SortedKeys(types, evidence)
    requires forall t :: t in evidence ==> ValidEvidence(evidence[t])
    ensures var qs := UpsertAll(ps, library, hits, types, evidence, run);
      && (DistinctCandidates(library) ==>
            forall c :: c in library && c.id in hits && hits[c.id] > 0 ==> PatternEffect(ps, qs, c, hits[c.id], run))
      && (forall t, d :: t in evidence && d in evidence[t].denyTerms ==> TermTaken(qs, t, d))
  {
    var qs := UpsertAll(ps, library, hits, types, evidence, run);
    forall c | DistinctCandidates(library) && c in library && c.id in hits && hits[c.id] > 0
      ensures PatternEffect(ps, qs, c, hits[c.id], run)
    {
      var n :| 0 <= n < |library| && library[n] == c;
      PatternAnswered(compiles, ps, library, hits, types, evidence, run, n);
    }
    forall t, d | t in evidence && d in evidence[t].denyTerms ensures TermTaken(qs, t, d) {
      AllTermsTaken(compiles, ps, library, hits, types, evidence, run, t, d);
    }
  }

  // ---- every act keeps the list sound ----

  lemma TypeKeepsSound(compiles: string -> bool, ps: seq<Proposal>, t: string, e: Evidence, run: string)
    requires Sound(compiles, ps) && ValidEvidence(e)
    ensures Sound(compiles, UpsertGate(ps, t, e, run)) && Sound(compiles, Upserts.UpsertType(ps, t, e, run))
  {
    TypeRefreshes(compiles, ps, t, e, run);
    ArtifactsRefresh(compiles, ps, t, e, run);
  }

  lemma AuthoredKeepsSound(compiles: string -> bool, ps: seq<Proposal>, p: Proposal)
    requires Sound(compiles, ps) && Approvable(compiles, p) && p.status.Proposed?
    requires forall i :: 0 <= i < |ps| ==> ps[i].id != p.id
    ensures Sound(compiles, ps + [p]) && Evolves(ps, ps + [p])
  {
    var qs := ps + [p];
    assert SoundRow(compiles, p);
    forall i | 0 <= i < |qs| ensures SoundRow(compiles, qs[i]) {
      if i < |ps| {
        assert SoundRow(compiles, ps[i]);
      }
    }
  }

  lemma SettlingKeepsSound(compiles: string -> bool, ps: seq<Proposal>, i: nat, verdict: Status)
    requires Sound(compiles, ps) && i < |ps| && ps[i].status.Proposed? && (verdict.Approved? || verdict.Rejected?)
    ensures RuleFromProposal(compiles, ps[i]).Ok?
    ensures var qs := ps[i := ps[i].(status := verdict)]; Sound(compiles, qs) && Evolves(ps, qs)
  {
    assert SoundRow(compiles, ps[i]);
  }
}
