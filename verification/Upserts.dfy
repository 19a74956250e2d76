/**
 * How one harness run changes the proposal list (internal/harness/flywheel.go), as functions
 * on the list, with what each change keeps.
 */
module Upserts {
  import opened Packs
  import opened Proposals

  /** Per type, which artifact would honestly cover the misses no curated pattern covers. */
  datatype Evidence = Evidence(gate: real, thresholdMisses: nat, minScore: real,
                               denyMisses: nat, denyTerms: seq<string>, manualMisses: nat)

  datatype Candidate = Candidate(id: string, typ: string, regex: string, confidence: real)

  predicate LibraryCompiles(compiles: string -> bool, library: seq<Candidate>) {
    forall c :: c in library ==> compiles(c.regex)
  }

  // ---- looking up rows ----

  predicate IsOpen(p: Proposal, kind: string, t: string) { p.kind == kind && p.typ == t && p.status.Proposed? }

  /** Position of the first open row of this kind and type, or the length if there is none. */
  function FirstOpen(ps: seq<Proposal>, kind: string, t: string): (i: nat)
    ensures i <= |ps|
    ensures forall j :: 0 <= j < i ==> !IsOpen(ps[j], kind, t)
    ensures i < |ps| ==> IsOpen(ps[i], kind, t)
  {
    if ps == [] || IsOpen(ps[0], kind, t) then 0 else 1 + FirstOpen(ps[1..], kind, t)
  }

  /** Position of the first row with this id, or the length if there is none. */
  function FirstWithId(ps: seq<Proposal>, id: string): (i: nat)
    ensures i <= |ps|
    ensures forall j :: 0 <= j < i ==> ps[j].id != id
    ensures i < |ps| ==> ps[i].id == id
  {
    if ps == [] || ps[0].id == id then 0 else 1 + FirstWithId(ps[1..], id)
  }

  /** A settled row already asks for this gate or a lower one. */
  predicate Covers(p: Proposal, t: string, needed: real) {
    p.kind == KIND_THRESHOLD && p.typ == t && (p.status.Approved? || p.status.Rejected?) && p.threshold <= needed
  }

  predicate Covered(ps: seq<Proposal>, t: string, needed: real) {
    exists i :: 0 <= i < |ps| && Covers(ps[i], t, needed)
  }

  predicate IsDenyRow(p: Proposal, t: string) { p.kind == KIND_DENY_LIST && p.typ == t }

  /** The terms of every deny row of the type, whatever became of the row. */
  function DenyTerms(ps: seq<Proposal>, t: string): set<string> {
    set p, d | p in ps && IsDenyRow(p, t) && d in p.denyList :: d
  }

  function Unknown(terms: seq<string>, known: set<string>): seq<string> {
    if terms == [] then []
    else
      var d := terms[|terms| - 1];
      Unknown(terms[..|terms| - 1], known) + if d in known then [] else [d]
  }

  function FirstTerms(terms: seq<string>, n: int): seq<string> {
    if n <= 0 then [] else if |terms| <= n then terms else terms[..n]
  }

  // ---- the changes ----

  function Again(p: Proposal, misses: int, run: string): Proposal {
    p.(misses := p.misses + misses, sourceRun := run)
  }

  function UpsertCandidate(ps: seq<Proposal>, c: Candidate, hits: nat, run: string): seq<Proposal> {
    var i := FirstWithId(ps, c.id);
    if hits == 0 then ps
    else if i < |ps| then
      if ps[i].status.Proposed? then ps[i := Again(ps[i], hits, run)] else ps
    else ps + [Proposal(c.id, c.typ, KIND_REGEX, c.regex, [], [], 0.0, c.confidence, hits, Proposed, run)]
  }

  function NewThreshold(id: string, t: string, needed: real, misses: int, run: string): Proposal {
    Proposal(id, t, KIND_THRESHOLD, "", [], [], needed, 0.0, misses, Proposed, run)
  }

  function UpsertThreshold(ps: seq<Proposal>, t: string, e: Evidence, run: string): seq<Proposal> {
    var needed := ProposeGate(e.minScore);
    var open := FirstOpen(ps, KIND_THRESHOLD, t);
    if Covered(ps, t, needed) then ps
    else if open < |ps| then
      var p := Again(ps[open], e.thresholdMisses, run);
      ps[open := if needed < p.threshold then p.(threshold := needed) else p]
    else ps + [NewThreshold(FreeId(Ids(ps), "threshold-" + t), t, needed, e.thresholdMisses, run)]
  }

  function NewDeny(id: string, t: string, terms: seq<string>, misses: int, run: string): Proposal {
    Proposal(id, t, KIND_DENY_LIST, "", terms, [], 0.0, 1.0, misses, Proposed, run)
  }

  function UpsertDeny(ps: seq<Proposal>, t: string, e: Evidence, run: string): seq<Proposal> {
    var terms := Unknown(e.denyTerms, DenyTerms(ps, t));
    var open := FirstOpen(ps, KIND_DENY_LIST, t);
    if open < |ps| then
      var p := Again(ps[open], e.denyMisses, run);
      ps[open := p.(denyList := p.denyList + FirstTerms(terms, MAX_DENY_TERMS - |p.denyList|))]
    else if terms == [] then ps
    else ps + [NewDeny(FreeId(Ids(ps), "deny-" + t), t, FirstTerms(terms, MAX_DENY_TERMS), e.denyMisses, run)]
  }

  predicate DenyArtifact(ps: seq<Proposal>, t: string, e: Evidence) {
    Unknown(e.denyTerms, DenyTerms(ps, t)) != [] || FirstOpen(ps, KIND_DENY_LIST, t) < |ps|
  }

  function UpsertManual(ps: seq<Proposal>, t: string, misses: int, run: string): seq<Proposal> {
    var i := FirstWithId(ps, "manual-" + t);
    if i < |ps| then
      if ps[i].status.Manual? then ps[i := ps[i].(misses := ps[i].misses + misses)] else ps
    else ps + [Proposal("manual-" + t, t, "", "", [], [], 0.0, 0.0, misses, Manual, run)]
  }

  /** The manual row of a type that has gained an artifact is superseded. */
  function Supersede(ps: seq<Proposal>, t: string): seq<Proposal> {
    var i := FirstWithId(ps, "manual-" + t);
    if i < |ps| && ps[i].status.Manual? then ps[i := ps[i].(status := Superseded)] else ps
  }

  function UpsertGate(ps: seq<Proposal>, t: string, e: Evidence, run: string): seq<Proposal> {
    if e.thresholdMisses > 0 then UpsertThreshold(ps, t, e, run) else ps
  }

  function UpsertArtifacts(ps: seq<Proposal>, t: string, e: Evidence, run: string): seq<Proposal> {
    var ps1 := UpsertGate(ps, t, e, run);
    if e.denyTerms != [] then UpsertDeny(ps1, t, e, run) else ps1
  }

  predicate GainsArtifact(ps: seq<Proposal>, t: string, e: Evidence, run: string) {
    || (e.thresholdMisses > 0 && !Covered(ps, t, ProposeGate(e.minScore)))
    || (e.denyTerms != [] && DenyArtifact(UpsertGate(ps, t, e, run), t, e))
  }

  function UpsertType(ps: seq<Proposal>, t: string, e: Evidence, run: string): seq<Proposal> {
    var ps1 := UpsertArtifacts(ps, t, e, run);
    var ps2 := if e.manualMisses > 0 then UpsertManual(ps1, t, e.manualMisses, run) else ps1;
    if GainsArtifact(ps, t, e, run) then Supersede(ps2, t) else ps2
  }

  function UpsertCandidates(ps: seq<Proposal>, cands: seq<Candidate>, hits: map<string, nat>,
                            run: string): seq<Proposal>
  {
    if cands == [] then ps
    else
      var c := cands[|cands| - 1];
      UpsertCandidate(UpsertCandidates(ps, cands[..|cands| - 1], hits, run), c, if c.id in hits then hits[c.id]
                      else 0, run)
  }

  function UpsertTypes(ps: seq<Proposal>, types: seq<string>, evidence: map<string, Evidence>,
                       run: string): seq<Proposal>
  {
    if types == [] then ps
    else
      var t := types[|types| - 1];
      var rest := UpsertTypes(ps, types[..|types| - 1], evidence, run);
      if t in evidence then UpsertType(rest, t, evidence[t], run) else rest
  }

  function UpsertAll(ps: seq<Proposal>, library: seq<Candidate>, hits: map<string, nat>, types: seq<string>,
                     evidence: map<string, Evidence>, run: string): seq<Proposal>
  {
    UpsertTypes(UpsertCandidates(ps, library, hits, run), types, evidence, run)
  }

  // ---- what every change keeps ----

  ghost predicate UniqueIds(ps: seq<Proposal>) {
    forall i, j :: 0 <= i < j < |ps| ==> ps[i].id != ps[j].id
  }

  ghost predicate SoundRow(compiles: string -> bool, p: Proposal) {
    && (p.status.Proposed? ==> Approvable(compiles, p))
    && (p.status.Manual? || p.status.Superseded? ==> p.kind == "")
    && (p.kind == KIND_DENY_LIST ==> |p.denyList| <= MAX_DENY_TERMS)
  }

  /** Ids are unique, and whatever waits for approval can be approved. */
  ghost predicate Sound(compiles: string -> bool, ps: seq<Proposal>) {
    UniqueIds(ps) && forall i :: 0 <= i < |ps| ==> SoundRow(compiles, ps[i])
  }

  /** How a row may change: settled rows not at all, open ones only towards a wider artifact. */
  ghost predicate RowEvolves(p: Proposal, q: Proposal) {
    && q.id == p.id && q.typ == p.typ && q.kind == p.kind && q.regex == p.regex && q.allowList == p.allowList
    && q.confidence == p.confidence && q.threshold <= p.threshold && p.denyList <= q.denyList
    && (p.IsSettled() ==> q == p)
    && (p.status.Manual? ==> q.threshold == p.threshold && q.denyList == p.denyList
                             && (q.status.Manual? || q.status.Superseded?))
    && (p.status.Proposed? ==> q.status.Proposed? || q.status.Approved? || q.status.Rejected?)
  }

  /** Rows are never removed or reordered. */
  ghost predicate Evolves(ps: seq<Proposal>, qs: seq<Proposal>) {
    |ps| <= |qs| && forall i :: 0 <= i < |ps| ==> RowEvolves(ps[i], qs[i])
  }

  lemma EvolvesTransitive(ps: seq<Proposal>, qs: seq<Proposal>, rs: seq<Proposal>)
    requires Evolves(ps, qs) && Evolves(qs, rs)
    ensures Evolves(ps, rs)
  {
    forall i | 0 <= i < |ps| ensures RowEvolves(ps[i], rs[i]) {
      assert RowEvolves(ps[i], qs[i]) && RowEvolves(qs[i], rs[i]);
    }
  }

  /** A term that a deny row gains was in no deny row of the type before. */
  ghost predicate NoRevival(ps: seq<Proposal>, qs: seq<Proposal>, t: string) {
    forall i, d :: 0 <= i < |qs| && IsDenyRow(qs[i], t) && d in qs[i].denyList && d in DenyTerms(ps, t)
      ==> i < |ps| && d in ps[i].denyList
  }

  lemma DenyTermsGrow(ps: seq<Proposal>, qs: seq<Proposal>, t: string)
    requires Evolves(ps, qs)
    ensures DenyTerms(ps, t) <= DenyTerms(qs, t)
  {
    forall d | d in DenyTerms(ps, t) ensures d in DenyTerms(qs, t) {
      var p :| p in ps && IsDenyRow(p, t) && d in p.denyList;
      var i :| 0 <= i < |ps| && ps[i] == p;
      assert RowEvolves(ps[i], qs[i]);
      assert qs[i].denyList[..|p.denyList|] == p.denyList;
      assert qs[i] in qs && IsDenyRow(qs[i], t) && d in qs[i].denyList;
    }
  }

  lemma NoRevivalTransitive(ps: seq<Proposal>, qs: seq<Proposal>, rs: seq<Proposal>, t: string)
    requires Evolves(ps, qs) && Evolves(qs, rs)
    requires NoRevival(ps, qs, t) && NoRevival(qs, rs, t)
    ensures NoRevival(ps, rs, t)
  {
    forall i, d | 0 <= i < |rs| && IsDenyRow(rs[i], t) && d in rs[i].denyList && d in DenyTerms(ps, t)
      ensures i < |ps| && d in ps[i].denyList
    {
      NotRevived(ps, qs, rs, t, i, d);
    }
  }

  lemma NotRevived(ps: seq<Proposal>, qs: seq<Proposal>, rs: seq<Proposal>, t: string, i: int, d: string)
    requires Evolves(ps, qs) && Evolves(qs, rs)
    requires NoRevival(ps, qs, t) && NoRevival(qs, rs, t)
    requires 0 <= i < |rs| && IsDenyRow(rs[i], t) && d in rs[i].denyList && d in DenyTerms(ps, t)
    ensures i < |ps| && d in ps[i].denyList
  {
    DenyTermsGrow(ps, qs, t);
    assert i < |qs| && d in qs[i].denyList;
    assert RowEvolves(qs[i], rs[i]);
  }

  /** No term stands in two deny rows of the type. */
  ghost predicate OneHolder(ps: seq<Proposal>, t: string) {
    forall i, j, d :: 0 <= i < j < |ps| && IsDenyRow(ps[i], t) && IsDenyRow(ps[j], t) && d in ps[i].denyList
      ==> d !in ps[j].denyList
  }

  /** Changing one row, or adding one, without reviving a term leaves each term with one holder. */
  lemma OneHolderKept(ps: seq<Proposal>, qs: seq<Proposal>, at: int, t: string)
    requires OneHolder(ps, t) && NoRevival(ps, qs, t)
    requires 0 <= at < |qs| && |ps| <= |qs| && (at < |ps| ==> |qs| == |ps|) && (at == |ps| ==> |qs| == |ps| + 1)
    requires at <= |ps| && forall i :: 0 <= i < |ps| && i != at ==> qs[i] == ps[i]
    requires at < |ps| ==> qs[at].kind == ps[at].kind && qs[at].typ == ps[at].typ
    ensures OneHolder(qs, t)
  {
    forall i, d | 0 <= i < |qs| && i != at && IsDenyRow(qs[i], t) && d in qs[i].denyList && IsDenyRow(qs[at], t)
      ensures d !in qs[at].denyList
    {
      InDenyTerms(ps, i, t, d);
    }
  }

  /** The same rows are approved. */
  ghost predicate SameApproved(ps: seq<Proposal>, qs: seq<Proposal>) {
    && |ps| <= |qs|
    && (forall i :: 0 <= i < |ps| ==> (qs[i].status.Approved? <==> ps[i].status.Approved?))
    && (forall i :: |ps| <= i < |qs| ==> !qs[i].status.Approved?)
  }

  /** Only a person closes a proposal. */
  ghost predicate StaysOpen(ps: seq<Proposal>, qs: seq<Proposal>) {
    forall i :: 0 <= i < |ps| && i < |qs| && ps[i].status.Proposed? ==> qs[i].status.Proposed?
  }

  /** What the flywheel itself may do to the list. */
  ghost predicate Refreshes(compiles: string -> bool, ps: seq<Proposal>, qs: seq<Proposal>) {
    && Evolves(ps, qs)
    && Sound(compiles, qs)
    && SameApproved(ps, qs)
    && StaysOpen(ps, qs)
    && (forall t :: NoRevival(ps, qs, t))
    && (forall t :: OneHolder(ps, t) ==> OneHolder(qs, t))
  }

  lemma RefreshesReflexive(compiles: string -> bool, ps: seq<Proposal>)
    requires Sound(compiles, ps)
    ensures Refreshes(compiles, ps, ps)
  {
  }

  lemma RefreshesTransitive(compiles: string -> bool, ps: seq<Proposal>, qs: seq<Proposal>, rs: seq<Proposal>)
    requires Refreshes(compiles, ps, qs) && Refreshes(compiles, qs, rs)
    ensures Refreshes(compiles, ps, rs)
  {
    EvolvesTransitive(ps, qs, rs);
    forall t ensures NoRevival(ps, rs, t) {
      NoRevivalTransitive(ps, qs, rs, t);
    }
  }

  lemma InDenyTerms(ps: seq<Proposal>, i: int, t: string, d: string)
    requires 0 <= i < |ps| && IsDenyRow(ps[i], t) && d in ps[i].denyList
    ensures d in DenyTerms(ps, t)
  {
    assert ps[i] in ps;
  }

  /** One row changes. */
  lemma UpdateRefreshes(compiles: string -> bool, ps: seq<Proposal>, i: int, q: Proposal)
    requires Sound(compiles, ps) && 0 <= i < |ps|
    requires RowEvolves(ps[i], q) && SoundRow(compiles, q) && (q.status.Approved? <==> ps[i].status.Approved?)
    requires ps[i].status.Proposed? ==> q.status.Proposed?
    requires forall d :: d in q.denyList && d in DenyTerms(ps, q.typ) && IsDenyRow(q, q.typ) ==> d in ps[i].denyList
    ensures Refreshes(compiles, ps, ps[i := q])
  {
    var qs := ps[i := q];
    assert UniqueIds(qs);
    forall t ensures NoRevival(ps, qs, t) {
    }
    forall t | OneHolder(ps, t) ensures OneHolder(qs, t) {
      OneHolderKept(ps, qs, i, t);
    }
  }

  /** One row comes in. */
  lemma AppendRefreshes(compiles: string -> bool, ps: seq<Proposal>, q: Proposal)
    requires Sound(compiles, ps) && q.id !in Ids(ps)
    requires SoundRow(compiles, q) && !q.status.Approved?
    requires forall d :: d in q.denyList && IsDenyRow(q, q.typ) ==> d !in DenyTerms(ps, q.typ)
    ensures Refreshes(compiles, ps, ps + [q])
  {
    var qs := ps + [q];
    forall i | 0 <= i < |ps| ensures ps[i].id != q.id {
      assert ps[i] in ps;
    }
    forall t ensures NoRevival(ps, qs, t) {
    }
    forall t | OneHolder(ps, t) ensures OneHolder(qs, t) {
      OneHolderKept(ps, qs, |ps|, t);
    }
  }

  lemma NotPresent(ps: seq<Proposal>, id: string)
    requires FirstWithId(ps, id) == |ps|
    ensures id !in Ids(ps)
  {
  }

  lemma CandidateRefreshes(compiles: string -> bool, ps: seq<Proposal>, c: Candidate, hits: nat, run: string)
    requires Sound(compiles, ps) && compiles(c.regex)
    ensures Refreshes(compiles, ps, UpsertCandidate(ps, c, hits, run))
  {
    var i := FirstWithId(ps, c.id);
    RefreshesReflexive(compiles, ps);
    if i < |ps| {
      UpdateRefreshes(compiles, ps, i, if ps[i].status.Proposed? then Again(ps[i], hits, run) else ps[i]);
    } else {
      NotPresent(ps, c.id);
      AppendRefreshes(compiles, ps,
                      Proposal(c.id, c.typ, KIND_REGEX, c.regex, [], [], 0.0, c.confidence, hits, Proposed, run));
    }
  }

  lemma ThresholdRefreshes(compiles: string -> bool, ps: seq<Proposal>, t: string, e: Evidence, run: string)
    requires Sound(compiles, ps) && e.minScore <= 1.0
    ensures Refreshes(compiles, ps, UpsertThreshold(ps, t, e, run))
  {
    var needed := ProposeGate(e.minScore);
    ProposedGateOnGrid(e.minScore);
    var open := FirstOpen(ps, KIND_THRESHOLD, t);
    RefreshesReflexive(compiles, ps);
    if open < |ps| {
      assert SoundRow(compiles, ps[open]);
      var p := Again(ps[open], e.thresholdMisses, run);
      UpdateRefreshes(compiles, ps, open, if needed < p.threshold then p.(threshold := needed) else p);
    } else {
      var id := FreeId(Ids(ps), "threshold-" + t);
      FreeIdIsFree(Ids(ps), "threshold-" + t);
      AppendRefreshes(compiles, ps, NewThreshold(id, t, needed, e.thresholdMisses, run));
    }
  }

  /** The unknown terms are those of the list outside the known set. */
  lemma {:induction false} UnknownMembers(terms: seq<string>, known: set<string>)
    ensures forall d :: d in Unknown(terms, known) <==> d in terms && d !in known
  {
    if terms == [] {
    } else {
      UnknownMembers(terms[..|terms| - 1], known);
    }
  }

  /** Room is never negative, and an open row that gains valid terms stays approvable. */
  lemma DenyRowGrows(compiles: string -> bool, p: Proposal, terms: seq<string>, misses: int, run: string)
    requires SoundRow(compiles, p) && p.kind == KIND_DENY_LIST && p.status.Proposed?
    requires forall d :: d in terms ==> DenyTermOk(d)
    ensures 0 <= MAX_DENY_TERMS - |p.denyList|
    ensures var q := Again(p, misses, run).(denyList := p.denyList + FirstTerms(terms, MAX_DENY_TERMS - |p.denyList|));
      && RowEvolves(p, q) && SoundRow(compiles, q)
      && forall d :: d in q.denyList ==> d in p.denyList || d in terms
  {
    var more := FirstTerms(terms, MAX_DENY_TERMS - |p.denyList|);
    forall d | d in p.denyList + more ensures DenyTermOk(d) && (d in p.denyList || d in terms) {
    }
  }

  lemma NewDenyIsSound(compiles: string -> bool, id: string, t: string, terms: seq<string>, misses: int, run: string)
    requires terms != [] && forall d :: d in terms ==> DenyTermOk(d)
    ensures var q := NewDeny(id, t, FirstTerms(terms, MAX_DENY_TERMS), misses, run);
      SoundRow(compiles, q) && forall d :: d in q.denyList ==> d in terms
  {
  }

  lemma DenyRefreshes(compiles: string -> bool, ps: seq<Proposal>, t: string, e: Evidence, run: string)
    requires Sound(compiles, ps) && forall d :: d in e.denyTerms ==> DenyTermOk(d)
    ensures Refreshes(compiles, ps, UpsertDeny(ps, t, e, run))
  {
    var known := DenyTerms(ps, t);
    var terms := Unknown(e.denyTerms, known);
    UnknownMembers(e.denyTerms, known);
    var open := FirstOpen(ps, KIND_DENY_LIST, t);
    if open < |ps| {
      var p := ps[open];
      assert SoundRow(compiles, p);
      DenyRowGrows(compiles, p, terms, e.denyMisses, run);
      UpdateRefreshes(compiles, ps, open,
        Again(p, e.denyMisses, run).(denyList := p.denyList + FirstTerms(terms, MAX_DENY_TERMS - |p.denyList|)));
    } else if terms != [] {
      var id := FreeId(Ids(ps), "deny-" + t);
      FreeIdIsFree(Ids(ps), "deny-" + t);
      NewDenyIsSound(compiles, id, t, terms, e.denyMisses, run);
      AppendRefreshes(compiles, ps, NewDeny(id, t, FirstTerms(terms, MAX_DENY_TERMS), e.denyMisses, run));
    } else {
      RefreshesReflexive(compiles, ps);
    }
  }

  lemma MoreMisses(compiles: string -> bool, ps: seq<Proposal>, i: nat, misses: int)
    requires Sound(compiles, ps) && i < |ps| && ps[i].status.Manual?
    ensures Refreshes(compiles, ps, ps[i := ps[i].(misses := ps[i].misses + misses)])
  {
    assert SoundRow(compiles, ps[i]);
    UpdateRefreshes(compiles, ps, i, ps[i].(misses := ps[i].misses + misses));
  }

  lemma ManualRefreshes(compiles: string -> bool, ps: seq<Proposal>, t: string, misses: int, run: string)
    requires Sound(compiles, ps)
    ensures Refreshes(compiles, ps, UpsertManual(ps, t, misses, run))
  {
    var i, qs := FirstWithId(ps, "manual-" + t), UpsertManual(ps, t, misses, run);
    if i < |ps| && ps[i].status.Manual? {
      MoreMisses(compiles, ps, i, misses);
      assert qs == ps[i := ps[i].(misses := ps[i].misses + misses)];
    } else if i < |ps| {
      RefreshesReflexive(compiles, ps);
    } else {
      NotPresent(ps, "manual-" + t);
      var row := Proposal("manual-" + t, t, "", "", [], [], 0.0, 0.0, misses, Manual, run);
      AppendRefreshes(compiles, ps, row);
      assert qs == ps + [row];
    }
  }

  lemma SupersedeRefreshes(compiles: string -> bool, ps: seq<Proposal>, t: string)
    requires Sound(compiles, ps)
    ensures Refreshes(compiles, ps, Supersede(ps, t))
  {
    var i := FirstWithId(ps, "manual-" + t);
    RefreshesReflexive(compiles, ps);
    if i < |ps| && ps[i].status.Manual? {
      assert SoundRow(compiles, ps[i]);
      UpdateRefreshes(compiles, ps, i, ps[i].(status := Superseded));
    }
  }

  /** Evidence as the gathering step leaves it. */
  ghost predicate ValidEvidence(e: Evidence) {
    && e.gate <= 1.0
    && (if e.thresholdMisses == 0 then e.minScore == 1.0 else 0.0 <= e.minScore < e.gate)
    && (forall d :: d in e.denyTerms ==> DenyTermOk(d))
    && (forall i, j :: 0 <= i < j < |e.denyTerms| ==> e.denyTerms[i] != e.denyTerms[j])
    && |e.denyTerms| <= e.denyMisses
  }

  lemma ArtifactsRefresh(compiles: string -> bool, ps: seq<Proposal>, t: string, e: Evidence, run: string)
    requires Sound(compiles, ps) && ValidEvidence(e)
    ensures Refreshes(compiles, ps, UpsertGate(ps, t, e, run))
    ensures Refreshes(compiles, ps, UpsertArtifacts(ps, t, e, run))
  {
    RefreshesReflexive(compiles, ps);
    var ps1 := UpsertGate(ps, t, e, run);
    ThresholdRefreshes(compiles, ps, t, e, run);
    if e.denyTerms != [] {
      DenyRefreshes(compiles, ps1, t, e, run);
      RefreshesTransitive(compiles, ps, ps1, UpsertDeny(ps1, t, e, run));
    }
  }

  lemma LeftoversRefresh(compiles: string -> bool, ps: seq<Proposal>, t: string, manualMisses: nat, gains: bool,
                         run: string)
    requires Sound(compiles, ps)
    ensures var ps1 := if manualMisses > 0 then UpsertManual(ps, t, manualMisses, run) else ps;
      Refreshes(compiles, ps, if gains then Supersede(ps1, t) else ps1)
  {
    RefreshesReflexive(compiles, ps);
    var ps1 := if manualMisses > 0 then UpsertManual(ps, t, manualMisses, run) else ps;
    ManualRefreshes(compiles, ps, t, manualMisses, run);
    SupersedeRefreshes(compiles, ps1, t);
    RefreshesTransitive(compiles, ps, ps1, Supersede(ps1, t));
  }

  lemma TypeRefreshes(compiles: string -> bool, ps: seq<Proposal>, t: string, e: Evidence, run: string)
    requires Sound(compiles, ps) && ValidEvidence(e)
    ensures Refreshes(compiles, ps, UpsertType(ps, t, e, run))
  {
    ArtifactsRefresh(compiles, ps, t, e, run);
    var ps1 := UpsertArtifacts(ps, t, e, run);
    LeftoversRefresh(compiles, ps1, t, e.manualMisses, GainsArtifact(ps, t, e, run), run);
    RefreshesTransitive(compiles, ps, ps1, UpsertType(ps, t, e, run));
  }

  lemma {:induction false} CandidatesRefresh(compiles: string -> bool, ps: seq<Proposal>, cands: seq<Candidate>,
                                             hits: map<string, nat>, run: string)
    requires Sound(compiles, ps) && forall c :: c in cands ==> compiles(c.regex)
    ensures Refreshes(compiles, ps, UpsertCandidates(ps, cands, hits, run))
  {
    if cands == [] {
      RefreshesReflexive(compiles, ps);
    } else {
      var c, rest := cands[|cands| - 1], cands[..|cands| - 1];
      CandidatesRefresh(compiles, ps, rest, hits, run);
      var qs := UpsertCandidates(ps, rest, hits, run);
      var n := if c.id in hits then hits[c.id] else 0;
      CandidateRefreshes(compiles, qs, c, n, run);
      RefreshesTransitive(compiles, ps, qs, UpsertCandidate(qs, c, n, run));
    }
  }

  lemma {:induction false} TypesRefresh(compiles: string -> bool, ps: seq<Proposal>, types: seq<string>,
                                        evidence: map<string, Evidence>, run: string)
    requires Sound(compiles, ps) && forall t :: t in evidence ==> ValidEvidence(evidence[t])
    ensures Refreshes(compiles, ps, UpsertTypes(ps, types, evidence, run))
  {
    if types == [] {
      RefreshesReflexive(compiles, ps);
    } else {
      var t, rest := types[|types| - 1], types[..|types| - 1];
      TypesRefresh(compiles, ps, rest, evidence, run);
      var qs := UpsertTypes(ps, rest, evidence, run);
      if t in evidence {
        TypeRefreshes(compiles, qs, t, evidence[t], run);
        RefreshesTransitive(compiles, ps, qs, UpsertType(qs, t, evidence[t], run));
      }
    }
  }

  /**
   * What a whole run does to the proposals: rows stay where they are, settled ones stay as
   * they are, whatever waits for approval can be approved, no deny term comes back.
   */
  lemma UpsertAllRefreshes(compiles: string -> bool, ps: seq<Proposal>, library: seq<Candidate>,
                           hits: map<string, nat>, types: seq<string>, evidence: map<string, Evidence>, run: string)
    requires Sound(compiles, ps) && LibraryCompiles(compiles, library)
    requires forall t :: t in evidence ==> ValidEvidence(evidence[t])
    ensures Refreshes(compiles, ps, UpsertAll(ps, library, hits, types, evidence, run))
  {
    CandidatesRefresh(compiles, ps, library, hits, run);
    var qs := UpsertCandidates(ps, library, hits, run);
    TypesRefresh(compiles, qs, types, evidence, run);
    RefreshesTransitive(compiles, ps, qs, UpsertTypes(qs, types, evidence, run));
  }
}
