/**
 * Proposals of the flywheel (internal/harness/flywheel.go): what a row holds, which artifacts
 * may become pack rules, which gate a score asks for, and how a free id is found.
 */
module Proposals {
  import opened Common
  import opened Packs

  const MAX_DENY_TERMS := 50
  const MAX_DENY_TERM_LEN := 80
  const MAX_ALLOW_TERMS := 50
  const MAX_ALLOW_TERM_LEN := 48
  const MIN_GATE := 0.05
  const MAX_GATE := 0.95

  /** What may not stand in a deny term, since the sidecar reads such terms as patterns. */
  const METACHARACTERS := "\\.+*?()|[]{}^$"

  datatype Status = Proposed | Approved | Rejected | Manual | Superseded

  datatype Proposal = Proposal(id: string, typ: string, kind: string, regex: string, denyList: seq<string>,
                               allowList: seq<string>, threshold: real, confidence: real,
                               misses: int, status: Status, sourceRun: string)
  {
    predicate IsSettled() { status.Approved? || status.Rejected? || status.Superseded? }
  }

  predicate Trimmed(term: string) { term != "" && TrimSpace(term) == term }

  predicate DenyTermOk(term: string) {
    Trimmed(term) && |term| <= MAX_DENY_TERM_LEN && forall c :: c in term ==> c !in METACHARACTERS
  }

  predicate AllowTermOk(term: string) {
    Trimmed(term) && |term| <= MAX_ALLOW_TERM_LEN && forall c :: c in term ==> c !in "\n\r\t"
  }

  /** What a rule may do to every gateway that loads it, kind by kind. */
  predicate SafeRule(compiles: string -> bool, r: Rule) {
    if r.kind == KIND_REGEX then compiles(r.regex) && r.denyList == [] && r.allowList == [] && r.threshold == 0.0
    else if r.kind == KIND_DENY_LIST then
      && 1 <= |r.denyList| <= MAX_DENY_TERMS
      && (forall d :: d in r.denyList ==> DenyTermOk(d))
      && r.regex == "" && r.allowList == [] && r.threshold == 0.0
    else if r.kind == KIND_THRESHOLD then
      MIN_GATE <= r.threshold <= MAX_GATE && r.regex == "" && r.denyList == [] && r.allowList == []
    else
      && r.kind == KIND_ALLOW_LIST
      && 1 <= |r.allowList| <= MAX_ALLOW_TERMS
      && (forall a :: a in r.allowList ==> AllowTermOk(a))
      && r.regex == "" && r.denyList == [] && r.threshold == 0.0
  }

  /** The trust boundary: only a safe rule comes out, about the proposal's own id and type. */
  function RuleFromProposal(compiles: string -> bool, p: Proposal): (r: Result<Rule>)
    ensures r.Ok? ==> SafeRule(compiles, r.value) && r.value.id == p.id && r.value.typ == p.typ
  {
    var rule := Rule(p.id, p.typ, "", "", [], [], 0.0, p.confidence);
    if p.kind == "" || p.kind == KIND_REGEX then
      if !compiles(p.regex) then Err("regex")
      else Ok(rule.(kind := KIND_REGEX, regex := p.regex))
    else if p.kind == KIND_DENY_LIST then
      if |p.denyList| == 0 || |p.denyList| > MAX_DENY_TERMS then Err("deny list size")
      else if exists d :: d in p.denyList && !DenyTermOk(d) then Err("deny term")
      else Ok(rule.(kind := KIND_DENY_LIST, denyList := p.denyList))
    else if p.kind == KIND_THRESHOLD then
      if p.threshold < MIN_GATE || p.threshold > MAX_GATE then Err("threshold")
      else Ok(rule.(kind := KIND_THRESHOLD, threshold := p.threshold))
    else if p.kind == KIND_ALLOW_LIST then
      if |p.allowList| == 0 || |p.allowList| > MAX_ALLOW_TERMS then Err("allow list size")
      else if exists a :: a in p.allowList && !AllowTermOk(a) then Err("allow term")
      else Ok(rule.(kind := KIND_ALLOW_LIST, allowList := p.allowList))
    else Err("unknown kind")
  }

  predicate Approvable(compiles: string -> bool, p: Proposal) { RuleFromProposal(compiles, p).Ok? }

  /** Every safe rule gets through, unchanged: the boundary admits the safe rules and no others. */
  lemma SafeRulesPass(compiles: string -> bool, r: Rule, misses: int, run: string)
    requires SafeRule(compiles, r)
    ensures RuleFromProposal(compiles, Proposal(r.id, r.typ, r.kind, r.regex, r.denyList, r.allowList, r.threshold,
                                                r.confidence, misses, Proposed, run)) == Ok(r)
  {
  }

  // ---- the gate a score asks for ----

  /** The score rounded down to the grid of twentieths, one step lower, but at least one step. */
  function ProposeGate(minScore: real): real {
    var g := (minScore * 20.0).Floor as real / 20.0 - 0.05;
    if g < MIN_GATE then MIN_GATE else g
  }

  function GridStep(gate: real): int { (gate * 20.0).Floor }

  predicate OnGrid(gate: real) { gate == GridStep(gate) as real / 20.0 }

  /** A proposed gate lets the score through exactly if the score is at least one step. */
  lemma ProposedGateAccepts(minScore: real)
    ensures ProposeGate(minScore) <= minScore <==> minScore >= MIN_GATE
    ensures minScore >= 0.1 ==> 0.05 <= minScore - ProposeGate(minScore) < 0.1
    ensures minScore < 0.1 ==> ProposeGate(minScore) == MIN_GATE
  {
  }

  lemma ProposedGateOnGrid(minScore: real)
    ensures OnGrid(ProposeGate(minScore)) && GridStep(ProposeGate(minScore)) >= 1
    ensures minScore <= 1.0 ==> MIN_GATE <= ProposeGate(minScore) <= MAX_GATE
    ensures minScore < DEFAULT_GATE ==> GridStep(ProposeGate(minScore)) <= 6
  {
    var k := (minScore * 20.0).Floor;
    var g := ProposeGate(minScore);
    if k >= 2 {
      assert g * 20.0 == (k - 1) as real;
    } else {
      assert g * 20.0 == 1.0;
    }
  }

  // ---- free ids ----

  function Ids(ps: seq<Proposal>): set<string> { set p | p in ps :: p.id }

  function Numbered(base: string, n: nat): string { base + "-" + Decimal(n) }

  lemma NumberedInjective(base: string, m: nat, n: nat)
    requires Numbered(base, m) == Numbered(base, n)
    ensures m == n
  {
    var k := |base + "-"|;
    assert Numbered(base, m)[k..] == Decimal(m) && Numbered(base, n)[k..] == Decimal(n);
    DecimalInjective(m, n);
  }

  /** The first id numbered n or higher that is not taken; each one passed over is taken. */
  function FreeFrom(taken: set<string>, base: string, n: nat): string
    decreases |taken|
  {
    var id := Numbered(base, n);
    if id !in taken then id else FreeFrom(taken - {id}, base, n + 1)
  }

  function FreeId(taken: set<string>, base: string): string {
    if base !in taken then base else FreeFrom(taken, base, 2)
  }

  lemma {:induction false} FreeFromIsFirst(taken: set<string>, base: string, n: nat) returns (m: nat)
    ensures n <= m && FreeFrom(taken, base, n) == Numbered(base, m) && Numbered(base, m) !in taken
    ensures forall k :: n <= k < m ==> Numbered(base, k) in taken
    decreases |taken|
  {
    var id := Numbered(base, n);
    if id !in taken {
      m := n;
    } else {
      m := FreeFromIsFirst(taken - {id}, base, n + 1);
      if Numbered(base, m) == id {
        NumberedInjective(base, m, n);
      }
    }
  }

  lemma FreeIdIsFree(taken: set<string>, base: string)
    ensures FreeId(taken, base) !in taken
  {
    if base in taken {
      var m := FreeFromIsFirst(taken, base, 2);
    }
  }

  /** The search has no bound of its own; it ends because distinct numbers give distinct ids. */
  method FreeProposalID(proposals: seq<Proposal>, base: string) returns (id: string)
    ensures id == FreeId(Ids(proposals), base)
    ensures id !in Ids(proposals)
  {
    FreeIdIsFree(Ids(proposals), base);
    var taken: set<string> := {};
    for i := 0 to |proposals|
      invariant taken == Ids(proposals[..i])
    {
      assert proposals[..i + 1] == proposals[..i] + [proposals[i]];
      taken := taken + {proposals[i].id};
    }
    assert proposals[..|proposals|] == proposals;
    if base !in taken {
      return base;
    }
    var n := 2;
    ghost var rest := taken;
    while Numbered(base, n) in taken
      invariant n >= 2 && rest <= taken
      invariant forall k: nat :: k >= n && Numbered(base, k) in taken ==> Numbered(base, k) in rest
      invariant FreeFrom(rest, base, n) == FreeFrom(taken, base, 2)
      decreases |rest|
    {
      ghost var passed := Numbered(base, n);
      forall k: nat | k >= n + 1 && Numbered(base, k) in taken ensures Numbered(base, k) in rest - {passed} {
        if Numbered(base, k) == passed {
          NumberedInjective(base, k, n);
        }
      }
      rest := rest - {passed};
      n := n + 1;
    }
    id := Numbered(base, n);
  }
}
