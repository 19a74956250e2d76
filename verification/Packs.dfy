/** Pattern rules and packs (internal/model/gateway.go), shared by both sides of the spine. */
module Packs {
  const KIND_REGEX := "regex"
  const KIND_DENY_LIST := "deny_list"
  const KIND_THRESHOLD := "threshold"
  const KIND_ALLOW_LIST := "allow_list"

  /** The score below which Presidio results are dropped unless a rule says otherwise. */
  const DEFAULT_GATE := 0.4

  datatype Rule = Rule(id: string, typ: string, kind: string, regex: string, denyList: seq<string>,
                       allowList: seq<string>, threshold: real, confidence: real)
  {
    /** Rules written before kinds existed carry an empty one and are patterns. */
    predicate IsRegex() { kind == "" || kind == KIND_REGEX }

    predicate IsGate() { kind == KIND_THRESHOLD && threshold > 0.0 }
  }

  datatype Pack = Pack(version: int, rules: seq<Rule>)

  const EMPTY_PACK := Pack(0, [])

  /** Some gate rule for t sets threshold g. */
  ghost predicate SetsGate(rules: seq<Rule>, t: string, g: real) {
    exists r :: r in rules && r.IsGate() && r.typ == t && r.threshold == g
  }

  /** The gates in force: for each type with a gate rule, the lowest one asked for. */
  ghost predicate GatesOf(rules: seq<Rule>, gates: map<string, real>) {
    && (forall t :: t in gates ==> SetsGate(rules, t, gates[t]))
    && (forall r :: r in rules && r.IsGate() ==> r.typ in gates && gates[r.typ] <= r.threshold)
  }

  /** The gate a result of type t is held to. */
  function GateFor(gates: map<string, real>, t: string): real {
    if t in gates then gates[t] else DEFAULT_GATE
  }

  /** Reading off the gates, one rule after another. */
  method CollectGates(rules: seq<Rule>) returns (gates: map<string, real>)
    ensures GatesOf(rules, gates)
  {
    gates := map[];
    for i := 0 to |rules|
      invariant GatesOf(rules[..i], gates)
    {
      var r := rules[i];
      assert rules[..i + 1] == rules[..i] + [r];
      GatesStep(rules[..i], r, gates);
      if r.kind == KIND_THRESHOLD && r.threshold > 0.0 {
        if r.typ !in gates || r.threshold < gates[r.typ] {
          gates := gates[r.typ := r.threshold];
        }
      }
    }
    assert rules[..|rules|] == rules;
  }

  lemma GatesStep(rules: seq<Rule>, r: Rule, gates: map<string, real>)
    requires GatesOf(rules, gates)
    ensures var lower := r.IsGate() && (r.typ !in gates || r.threshold < gates[r.typ]);
      GatesOf(rules + [r], if lower then gates[r.typ := r.threshold] else gates)
  {
    var lower := r.IsGate() && (r.typ !in gates || r.threshold < gates[r.typ]);
    var next := if lower then gates[r.typ := r.threshold] else gates;
    assert r in rules + [r];
    forall t | t in next ensures SetsGate(rules + [r], t, next[t]) {
      if t in gates && next[t] == gates[t] {
        var q :| q in rules && q.IsGate() && q.typ == t && q.threshold == gates[t];
        assert q in rules + [r];
      }
    }
  }

  /** The gates of a rule list are determined by it. */
  lemma GatesUnique(rules: seq<Rule>, g: map<string, real>, g': map<string, real>)
    requires GatesOf(rules, g) && GatesOf(rules, g')
    ensures g == g'
  {
    forall t ensures (t in g <==> t in g') && (t in g ==> g[t] == g'[t]) {
      if t in g {
        var r :| r in rules && r.IsGate() && r.typ == t && r.threshold == g[t];
      }
      if t in g' {
        var r :| r in rules && r.IsGate() && r.typ == t && r.threshold == g'[t];
      }
    }
  }
}
