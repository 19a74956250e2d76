/**
 * Turning the misses of a run into evidence (internal/harness/flywheel.go): first against the
 * curated patterns, then, for what they leave uncovered, by probing for raw scores.
 */
module Gathering {
  import opened Common
  import opened Counting
  import opened Generator
  import opened Packs
  import opened Proposals
  import opened Upserts

  const MAX_PROBES_PER_RUN := 25

  /** Types only a name recognizer can find, for which no pattern can be vetted. */
  const FREE_TEXT_TYPES := {"PERSON_NAME", "ADDRESS"}

  datatype ProbeSpan = ProbeSpan(start: int, end: int, typ: string, score: real)

  /** One missed type in one request that no curated pattern covers. */
  datatype Miss = Miss(typ: string, content: string, truth: seq<TruthSpan>)

  /** The n-th probe of a run: what the sidecar answers, or that it failed. There may be no probe. */
  type Probe = Option<(nat, string) -> Result<seq<ProbeSpan>>>

  // ---- best overlap ----

  predicate Meets(sp: ProbeSpan, truth: TruthSpan, typ: string) {
    sp.typ == typ && sp.start < truth.end && truth.start < sp.end
  }

  ghost predicate Best(raw: seq<ProbeSpan>, truth: TruthSpan, typ: string, best: real, found: bool) {
    && (found <==> exists sp :: sp in raw && Meets(sp, truth, typ))
    && 0.0 <= best
    && (forall sp :: sp in raw && Meets(sp, truth, typ) ==> sp.score <= best)
    && (best == 0.0 || exists sp :: sp in raw && Meets(sp, truth, typ) && sp.score == best)
  }

  function BestScore(raw: seq<ProbeSpan>, truth: TruthSpan, typ: string): real {
    if raw == [] then 0.0
    else
      var best, sp := BestScore(raw[..|raw| - 1], truth, typ), raw[|raw| - 1];
      if Meets(sp, truth, typ) && sp.score > best then sp.score else best
  }

  predicate Sees(raw: seq<ProbeSpan>, truth: TruthSpan, typ: string) { exists sp :: sp in raw && Meets(sp, truth, typ) }

  /** The highest score of the probed spans that meet the missed one, and whether any does. */
  lemma {:induction false} BestScoreIsBest(raw: seq<ProbeSpan>, truth: TruthSpan, typ: string)
    ensures Best(raw, truth, typ, BestScore(raw, truth, typ), Sees(raw, truth, typ))
  {
    if raw == [] {
    } else {
      var sp, rest := raw[|raw| - 1], raw[..|raw| - 1];
      BestScoreIsBest(rest, truth, typ);
      assert raw == rest + [sp];
    }
  }

  method BestOverlap(raw: seq<ProbeSpan>, truth: TruthSpan, typ: string) returns (best: real, found: bool)
    ensures best == BestScore(raw, truth, typ) && found == Sees(raw, truth, typ)
    ensures Best(raw, truth, typ, best, found)
  {
    best, found := 0.0, false;
    for i := 0 to |raw|
      invariant best == BestScore(raw[..i], truth, typ) && found == Sees(raw[..i], truth, typ)
    {
      var sp := raw[i];
      assert raw[..i + 1] == raw[..i] + [sp] && raw[..i + 1][..i] == raw[..i];
      if sp.typ == typ && sp.start < truth.end && truth.start < sp.end {
        assert Meets(sp, truth, typ) && sp in raw[..i + 1];
        found := true;
        if sp.score > best {
          best := sp.score;
        }
      }
    }
    assert raw[..|raw|] == raw;
    BestScoreIsBest(raw, truth, typ);
  }

  // ---- counting ----

  function SpansOf(truth: seq<TruthSpan>, typ: string): nat {
    if truth == [] then 0
    else SpansOf(truth[..|truth| - 1], typ) + if truth[|truth| - 1].typ == typ then 1 else 0
  }

  /** A miss without a truth span of its type still counts once. */
  method MissSpanCount(u: Miss) returns (n: nat)
    ensures n == Max(1, SpansOf(u.truth, u.typ))
  {
    n := 0;
    for i := 0 to |u.truth|
      invariant n == SpansOf(u.truth[..i], u.typ)
    {
      assert u.truth[..i + 1][..i] == u.truth[..i];
      if u.truth[i].typ == u.typ {
        n := n + 1;
      }
    }
    assert u.truth[..|u.truth|] == u.truth;
    if n == 0 {
      n := 1;
    }
  }

  /** How many misses of type t the first n of the run's misses come to. */
  function Demand(us: seq<Miss>, n: nat, t: string, consulted: bool): nat
    requires n <= |us|
  {
    if n == 0 then 0
    else
      var u := us[n - 1];
      Demand(us, n - 1, t, consulted)
      + if u.typ != t then 0
        else if consulted then SpansOf(u.truth, t) else Max(1, SpansOf(u.truth, t))
  }

  function Total(e: Evidence): nat { e.thresholdMisses + e.denyMisses + e.manualMisses }

  // ---- what evidence rests on ----

  function Answered(probe: Probe, k: nat, content: string): Result<seq<ProbeSpan>> {
    if probe.None? then Err("no probe") else probe.value(k, content)
  }

  /** Some probe, among the first of the run, saw a missed span of the type at this very score. */
  ghost predicate ProbedAt(probe: Probe, us: seq<Miss>, t: string, score: real) {
    exists k: nat, u, sp {:trigger Witness(probe, us, t, score, k, u, sp)} :: Witness(probe, us, t, score, k, u, sp)
  }

  ghost predicate Witness(probe: Probe, us: seq<Miss>, t: string, score: real, k: nat, u: Miss, sp: TruthSpan) {
    && k < MAX_PROBES_PER_RUN && u in us && u.typ == t && sp in u.truth && sp.typ == t
    && Answered(probe, k, u.content).Ok? && Best(Answered(probe, k, u.content).value, sp, t, score, true)
  }

  /** The term is the value of a missed span of the type. */
  ghost predicate MissedValue(us: seq<Miss>, t: string, d: string) {
    exists u, sp :: u in us && u.typ == t && sp in u.truth && sp.typ == t && sp.value == d
  }

  /** Evidence nobody made up: a lower gate is proven by a probe, a deny term is a missed value. */
  ghost predicate Supported(probe: Probe, us: seq<Miss>, t: string, e: Evidence) {
    && ValidEvidence(e)
    && (e.thresholdMisses > 0 ==> ProbedAt(probe, us, t, e.minScore))
    && (forall d :: d in e.denyTerms ==> MissedValue(us, t, d))
    && (e.denyTerms != [] ==> t in FREE_TEXT_TYPES)
  }

  function WithUnique(list: seq<string>, v: string): seq<string> { if v in list then list else list + [v] }

  method AppendUnique(list: seq<string>, v: string) returns (r: seq<string>)
    ensures r == WithUnique(list, v)
  {
    for i := 0 to |list|
      invariant v !in list[..i]
    {
      if list[i] == v {
        return list;
      }
      assert list[..i + 1] == list[..i] + [list[i]];
    }
    assert list[..|list|] == list;
    r := list + [v];
  }

  // ---- one more miss of each kind ----

  function WithThreshold(e: Evidence, score: real): Evidence {
    e.(thresholdMisses := e.thresholdMisses + 1, minScore := if score < e.minScore then score else e.minScore)
  }

  function WithDeny(e: Evidence, d: string): Evidence {
    e.(denyMisses := e.denyMisses + 1, denyTerms := WithUnique(e.denyTerms, d))
  }

  function WithManual(e: Evidence): Evidence { e.(manualMisses := e.manualMisses + 1) }

  lemma ThresholdSupported(probe: Probe, us: seq<Miss>, t: string, e: Evidence, score: real)
    requires Supported(probe, us, t, e) && ProbedAt(probe, us, t, score) && 0.0 <= score < e.gate
    ensures Supported(probe, us, t, WithThreshold(e, score))
  {
  }

  lemma DenySupported(probe: Probe, us: seq<Miss>, t: string, e: Evidence, d: string)
    requires Supported(probe, us, t, e) && DenyTermOk(d) && MissedValue(us, t, d) && t in FREE_TEXT_TYPES
    ensures Supported(probe, us, t, WithDeny(e, d))
  {
    assert ValidEvidence(WithDeny(e, d)) by {
      var terms := WithUnique(e.denyTerms, d);
      assert |terms| <= e.denyMisses + 1;
      assert forall i, j :: 0 <= i < j < |terms| ==> terms[i] != terms[j];
    }
  }

  /**
   * Which artifact would cover one missed span: a lower gate if the sidecar saw it below the
   * gate, none if it saw it above, a deny term if it did not and the value may be one.
   */
  function Classify(raw: Option<seq<ProbeSpan>>, sp: TruthSpan, typ: string, e: Evidence): Evidence {
    if raw.Some? && Sees(raw.value, sp, typ) then
      if BestScore(raw.value, sp, typ) < e.gate then WithThreshold(e, BestScore(raw.value, sp, typ)) else WithManual(e)
    else if typ in FREE_TEXT_TYPES && DenyTermOk(sp.value) then WithDeny(e, sp.value)
    else WithManual(e)
  }

  function Weighed(raw: Option<seq<ProbeSpan>>, u: Miss, e: Evidence, n: nat): Evidence
    requires n <= |u.truth|
  {
    if n == 0 then e
    else
      var before, sp := Weighed(raw, u, e, n - 1), u.truth[n - 1];
      if sp.typ == u.typ then Classify(raw, sp, u.typ, before) else before
  }

  /** Weighs one span: it counts towards exactly one kind of artifact. */
  method WeighSpan(probe: Probe, us: seq<Miss>, u: Miss, sp: TruthSpan, raw: Option<seq<ProbeSpan>>, ghost k: nat,
                   e: Evidence)
    returns (next: Evidence)
    requires u in us && sp in u.truth && sp.typ == u.typ && Supported(probe, us, u.typ, e)
    requires raw.Some? ==> k < MAX_PROBES_PER_RUN && Answered(probe, k, u.content) == Ok(raw.value)
    ensures next == Classify(raw, sp, u.typ, e)
    ensures Supported(probe, us, u.typ, next) && next.gate == e.gate && Total(next) == Total(e) + 1
  {
    var score, saw := BestOverlap(if raw.Some? then raw.value else [], sp, u.typ);
    if raw.Some? && saw && score < e.gate {
      assert Witness(probe, us, u.typ, score, k, u, sp);
      ThresholdSupported(probe, us, u.typ, e, score);
      next := WithThreshold(e, score);
    } else if raw.Some? && saw {
      next := WithManual(e);
    } else if u.typ in FREE_TEXT_TYPES && DenyTermOk(sp.value) {
      var terms := AppendUnique(e.denyTerms, sp.value);
      assert MissedValue(us, u.typ, sp.value);
      DenySupported(probe, us, u.typ, e, sp.value);
      next := e.(denyMisses := e.denyMisses + 1, denyTerms := terms);
    } else {
      next := WithManual(e);
    }
  }

  method WeighMiss(probe: Probe, us: seq<Miss>, u: Miss, raw: Option<seq<ProbeSpan>>, ghost k: nat, e: Evidence)
    returns (next: Evidence)
    requires u in us && Supported(probe, us, u.typ, e)
    requires raw.Some? ==> k < MAX_PROBES_PER_RUN && Answered(probe, k, u.content) == Ok(raw.value)
    ensures next == Weighed(raw, u, e, |u.truth|)
    ensures Supported(probe, us, u.typ, next) && next.gate == e.gate
    ensures Total(next) == Total(e) + SpansOf(u.truth, u.typ)
  {
    next := e;
    for i := 0 to |u.truth|
      invariant next == Weighed(raw, u, e, i)
      invariant Supported(probe, us, u.typ, next) && next.gate == e.gate
      invariant Total(next) == Total(e) + SpansOf(u.truth[..i], u.typ)
    {
      var sp := u.truth[i];
      assert u.truth[..i + 1][..i] == u.truth[..i];
      if sp.typ != u.typ {
        continue;
      }
      next := WeighSpan(probe, us, u, sp, raw, k, next);
    }
    assert u.truth[..|u.truth|] == u.truth;
  }

  // ---- the whole run ----

  /** What a run remembers about probing: whether it still may, the answers so far, how many asked. */
  datatype Probing = Probing(usable: bool, cache: map<string, seq<ProbeSpan>>, probed: nat)

  /** The answers kept so far are answers the sidecar gave to this run's probes. */
  ghost predicate FromProbes(probe: Probe, s: Probing) {
    && s.probed <= MAX_PROBES_PER_RUN && (s.usable ==> probe.Some?)
    && forall content ::
         content in s.cache ==> exists k: nat :: k < s.probed && Answered(probe, k, content) == Ok(s.cache[content])
  }

  /** The raw answer for a content: from the cache, or from a fresh probe while any are left. */
  function Asked(probe: Probe, s: Probing, content: string): (Option<seq<ProbeSpan>>, Probing) {
    if content in s.cache then (Some(s.cache[content]), s)
    else if s.usable && s.probed < MAX_PROBES_PER_RUN then
      var answer := Answered(probe, s.probed, content);
      if answer.Err? then (None, Probing(false, s.cache, s.probed + 1))
      else (Some(answer.value), Probing(true, s.cache[content := answer.value], s.probed + 1))
    else (None, s)
  }

  method AskProbe(probe: Probe, s: Probing, content: string)
    returns (raw: Option<seq<ProbeSpan>>, next: Probing, ghost k: nat)
    requires FromProbes(probe, s)
    ensures (raw, next) == Asked(probe, s, content)
    ensures FromProbes(probe, next)
    ensures raw.Some? ==> k < MAX_PROBES_PER_RUN && Answered(probe, k, content) == Ok(raw.value)
  {
    raw, next, k := None, s, 0;
    if content in s.cache {
      raw := Some(s.cache[content]);
      k :| k < s.probed && Answered(probe, k, content) == Ok(s.cache[content]);
    } else if s.usable && s.probed < MAX_PROBES_PER_RUN {
      var answer := probe.value(s.probed, content);
      if answer.Err? {
        next := Probing(false, s.cache, s.probed + 1);
      } else {
        assert Answered(probe, s.probed, content) == Ok(answer.value);
        next := Probing(true, s.cache[content := answer.value], s.probed + 1);
        raw, k := Some(answer.value), s.probed;
      }
    }
  }

  ghost predicate Missed(us: seq<Miss>, n: nat, t: string) { exists i :: 0 <= i < n <= |us| && us[i].typ == t }

  /** Evidence for one type, after the first n misses: under the gate in force, all accounted for. */
  ghost predicate GatheredType(probe: Probe, us: seq<Miss>, n: nat, gates: map<string, real>, consulted: bool,
                               t: string, e: Evidence)
  {
    && n <= |us|
    && e.gate == GateFor(gates, t)
    && Supported(probe, us, t, e)
    && Total(e) == Demand(us, n, t, consulted)
    && (!consulted ==> e.manualMisses == Total(e))
  }

  /** Evidence for exactly the types missed. */
  ghost predicate Gathered(probe: Probe, us: seq<Miss>, n: nat, gates: map<string, real>, consulted: bool,
                           ev: map<string, Evidence>)
  {
    && n <= |us|
    && (forall t :: t in ev <==> Missed(us, n, t))
    && (forall t :: t in ev ==> GatheredType(probe, us, n, gates, consulted, t, ev[t]))
  }

  ghost predicate GatesBounded(gates: map<string, real>) { forall t :: t in gates ==> gates[t] <= 1.0 }

  /** Nothing gathered yet, under this gate: there is exactly one such evidence. */
  ghost predicate Blank(e: Evidence, gate: real) {
    e.gate == gate && e.minScore == 1.0 && Total(e) == 0 && e.denyTerms == []
  }

  lemma BlankExists(gate: real)
    ensures exists e :: Blank(e, gate)
  {
    assert Blank(Evidence(gate, 0, 1.0, 0, [], 0), gate);
  }

  /** The evidence of a type so far. */
  ghost function Entry(ev: map<string, Evidence>, gates: map<string, real>, t: string): (e: Evidence)
    ensures t !in ev ==> Blank(e, GateFor(gates, t))
  {
    if t in ev then ev[t]
    else
      BlankExists(GateFor(gates, t));
      var e :| Blank(e, GateFor(gates, t));
      e
  }

  method GetEntry(ev: map<string, Evidence>, gates: map<string, real>, t: string) returns (e: Evidence)
    ensures e == Entry(ev, gates, t)
  {
    if t in ev {
      e := ev[t];
    } else {
      e := Evidence(GateFor(gates, t), 0, 1.0, 0, [], 0);
    }
  }

  lemma {:induction false} NothingYet(us: seq<Miss>, n: nat, t: string, consulted: bool)
    requires n <= |us| && forall i :: 0 <= i < n ==> us[i].typ != t
    ensures Demand(us, n, t, consulted) == 0
  {
    if n == 0 {
    } else {
      NothingYet(us, n - 1, t, consulted);
    }
  }

  lemma EntryGathered(probe: Probe, us: seq<Miss>, n: nat, gates: map<string, real>, consulted: bool,
                      ev: map<string, Evidence>, t: string)
    requires Gathered(probe, us, n, gates, consulted, ev) && GatesBounded(gates)
    ensures GatheredType(probe, us, n, gates, consulted, t, Entry(ev, gates, t))
  {
    if t !in ev {
      assert !Missed(us, n, t);
      NothingYet(us, n, t, consulted);
    }
  }

  lemma OtherTypeGathered(probe: Probe, us: seq<Miss>, n: nat, gates: map<string, real>, consulted: bool, t: string,
                          e: Evidence)
    requires n < |us| && us[n].typ != t && GatheredType(probe, us, n, gates, consulted, t, e)
    ensures GatheredType(probe, us, n + 1, gates, consulted, t, e)
  {
  }

  lemma EntryStored(probe: Probe, us: seq<Miss>, n: nat, gates: map<string, real>, consulted: bool,
                    ev: map<string, Evidence>, e: Evidence)
    requires n < |us| && Gathered(probe, us, n, gates, consulted, ev)
    requires GatheredType(probe, us, n + 1, gates, consulted, us[n].typ, e)
    ensures Gathered(probe, us, n + 1, gates, consulted, ev[us[n].typ := e])
  {
    var t, ev' := us[n].typ, ev[us[n].typ := e];
    forall s | s in ev' ensures GatheredType(probe, us, n + 1, gates, consulted, s, ev'[s]) {
      if s != t {
        OtherTypeGathered(probe, us, n, gates, consulted, s, ev[s]);
      }
    }
    forall s ensures s in ev' <==> Missed(us, n + 1, s) {
      assert Missed(us, n + 1, s) <==> Missed(us, n, s) || s == t;
    }
  }

  lemma ManualSupported(probe: Probe, us: seq<Miss>, t: string, e: Evidence, n: nat)
    requires Supported(probe, us, t, e)
    ensures Supported(probe, us, t, e.(manualMisses := e.manualMisses + n))
  {
  }

  /** One more miss, its spans weighed, completes the count of its type. */
  lemma MissCounted(probe: Probe, us: seq<Miss>, n: nat, gates: map<string, real>, consulted: bool, e: Evidence,
                    e': Evidence)
    requires n < |us| && GatheredType(probe, us, n, gates, consulted, us[n].typ, e)
    requires e'.gate == e.gate && Supported(probe, us, us[n].typ, e')
    requires consulted ==> Total(e') == Total(e) + SpansOf(us[n].truth, us[n].typ)
    requires !consulted
             ==> e'.manualMisses == e.manualMisses + Max(1, SpansOf(us[n].truth, us[n].typ))
                 && e'.manualMisses == Total(e')
    ensures GatheredType(probe, us, n + 1, gates, consulted, us[n].typ, e')
  {
  }

  /** Evidence when the chain did not consult the sidecar: nothing can be proven, all is manual. */
  ghost function ManualRun(gates: map<string, real>, us: seq<Miss>, n: nat): map<string, Evidence>
    requires n <= |us|
  {
    if n == 0 then map[]
    else
      var ev := ManualRun(gates, us, n - 1);
      ev[us[n - 1].typ := ManualEntry(ev, gates, us[n - 1])]
  }

  ghost function ManualEntry(ev: map<string, Evidence>, gates: map<string, real>, u: Miss): Evidence {
    var e := Entry(ev, gates, u.typ);
    e.(manualMisses := e.manualMisses + Max(1, SpansOf(u.truth, u.typ)))
  }

  /** What the run remembers about probing after its first n misses. */
  function Probed(probe: Probe, us: seq<Miss>, n: nat): Probing
    requires n <= |us|
  {
    if n == 0 then Probing(probe.Some?, map[], 0)
    else Asked(probe, Probed(probe, us, n - 1), us[n - 1].content).1
  }

  /** What the run knows about the content of its i-th miss. */
  function RawFor(probe: Probe, us: seq<Miss>, i: nat): Option<seq<ProbeSpan>>
    requires i < |us|
  {
    Asked(probe, Probed(probe, us, i), us[i].content).0
  }

  // ---- what the run hears, without its bookkeeping ----

  /** The distinct contents of the first n misses, in the order in which they first come up. */
  function Contents(us: seq<Miss>, n: nat): seq<string>
    requires n <= |us|
  {
    if n == 0 then []
    else
      var cs, c := Contents(us, n - 1), us[n - 1].content;
      if c in cs then cs else cs + [c]
  }

  /** The k-th content is among the first 25, and the sidecar answers for it and for all before it. */
  ghost predicate AnsweredUpTo(probe: Probe, cs: seq<string>, k: nat) {
    && k < |cs| && k < MAX_PROBES_PER_RUN && probe.Some?
    && forall j: nat {:trigger cs[j]} :: j <= k ==> probe.value(j, cs[j]).Ok?
  }

  /** What the sidecar says about a content: its answer to the probe that the content gets, if it gets one. */
  ghost function Heard(probe: Probe, cs: seq<string>, c: string): Option<seq<ProbeSpan>> {
    if k: nat :| AnsweredUpTo(probe, cs, k) && cs[k] == c then Some(probe.value(k, c).value) else None
  }

  ghost predicate Distinct(cs: seq<string>) { forall i, j :: 0 <= i < j < |cs| ==> cs[i] != cs[j] }

  ghost predicate ListsContents(cs: seq<string>, us: seq<Miss>) {
    Distinct(cs) && forall c :: c in cs <==> exists u :: u in us && u.content == c
  }

  lemma ContentsNext(cs: seq<string>, us: seq<Miss>, u: Miss, next: seq<string>)
    requires ListsContents(cs, us) && next == if u.content in cs then cs else cs + [u.content]
    ensures ListsContents(next, us + [u])
  {
    assert u in us + [u];
    forall c ensures c in next <==> exists x :: x in us + [u] && x.content == c {
      assert c in next <==> c in cs || c == u.content;
    }
  }

  ghost function ContentStages(us: seq<Miss>): nat -> seq<string> {
    (n: nat) => if n <= |us| then Contents(us, n) else []
  }

  lemma ContentsAre(us: seq<Miss>, n: nat)
    requires n <= |us|
    ensures ListsContents(Contents(us, n), us[..n])
  {
    var stages, inv := ContentStages(us), (xs: seq<Miss>, cs: seq<string>) => ListsContents(cs, xs);
    forall k: nat | k < |us| && inv(us[..k], stages(k)) ensures inv(us[..k] + [us[k]], stages(k + 1)) {
      ContentsNext(stages(k), us[..k], us[k], stages(k + 1));
    }
    AlongList(us, n, stages, inv);
  }

  lemma {:induction false} ContentsGrow(us: seq<Miss>, n: nat, m: nat)
    requires n <= m <= |us|
    ensures Contents(us, n) <= Contents(us, m)
  {
    if n == m {
    } else {
      ContentsGrow(us, n, m - 1);
    }
  }

  /** A content has one place among distinct ones, so the answer is determined by it. */
  lemma HeardAt(probe: Probe, cs: seq<string>, k: nat)
    requires Distinct(cs) && k < |cs|
    ensures Heard(probe, cs, cs[k]) == if AnsweredUpTo(probe, cs, k) then Some(probe.value(k, cs[k]).value) else None
  {
  }

  lemma NotHeard(probe: Probe, cs: seq<string>, c: string)
    requires c !in cs
    ensures Heard(probe, cs, c) == None
  {
  }

  lemma HeardKept(probe: Probe, cs: seq<string>, more: seq<string>, c: string)
    requires Distinct(more) && cs <= more && c in cs
    ensures Heard(probe, more, c) == Heard(probe, cs, c)
  {
    var k :| 0 <= k < |cs| && cs[k] == c;
    forall i, j | 0 <= i < j < |cs| ensures cs[i] != cs[j] { assert more[i] == cs[i] && more[j] == cs[j]; }
    HeardAt(probe, cs, k);
    HeardAt(probe, more, k);
    assert forall j: nat :: j <= k ==> more[j] == cs[j];
    assert AnsweredUpTo(probe, more, k) <==> AnsweredUpTo(probe, cs, k);
  }

  /** No answer up to the n-th has failed. */
  ghost predicate NoneFailed(probe: Probe, cs: seq<string>, n: nat)
    requires n <= |cs|
  {
    probe.Some? && forall j: nat {:trigger cs[j]} :: j < n ==> probe.value(j, cs[j]).Ok?
  }

  /** The bookkeeping says no more than what was heard about these contents. */
  ghost predicate Remembers(probe: Probe, cs: seq<string>, s: Probing) {
    && (forall c :: CacheTells(probe, cs, s, c))
    && (s.usable <==> NoneFailed(probe, cs, Min(|cs|, MAX_PROBES_PER_RUN)))
    && (s.usable ==> s.probed == Min(|cs|, MAX_PROBES_PER_RUN))
  }

  lemma AskedKnown(probe: Probe, cs: seq<string>, s: Probing, c: string)
    requires Distinct(cs) && Remembers(probe, cs, s) && c in cs
    ensures Asked(probe, s, c) == (Heard(probe, cs, c), s)
  {
    var k :| 0 <= k < |cs| && cs[k] == c;
    HeardAt(probe, cs, k);
    assert CacheTells(probe, cs, s, c);
  }

  lemma AskedNew(probe: Probe, cs: seq<string>, s: Probing, c: string)
    requires Distinct(cs) && Remembers(probe, cs, s) && c !in cs
    ensures Asked(probe, s, c).0 == Heard(probe, cs + [c], c) && Remembers(probe, cs + [c], Asked(probe, s, c).1)
  {
    var next, s' := cs + [c], Asked(probe, s, c).1;
    NotHeard(probe, cs, c);
    HeardAt(probe, next, |cs|);
    NewAnswered(probe, cs, c);
    assert CacheTells(probe, cs, s, c);
    forall d ensures CacheTells(probe, next, s', d) {
      OldTold(probe, cs, s, c, next, s', d);
    }
  }

  /** What the cache holds of a content is what was heard about it. */
  ghost predicate CacheTells(probe: Probe, cs: seq<string>, s: Probing, d: string) {
    (d in s.cache <==> Heard(probe, cs, d).Some?) && (d in s.cache ==> Heard(probe, cs, d) == Some(s.cache[d]))
  }

  lemma OldTold(probe: Probe, cs: seq<string>, s: Probing, c: string, next: seq<string>, s': Probing, d: string)
    requires Distinct(cs) && Remembers(probe, cs, s) && c !in cs && next == cs + [c] && s' == Asked(probe, s, c).1
    ensures CacheTells(probe, next, s', d)
  {
    assert CacheTells(probe, cs, s, d);
    if d in cs {
      HeardKept(probe, cs, next, d);
    } else if d != c {
      NotHeard(probe, next, d);
      NotHeard(probe, cs, d);
    } else {
      NotHeard(probe, cs, d);
      HeardAt(probe, next, |cs|);
      NewAnswered(probe, cs, c);
    }
  }

  lemma NewAnswered(probe: Probe, cs: seq<string>, c: string)
    ensures var next, k := cs + [c], |cs|;
      && (AnsweredUpTo(probe, next, k) <==>
            k < MAX_PROBES_PER_RUN && NoneFailed(probe, cs, k) && probe.value(k, c).Ok?)
      && (k < MAX_PROBES_PER_RUN
          ==> (NoneFailed(probe, next, k + 1) <==> NoneFailed(probe, cs, k) && probe.value(k, c).Ok?))
      && (k >= MAX_PROBES_PER_RUN ==>
            (NoneFailed(probe, next, MAX_PROBES_PER_RUN) <==> NoneFailed(probe, cs, MAX_PROBES_PER_RUN)))
  {
    var next, k := cs + [c], |cs|;
    assert next[k] == c && forall j: nat :: j < k ==> next[j] == cs[j];
  }

  lemma AskedRemembers(probe: Probe, cs: seq<string>, s: Probing, c: string, next: seq<string>, s': Probing)
    requires Distinct(cs) && Remembers(probe, cs, s)
    requires next == (if c in cs then cs else cs + [c]) && s' == Asked(probe, s, c).1
    ensures Remembers(probe, next, s')
  {
    if c in cs {
      AskedKnown(probe, cs, s, c);
    } else {
      AskedNew(probe, cs, s, c);
    }
  }

  lemma {:induction false} ProbedRemembers(probe: Probe, us: seq<Miss>, n: nat)
    requires n <= |us|
    ensures Remembers(probe, Contents(us, n), Probed(probe, us, n))
  {
    if n == 0 {
      NothingHeard(probe, Contents(us, n));
    } else {
      ProbedRemembers(probe, us, n - 1);
      ContentsAre(us, n - 1);
      AskedRemembers(probe, Contents(us, n - 1), Probed(probe, us, n - 1), us[n - 1].content, Contents(us, n),
                     Probed(probe, us, n));
    }
  }

  lemma NothingHeard(probe: Probe, cs: seq<string>)
    requires cs == []
    ensures forall c :: Heard(probe, cs, c) == None
    ensures NoneFailed(probe, cs, 0) <==> probe.Some?
  {
  }

  /** What the run hears about the content of its i-th miss. */
  ghost function HeardFor(probe: Probe, us: seq<Miss>, i: nat): Option<seq<ProbeSpan>>
    requires i < |us|
  {
    Heard(probe, Contents(us, |us|), us[i].content)
  }

  /**
   * Cache, failure flag and count amount to this: the k-th distinct content is known exactly if
   * k is below 25 and the answers to the first k + 1 distinct contents have all come, and what
   * is known is the k-th answer. After the first failure nothing more is known.
   */
  lemma RawIsHeard(probe: Probe, us: seq<Miss>, i: nat)
    requires i < |us|
    ensures RawFor(probe, us, i) == HeardFor(probe, us, i)
  {
    var cs, s, c := Contents(us, i), Probed(probe, us, i), us[i].content;
    ContentsAre(us, i);
    ContentsAre(us, |us|);
    ProbedRemembers(probe, us, i);
    ContentsGrow(us, i + 1, |us|);
    if c in cs {
      AskedKnown(probe, cs, s, c);
    } else {
      AskedNew(probe, cs, s, c);
    }
    ContentsAre(us, i + 1);
    HeardKept(probe, Contents(us, i + 1), Contents(us, |us|), c);
  }

  /** Evidence when it did: each miss weighed against what a probe of its content saw. */
  ghost function ProbeRun(probe: Probe, gates: map<string, real>, us: seq<Miss>, n: nat): map<string, Evidence>
    requires n <= |us|
  {
    if n == 0 then map[]
    else
      var before, u := ProbeRun(probe, gates, us, n - 1), us[n - 1];
      before[u.typ := Weighed(RawFor(probe, us, n - 1), u, Entry(before, gates, u.typ), |u.truth|)]
  }

  // ---- the lowest score ----

  /** The j-th truth span of a miss counts for a lower gate: the sidecar saw it, below the gate. */
  predicate CountsBelow(raw: Option<seq<ProbeSpan>>, u: Miss, j: nat, gate: real)
    requires j < |u.truth|
  {
    && raw.Some? && u.truth[j].typ == u.typ
    && Sees(raw.value, u.truth[j], u.typ)
    && BestScore(raw.value, u.truth[j], u.typ) < gate
  }

  /** The score at which a probe saw a missed span of the type, below the gate in force. */
  ghost predicate Motivates(probe: Probe, us: seq<Miss>, gate: real, t: string, i: nat, j: nat, score: real) {
    && i < |us| && us[i].typ == t && j < |us[i].truth|
    && CountsBelow(HeardFor(probe, us, i), us[i], j, gate)
    && score == BestScore(HeardFor(probe, us, i).value, us[i].truth[j], t)
  }

  /** After n misses: the recorded score is the lowest of those that motivate a lower gate. */
  ghost predicate Lowest(probe: Probe, us: seq<Miss>, n: nat, t: string, e: Evidence) {
    && (forall i: nat, j: nat, score {:trigger Motivates(probe, us, e.gate, t, i, j, score)} ::
          i < n && Motivates(probe, us, e.gate, t, i, j, score) ==> e.thresholdMisses > 0 && e.minScore <= score)
    && (e.thresholdMisses > 0 ==>
          exists i: nat, j: nat {:trigger Motivates(probe, us, e.gate, t, i, j, e.minScore)} ::
            i < n && Motivates(probe, us, e.gate, t, i, j, e.minScore))
  }

  /** The first m spans of a miss taken in: e0 has become e. */
  ghost predicate TakesIn(raw: Option<seq<ProbeSpan>>, u: Miss, m: nat, e0: Evidence, e: Evidence) {
    && m <= |u.truth| && e.gate == e0.gate
    && e.minScore <= e0.minScore && e0.thresholdMisses <= e.thresholdMisses
    && (forall j: nat {:trigger CountsBelow(raw, u, j, e0.gate)} :: j < m && CountsBelow(raw, u, j, e0.gate) ==>
          e0.thresholdMisses < e.thresholdMisses && e.minScore <= BestScore(raw.value, u.truth[j], u.typ))
    && (e.minScore < e0.minScore ==> exists j: nat {:trigger CountsBelow(raw, u, j, e0.gate)} ::
          j < m && CountsBelow(raw, u, j, e0.gate) && e.minScore == BestScore(raw.value, u.truth[j], u.typ))
    && (e0.thresholdMisses < e.thresholdMisses ==> exists j: nat {:trigger CountsBelow(raw, u, j, e0.gate)} ::
          j < m && CountsBelow(raw, u, j, e0.gate))
  }

  lemma {:induction false} WeighedTakesIn(raw: Option<seq<ProbeSpan>>, u: Miss, m: nat, e0: Evidence)
    requires m <= |u.truth|
    ensures TakesIn(raw, u, m, e0, Weighed(raw, u, e0, m))
  {
    if m == 0 {
    } else {
      WeighedTakesIn(raw, u, m - 1, e0);
      SpanTakenIn(raw, u, m - 1, e0, Weighed(raw, u, e0, m - 1), Weighed(raw, u, e0, m));
    }
  }

  lemma SpanTakenIn(raw: Option<seq<ProbeSpan>>, u: Miss, m: nat, e0: Evidence, e: Evidence, e': Evidence)
    requires m < |u.truth| && TakesIn(raw, u, m, e0, e)
    requires e' == if u.truth[m].typ == u.typ then Classify(raw, u.truth[m], u.typ, e) else e
    ensures TakesIn(raw, u, m + 1, e0, e')
  {
    assert CountsBelow(raw, u, m, e0.gate) ==> e'.thresholdMisses == e.thresholdMisses + 1;
  }

  /** The evidence of every type so far is about the scores so far, and of no other type. */
  ghost predicate AllLowest(probe: Probe, gates: map<string, real>, us: seq<Miss>, n: nat, ev: map<string, Evidence>) {
    && n <= |us|
    && (forall t :: t in ev ==> LowestUnder(probe, us, n, t, GateFor(gates, t), ev[t]))
    && (forall i :: 0 <= i < n ==> us[i].typ in ev)
  }

  ghost predicate LowestUnder(probe: Probe, us: seq<Miss>, n: nat, t: string, gate: real, e: Evidence) {
    && e.gate == gate <= 1.0 && (e.thresholdMisses == 0 ==> e.minScore == 1.0)
    && Lowest(probe, us, n, t, e)
  }

  lemma EntryLowest(probe: Probe, gates: map<string, real>, us: seq<Miss>, n: nat, ev: map<string, Evidence>, t: string)
    requires AllLowest(probe, gates, us, n, ev) && GatesBounded(gates)
    ensures LowestUnder(probe, us, n, t, GateFor(gates, t), Entry(ev, gates, t))
  {
  }

  /** A miss of the type, taken in whole, keeps the recorded score lowest. */
  lemma MissLowest(probe: Probe, us: seq<Miss>, n: nat, t: string, gate: real, e: Evidence, e': Evidence)
    requires n < |us| && us[n].typ == t && LowestUnder(probe, us, n, t, gate, e)
    requires TakesIn(HeardFor(probe, us, n), us[n], |us[n].truth|, e, e')
    ensures LowestUnder(probe, us, n + 1, t, gate, e')
  {
    var raw, u := HeardFor(probe, us, n), us[n];
    forall i: nat, j: nat, score | i < n + 1 && Motivates(probe, us, gate, t, i, j, score)
      ensures e'.thresholdMisses > 0 && e'.minScore <= score
    {
      assert i == n ==> CountsBelow(raw, u, j, gate);
    }
    if e'.thresholdMisses > 0 {
      if e'.minScore < e.minScore {
        var j: nat :| j < |u.truth| && CountsBelow(raw, u, j, gate)
          && e'.minScore == BestScore(raw.value, u.truth[j], t);
        assert Motivates(probe, us, gate, t, n, j, e'.minScore);
      } else {
        var i: nat, j: nat :| i < n && Motivates(probe, us, gate, t, i, j, e'.minScore);
      }
    }
  }

  lemma OtherTypeLowest(probe: Probe, us: seq<Miss>, n: nat, t: string, gate: real, e: Evidence)
    requires n < |us| && us[n].typ != t && LowestUnder(probe, us, n, t, gate, e)
    ensures LowestUnder(probe, us, n + 1, t, gate, e)
  {
  }

  lemma LowestStored(probe: Probe, gates: map<string, real>, us: seq<Miss>, n: nat, ev: map<string, Evidence>,
                     t: string, ev': map<string, Evidence>)
    requires n < |us| && AllLowest(probe, gates, us, n, ev)
    requires t == us[n].typ && t in ev' && ev'.Keys == ev.Keys + {t}
    requires forall s :: s in ev && s != t ==> ev'[s] == ev[s]
    requires LowestUnder(probe, us, n + 1, t, GateFor(gates, t), ev'[t])
    ensures AllLowest(probe, gates, us, n + 1, ev')
  {
    forall s | s in ev' ensures LowestUnder(probe, us, n + 1, s, GateFor(gates, s), ev'[s]) {
      if s != t {
        OtherTypeLowest(probe, us, n, s, GateFor(gates, s), ev[s]);
      }
    }
    assert forall i :: 0 <= i < n + 1 ==> us[i].typ in ev';
  }

  lemma ProbeRunNext(probe: Probe, gates: map<string, real>, us: seq<Miss>, n: nat) returns (e: Evidence, e': Evidence)
    requires n < |us| && GatesBounded(gates) && AllLowest(probe, gates, us, n, ProbeRun(probe, gates, us, n))
    ensures LowestUnder(probe, us, n, us[n].typ, GateFor(gates, us[n].typ), e)
    ensures e' == Weighed(HeardFor(probe, us, n), us[n], e, |us[n].truth|)
    ensures ProbeRun(probe, gates, us, n + 1) == ProbeRun(probe, gates, us, n)[us[n].typ := e']
  {
    RawIsHeard(probe, us, n);
    e := Entry(ProbeRun(probe, gates, us, n), gates, us[n].typ);
    e' := Weighed(HeardFor(probe, us, n), us[n], e, |us[n].truth|);
    EntryLowest(probe, gates, us, n, ProbeRun(probe, gates, us, n), us[n].typ);
  }

  lemma ProbeRunLowestNext(probe: Probe, gates: map<string, real>, us: seq<Miss>, n: nat, next: nat)
    requires next == n + 1 <= |us| && GatesBounded(gates)
             && AllLowest(probe, gates, us, n, ProbeRun(probe, gates, us, n))
    ensures AllLowest(probe, gates, us, next, ProbeRun(probe, gates, us, next))
  {
    var e, e' := ProbeRunNext(probe, gates, us, n);
    LowestStep(probe, gates, us, n, ProbeRun(probe, gates, us, n), e, e');
  }

  lemma NothingLowest(probe: Probe, gates: map<string, real>, us: seq<Miss>, n: nat, ev: map<string, Evidence>)
    requires n == 0 && |ev| == 0
    ensures AllLowest(probe, gates, us, n, ev)
  {
  }

  /** Every recorded score is the lowest of the scores counted for its type. */
  lemma {:induction false} ProbeRunLowest(probe: Probe, gates: map<string, real>, us: seq<Miss>, n: nat)
    requires n <= |us| && GatesBounded(gates)
    ensures AllLowest(probe, gates, us, n, ProbeRun(probe, gates, us, n))
  {
    if n == 0 {
      NothingLowest(probe, gates, us, n, ProbeRun(probe, gates, us, n));
    } else {
      ProbeRunLowest(probe, gates, us, n - 1);
      ProbeRunLowestNext(probe, gates, us, n - 1, n);
    }
  }

  lemma LowestStep(probe: Probe, gates: map<string, real>, us: seq<Miss>, n: nat, ev: map<string, Evidence>,
                   e: Evidence, e': Evidence)
    requires n < |us| && AllLowest(probe, gates, us, n, ev)
    requires LowestUnder(probe, us, n, us[n].typ, GateFor(gates, us[n].typ), e)
    requires e' == Weighed(HeardFor(probe, us, n), us[n], e, |us[n].truth|)
    ensures AllLowest(probe, gates, us, n + 1, ev[us[n].typ := e'])
  {
    WeighedTakesIn(HeardFor(probe, us, n), us[n], |us[n].truth|, e);
    MissLowest(probe, us, n, us[n].typ, GateFor(gates, us[n].typ), e, e');
    LowestStored(probe, gates, us, n, ev, us[n].typ, ev[us[n].typ := e']);
  }

  /** The evidence of a run under these gates. */
  ghost function Synthesized(gates: map<string, real>, probe: Probe, chain: string,
                             us: seq<Miss>): map<string, Evidence>
  {
    if Contains(chain, "presidio") then ProbeRun(probe, gates, us, |us|) else ManualRun(gates, us, |us|)
  }

  /**
   * Sidecar-side evidence exists only if the run's chain consulted the sidecar; every missed
   * span ends up in exactly one count of its type, and the score recorded for a lower gate is
   * the lowest of those counted for it.
   */
  method SynthesizeConfig(rules: seq<Rule>, probe: Probe, chain: string, us: seq<Miss>, ghost gates: map<string, real>)
    returns (ev: map<string, Evidence>)
    requires GatesOf(rules, gates) && GatesBounded(gates)
    ensures ev == Synthesized(gates, probe, chain, us)
    ensures Gathered(probe, us, |us|, gates, Contains(chain, "presidio"), ev)
    ensures Contains(chain, "presidio") ==> AllLowest(probe, gates, us, |us|, ev)
  {
    var current := CollectGates(rules);
    GatesUnique(rules, gates, current);
    if !Contains(chain, "presidio") {
      ev := AllManual(us, current);
      ManualRunGathered(probe, us, |us|, current, Contains(chain, "presidio"));
    } else {
      ev := ProbeMisses(probe, us, current);
      ProbeRunLowest(probe, current, us, |us|);
    }
  }

  method AllManual(us: seq<Miss>, gates: map<string, real>) returns (ev: map<string, Evidence>)
    ensures ev == ManualRun(gates, us, |us|)
  {
    ev := map[];
    for i := 0 to |us|
      invariant ev == ManualRun(gates, us, i)
    {
      var e := GetEntry(ev, gates, us[i].typ);
      var n := MissSpanCount(us[i]);
      ev := ev[us[i].typ := e.(manualMisses := e.manualMisses + n)];
    }
  }

  lemma NothingGathered(probe: Probe, us: seq<Miss>, n: nat, gates: map<string, real>, consulted: bool,
                        ev: map<string, Evidence>)
    requires n == 0 && |ev| == 0
    ensures Gathered(probe, us, n, gates, consulted, ev)
  {
  }

  lemma ManualRunNext(probe: Probe, us: seq<Miss>, n: nat, gates: map<string, real>, consulted: bool)
    returns (e: Evidence)
    requires n < |us| && GatesBounded(gates) && Gathered(probe, us, n, gates, consulted, ManualRun(gates, us, n))
    ensures GatheredType(probe, us, n, gates, consulted, us[n].typ, e)
    ensures ManualRun(gates, us, n + 1)
         == var misses := e.manualMisses + Max(1, SpansOf(us[n].truth, us[n].typ));
            ManualRun(gates, us, n)[us[n].typ := e.(manualMisses := misses)]
  {
    e := Entry(ManualRun(gates, us, n), gates, us[n].typ);
    EntryGathered(probe, us, n, gates, consulted, ManualRun(gates, us, n), us[n].typ);
  }

  lemma ManualStep(probe: Probe, us: seq<Miss>, n: nat, gates: map<string, real>, consulted: bool,
                   ev: map<string, Evidence>, e: Evidence, ev': map<string, Evidence>)
    requires n < |us| && !consulted && Gathered(probe, us, n, gates, consulted, ev)
    requires GatheredType(probe, us, n, gates, consulted, us[n].typ, e)
    requires ev' == ev[us[n].typ := e.(manualMisses := e.manualMisses + Max(1, SpansOf(us[n].truth, us[n].typ)))]
    ensures Gathered(probe, us, n + 1, gates, consulted, ev')
  {
    var e' := e.(manualMisses := e.manualMisses + Max(1, SpansOf(us[n].truth, us[n].typ)));
    ManualEntryCounted(probe, us, n, gates, consulted, e, e');
    EntryStored(probe, us, n, gates, consulted, ev, e');
  }

  lemma ManualRunStep(probe: Probe, us: seq<Miss>, n: nat, next: nat, gates: map<string, real>, consulted: bool)
    requires next == n + 1 <= |us| && GatesBounded(gates) && !consulted
    requires Gathered(probe, us, n, gates, consulted, ManualRun(gates, us, n))
    ensures Gathered(probe, us, next, gates, consulted, ManualRun(gates, us, next))
  {
    var e := ManualRunNext(probe, us, n, gates, consulted);
    ManualStep(probe, us, n, gates, consulted, ManualRun(gates, us, n), e, ManualRun(gates, us, next));
  }

  lemma {:induction false} ManualRunGathered(probe: Probe, us: seq<Miss>, n: nat, gates: map<string, real>,
                                             consulted: bool)
    requires n <= |us| && GatesBounded(gates) && !consulted
    ensures Gathered(probe, us, n, gates, consulted, ManualRun(gates, us, n))
  {
    if n == 0 {
      NothingGathered(probe, us, n, gates, consulted, ManualRun(gates, us, n));
    } else {
      ManualRunGathered(probe, us, n - 1, gates, consulted);
      ManualRunStep(probe, us, n - 1, n, gates, consulted);
    }
  }

  lemma ManualEntryCounted(probe: Probe, us: seq<Miss>, i: nat, gates: map<string, real>, consulted: bool,
                           e: Evidence, e': Evidence)
    requires i < |us| && !consulted && GatheredType(probe, us, i, gates, consulted, us[i].typ, e)
    requires e' == e.(manualMisses := e.manualMisses + Max(1, SpansOf(us[i].truth, us[i].typ)))
    ensures GatheredType(probe, us, i + 1, gates, consulted, us[i].typ, e')
  {
    ManualSupported(probe, us, us[i].typ, e, Max(1, SpansOf(us[i].truth, us[i].typ)));
    MissCounted(probe, us, i, gates, consulted, e, e');
  }

  method ProbeMisses(probe: Probe, us: seq<Miss>, gates: map<string, real>) returns (ev: map<string, Evidence>)
    requires GatesBounded(gates)
    ensures ev == ProbeRun(probe, gates, us, |us|)
    ensures Gathered(probe, us, |us|, gates, true, ev)
  {
    ev := map[];
    var s := Probing(probe.Some?, map[], 0);
    for i := 0 to |us|
      invariant FromProbes(probe, s)
      invariant ev == ProbeRun(probe, gates, us, i) && s == Probed(probe, us, i)
      invariant Gathered(probe, us, i, gates, true, ev)
    {
      ev, s := ProbeMiss(probe, us, i, gates, ev, s);
    }
  }

  method ProbeMiss(probe: Probe, us: seq<Miss>, i: nat, gates: map<string, real>, ev: map<string, Evidence>, s: Probing)
    returns (ev': map<string, Evidence>, s': Probing)
    requires i < |us| && GatesBounded(gates) && FromProbes(probe, s) && Gathered(probe, us, i, gates, true, ev)
    ensures FromProbes(probe, s') && Gathered(probe, us, i + 1, gates, true, ev')
    ensures s' == Asked(probe, s, us[i].content).1
    ensures ev' == ev[us[i].typ := Weighed(Asked(probe, s, us[i].content).0, us[i], Entry(ev, gates, us[i].typ),
                                           |us[i].truth|)]
  {
    EntryGathered(probe, us, i, gates, true, ev, us[i].typ);
    var e := GetEntry(ev, gates, us[i].typ);
    var raw, next, k := AskProbe(probe, s, us[i].content);
    s' := next;
    var e' := WeighMiss(probe, us, us[i], raw, k, e);
    MissCounted(probe, us, i, gates, true, e, e');
    EntryStored(probe, us, i, gates, true, ev, e');
    ev' := ev[us[i].typ := e'];
  }
}
