/**
 * What the evidence of a run counts (internal/harness/flywheel.go), told from the misses and the
 * sidecar's answers alone: how many missed spans speak for a lower gate, for a deny term, or for
 * neither.
 */
module EvidenceMeaning {
  import opened Common
  import opened Counting
  import opened Generator
  import opened Packs
  import opened Proposals
  import opened Upserts
  import opened Gathering

  type Raw = Option<seq<ProbeSpan>>

  /** The sidecar saw the missed span, at best with a score below the gate. */
  predicate ForGate(raw: Raw, sp: TruthSpan, t: string, gate: real) {
    sp.typ == t && raw.Some? && Sees(raw.value, sp, t) && BestScore(raw.value, sp, t) < gate
  }

  /** It did not see it, or nothing is known, and the value is a plain one of a free-text type. */
  predicate ForDeny(raw: Raw, sp: TruthSpan, t: string) {
    && sp.typ == t && (raw.None? || !Sees(raw.value, sp, t))
    && (t == "PERSON_NAME" || t == "ADDRESS") && DenyTermOk(sp.value)
  }

  /** A span of the type that speaks for neither. */
  predicate ForNeither(raw: Raw, sp: TruthSpan, t: string, gate: real) {
    sp.typ == t && !ForGate(raw, sp, t, gate) && !ForDeny(raw, sp, t)
  }

  ghost function Gated(raw: Raw, t: string, gate: real): TruthSpan -> bool { sp => ForGate(raw, sp, t, gate) }
  ghost function Denied(raw: Raw, t: string): TruthSpan -> bool { sp => ForDeny(raw, sp, t) }
  ghost function Neither(raw: Raw, t: string, gate: real): TruthSpan -> bool { sp => ForNeither(raw, sp, t, gate) }

  // ---- one miss ----

  /** These spans of a miss of the type, each counted where it belongs. */
  ghost predicate Counted(raw: Raw, t: string, truth: seq<TruthSpan>, e0: Evidence, e: Evidence) {
    && e.gate == e0.gate
    && e.thresholdMisses == e0.thresholdMisses + HowMany(truth, Gated(raw, t, e0.gate))
    && e.denyMisses == e0.denyMisses + HowMany(truth, Denied(raw, t))
    && e.manualMisses == e0.manualMisses + HowMany(truth, Neither(raw, t, e0.gate))
    && forall d :: d in e.denyTerms <==> d in e0.denyTerms || DeniedValue(raw, t, truth, d)
  }

  ghost predicate DeniedValue(raw: Raw, t: string, truth: seq<TruthSpan>, d: string) {
    exists sp :: sp in truth && ForDeny(raw, sp, t) && sp.value == d
  }

  lemma DeniedValueSnoc(raw: Raw, t: string, truth: seq<TruthSpan>, sp: TruthSpan, d: string)
    ensures DeniedValue(raw, t, truth + [sp], d)
       <==> DeniedValue(raw, t, truth, d) || (ForDeny(raw, sp, t) && sp.value == d)
  {
    assert sp in truth + [sp];
  }

  lemma CountedNext(raw: Raw, t: string, truth: seq<TruthSpan>, sp: TruthSpan, e0: Evidence, e: Evidence, e': Evidence)
    requires Counted(raw, t, truth, e0, e)
    requires e' == if sp.typ == t then Classify(raw, sp, t, e) else e
    ensures Counted(raw, t, truth + [sp], e0, e')
  {
    HowManySnoc(truth, sp, Gated(raw, t, e0.gate));
    HowManySnoc(truth, sp, Denied(raw, t));
    HowManySnoc(truth, sp, Neither(raw, t, e0.gate));
    OneWeighed(raw, t, sp, e, e');
    forall d ensures d in e'.denyTerms <==> d in e0.denyTerms || DeniedValue(raw, t, truth + [sp], d) {
      DeniedValueSnoc(raw, t, truth, sp, d);
    }
  }

  lemma OneWeighed(raw: Raw, t: string, sp: TruthSpan, e: Evidence, e': Evidence)
    requires e' == if sp.typ == t then Classify(raw, sp, t, e) else e
    ensures e'.gate == e.gate
    ensures e'.thresholdMisses == e.thresholdMisses + if ForGate(raw, sp, t, e.gate) then 1 else 0
    ensures e'.denyMisses == e.denyMisses + if ForDeny(raw, sp, t) then 1 else 0
    ensures e'.manualMisses == e.manualMisses + if ForNeither(raw, sp, t, e.gate) then 1 else 0
    ensures forall d :: d in e'.denyTerms <==> d in e.denyTerms || (ForDeny(raw, sp, t) && sp.value == d)
  {
  }

  lemma WeighedCounts(raw: Raw, u: Miss, e: Evidence)
    ensures Counted(raw, u.typ, u.truth, e, Weighed(raw, u, e, |u.truth|))
  {
    var stages := (n: nat) => if n <= |u.truth| then Weighed(raw, u, e, n) else e;
    var inv := (truth: seq<TruthSpan>, e': Evidence) => Counted(raw, u.typ, truth, e, e');
    forall n: nat | n < |u.truth| && inv(u.truth[..n], stages(n))
      ensures inv(u.truth[..n] + [u.truth[n]], stages(n + 1))
    {
      CountedNext(raw, u.typ, u.truth[..n], u.truth[n], e, stages(n), stages(n + 1));
    }
    AlongWhole(u.truth, stages, inv);
  }

  // ---- the whole run ----

  /** The answers a run works with, by content. */
  ghost function Answers(probe: Probe, us: seq<Miss>): string -> Raw { c => Heard(probe, Contents(us, |us|), c) }

  /** The spans of a miss that satisfy the predicate, if the miss is of the type. */
  ghost function In(t: string, p: Raw -> TruthSpan -> bool, h: string -> Raw, u: Miss): nat {
    if u.typ == t then HowMany(u.truth, p(h(u.content))) else 0
  }

  ghost function GatedIn(h: string -> Raw, t: string, gate: real): Miss -> nat {
    u => In(t, raw => Gated(raw, t, gate), h, u)
  }

  ghost function DeniedIn(h: string -> Raw, t: string): Miss -> nat { u => In(t, raw => Denied(raw, t), h, u) }

  ghost function NeitherIn(h: string -> Raw, t: string, gate: real): Miss -> nat {
    u => In(t, raw => Neither(raw, t, gate), h, u)
  }

  /** The value of a missed span of the type that speaks for a deny term. */
  ghost predicate DenyValue(h: string -> Raw, us: seq<Miss>, t: string, d: string) {
    exists u :: u in us && u.typ == t && DeniedValue(h(u.content), t, u.truth, d)
  }

  /** What the evidence of a type says about these misses. */
  ghost predicate CountsOf(h: string -> Raw, us: seq<Miss>, t: string, e: Evidence) {
    && e.thresholdMisses == SumOver(us, GatedIn(h, t, e.gate))
    && e.denyMisses == SumOver(us, DeniedIn(h, t))
    && e.manualMisses == SumOver(us, NeitherIn(h, t, e.gate))
    && forall d :: d in e.denyTerms <==> DenyValue(h, us, t, d)
  }

  lemma SameTypeCounts(h: string -> Raw, us: seq<Miss>, u: Miss, e: Evidence, e': Evidence)
    requires CountsOf(h, us, u.typ, e) && Counted(h(u.content), u.typ, u.truth, e, e')
    ensures CountsOf(h, us + [u], u.typ, e')
  {
    SumOverSnoc(us, u, GatedIn(h, u.typ, e.gate));
    SumOverSnoc(us, u, DeniedIn(h, u.typ));
    SumOverSnoc(us, u, NeitherIn(h, u.typ, e.gate));
    forall d ensures d in e'.denyTerms <==> DenyValue(h, us + [u], u.typ, d) {
      DenyValueSnoc(h, us, u, u.typ, d);
    }
  }

  lemma DenyValueSnoc(h: string -> Raw, us: seq<Miss>, u: Miss, t: string, d: string)
    ensures DenyValue(h, us + [u], t, d)
       <==> DenyValue(h, us, t, d) || (u.typ == t && DeniedValue(h(u.content), t, u.truth, d))
  {
    assert u in us + [u];
  }

  lemma OtherTypeCounts(h: string -> Raw, us: seq<Miss>, u: Miss, t: string, e: Evidence)
    requires CountsOf(h, us, t, e) && u.typ != t
    ensures CountsOf(h, us + [u], t, e)
  {
    SumOverSnoc(us, u, GatedIn(h, t, e.gate));
    SumOverSnoc(us, u, DeniedIn(h, t));
    SumOverSnoc(us, u, NeitherIn(h, t, e.gate));
    forall d ensures d in e.denyTerms <==> DenyValue(h, us + [u], t, d) {
      DenyValueSnoc(h, us, u, t, d);
    }
  }

  lemma NoMissCounts(h: string -> Raw, us: seq<Miss>, t: string, e: Evidence)
    requires Blank(e, e.gate) && forall u :: u in us ==> u.typ != t
    ensures CountsOf(h, us, t, e)
  {
    SumOverNothing(us, GatedIn(h, t, e.gate));
    SumOverNothing(us, DeniedIn(h, t));
    SumOverNothing(us, NeitherIn(h, t, e.gate));
  }

  ghost predicate Missing(us: seq<Miss>, t: string) { exists u :: u in us && u.typ == t }

  /** The evidence of the type counts these misses under the gate in force; there is none if there are none. */
  ghost predicate TypeCounted(h: string -> Raw, gates: map<string, real>, us: seq<Miss>, ev: map<string, Evidence>,
                              t: string)
  {
    && (t in ev <==> Missing(us, t))
    && (t in ev ==> ev[t].gate == GateFor(gates, t) && CountsOf(h, us, t, ev[t]))
  }

  /** One more miss, weighed by these answers. */
  ghost predicate Takes(h: string -> Raw, gates: map<string, real>, u: Miss, ev: map<string, Evidence>,
                        ev': map<string, Evidence>)
  {
    ev' == ev[u.typ := Weighed(h(u.content), u, Entry(ev, gates, u.typ), |u.truth|)]
  }

  lemma EntryCounts(h: string -> Raw, gates: map<string, real>, us: seq<Miss>, ev: map<string, Evidence>, t: string,
                    e: Evidence)
    requires TypeCounted(h, gates, us, ev, t) && e == Entry(ev, gates, t)
    ensures e.gate == GateFor(gates, t) && CountsOf(h, us, t, e)
  {
    if t !in ev {
      forall u | u in us ensures u.typ != t { assert !Missing(us, t); }
      NoMissCounts(h, us, t, e);
    }
  }

  lemma MissingSnoc(us: seq<Miss>, u: Miss, t: string)
    ensures Missing(us + [u], t) <==> t == u.typ || Missing(us, t)
  {
    assert u in us + [u];
    assert forall x :: x in us + [u] <==> x in us || x == u;
  }

  lemma TakesCounts(h: string -> Raw, gates: map<string, real>, us: seq<Miss>, u: Miss, ev: map<string, Evidence>,
                    ev': map<string, Evidence>, t: string)
    requires TypeCounted(h, gates, us, ev, t) && Takes(h, gates, u, ev, ev')
    ensures TypeCounted(h, gates, us + [u], ev', t)
  {
    MissingSnoc(us, u, t);
    if t == u.typ {
      var e := Entry(ev, gates, t);
      EntryCounts(h, gates, us, ev, t, e);
      WeighedCounts(h(u.content), u, e);
      SameTypeCounts(h, us, u, e, ev'[t]);
    } else if t in ev {
      OtherTypeCounts(h, us, u, t, ev[t]);
    }
  }

  lemma ProbeRunTakes(probe: Probe, gates: map<string, real>, us: seq<Miss>, n: nat, h: string -> Raw)
    requires n < |us| && h(us[n].content) == RawFor(probe, us, n)
    ensures Takes(h, gates, us[n], ProbeRun(probe, gates, us, n), ProbeRun(probe, gates, us, n + 1))
  {
  }

  lemma NothingCounted(h: string -> Raw, gates: map<string, real>, us: seq<Miss>, ev: map<string, Evidence>, t: string)
    requires |us| == 0 && |ev| == 0
    ensures TypeCounted(h, gates, us, ev, t)
  {
  }

  lemma ProbeRunCounts(probe: Probe, gates: map<string, real>, us: seq<Miss>, n: nat, h: string -> Raw, t: string)
    requires n < |us| && h == Answers(probe, us)
    requires TypeCounted(h, gates, us[..n], ProbeRun(probe, gates, us, n), t)
    ensures TypeCounted(h, gates, us[..n] + [us[n]], ProbeRun(probe, gates, us, n + 1), t)
  {
    RawIsHeard(probe, us, n);
    ProbeRunTakes(probe, gates, us, n, h);
    TakesCounts(h, gates, us[..n], us[n], ProbeRun(probe, gates, us, n), ProbeRun(probe, gates, us, n + 1), t);
  }

  /**
   * The evidence of a run that consulted the sidecar: for exactly the missed types, under the
   * gate in force, how many missed spans the sidecar saw below it, how many it did not see that
   * are plain values of a free-text type, which values these are, and how many are neither.
   */
  lemma EvidenceCounts(probe: Probe, gates: map<string, real>, chain: string, us: seq<Miss>, t: string)
    requires Contains(chain, "presidio")
    ensures TypeCounted(Answers(probe, us), gates, us, Synthesized(gates, probe, chain, us), t)
  {
    var h := Answers(probe, us);
    var runs := (n: nat) => if n <= |us| then ProbeRun(probe, gates, us, n) else map[];
    var inv := (xs: seq<Miss>, ev: map<string, Evidence>) => TypeCounted(h, gates, xs, ev, t);
    NothingCounted(h, gates, [], runs(0), t);
    forall n: nat | n < |us| && inv(us[..n], runs(n)) ensures inv(us[..n] + [us[n]], runs(n + 1)) {
      ProbeRunCounts(probe, gates, us, n, h, t);
    }
    AlongWhole(us, runs, inv);
  }

  /**
   * In particular: if the content of a miss is the (k + 1)-th distinct one, k below 25, and the
   * first k + 1 distinct contents are all answered, every span of the miss's type that the k-th
   * answer sees below the gate makes evidence for a gate that is no higher than its score.
   */
  lemma AnsweredSpanCounts(probe: Probe, gates: map<string, real>, chain: string, us: seq<Miss>, i: nat, j: nat, k: nat)
    requires Contains(chain, "presidio") && GatesBounded(gates)
    requires i < |us| && j < |us[i].truth| && us[i].truth[j].typ == us[i].typ
    requires k < |Contents(us, |us|)| && Contents(us, |us|)[k] == us[i].content && k < MAX_PROBES_PER_RUN
    requires probe.Some?
    requires forall m: nat {:trigger Contents(us, |us|)[m]} :: m <= k ==> probe.value(m, Contents(us, |us|)[m]).Ok?
    requires Sees(probe.value(k, us[i].content).value, us[i].truth[j], us[i].typ)
    requires BestScore(probe.value(k, us[i].content).value, us[i].truth[j], us[i].typ) < GateFor(gates, us[i].typ)
    ensures var t, ev := us[i].typ, Synthesized(gates, probe, chain, us);
      && t in ev && ev[t].thresholdMisses > 0
      && ev[t].minScore <= BestScore(probe.value(k, us[i].content).value, us[i].truth[j], t)
  {
    ContentsAre(us, |us|);
    HeardAt(probe, Contents(us, |us|), k);
    ProbeRunLowest(probe, gates, us, |us|);
    var score := BestScore(probe.value(k, us[i].content).value, us[i].truth[j], us[i].typ);
    assert Motivates(probe, us, GateFor(gates, us[i].typ), us[i].typ, i, j, score);
  }

  /** And after a failed answer nothing is known of the contents that follow, unless they were answered before. */
  lemma NothingHeardAfterFailure(probe: Probe, us: seq<Miss>, i: nat, k: nat, failed: nat)
    requires i < |us| && failed <= k < |Contents(us, |us|)| && Contents(us, |us|)[k] == us[i].content
    requires probe.None? || probe.value(failed, Contents(us, |us|)[failed]).Err? || k >= MAX_PROBES_PER_RUN
    ensures RawFor(probe, us, i) == None
  {
    ContentsAre(us, |us|);
    HeardAt(probe, Contents(us, |us|), k);
    RawIsHeard(probe, us, i);
    assert Contents(us, |us|)[failed] == Contents(us, |us|)[failed];
  }

  // ---- a run without the sidecar ----

  lemma {:induction false} SpansOfIsCount(truth: seq<TruthSpan>, typ: string)
    ensures SpansOf(truth, typ) == HowMany(truth, (sp: TruthSpan) => sp.typ == typ)
  {
    if truth == [] {
    } else {
      SpansOfIsCount(truth[..|truth| - 1], typ);
    }
  }

  ghost function ManualCount(us: seq<Miss>, t: string): nat {
    SumOver(us, (u: Miss) => if u.typ == t then Max(1, HowMany(u.truth, (sp: TruthSpan) => sp.typ == t)) else 0)
  }

  ghost predicate TypeManual(gates: map<string, real>, us: seq<Miss>, ev: map<string, Evidence>, t: string) {
    && (t in ev <==> Missing(us, t))
    && (t in ev ==>
          && ev[t].gate == GateFor(gates, t)
          && ev[t].thresholdMisses == 0 && ev[t].denyMisses == 0 && ev[t].denyTerms == []
          && ev[t].manualMisses == ManualCount(us, t))
  }

  lemma ManualRunCounts(gates: map<string, real>, us: seq<Miss>, n: nat, t: string)
    requires n < |us| && TypeManual(gates, us[..n], ManualRun(gates, us, n), t)
    ensures TypeManual(gates, us[..n] + [us[n]], ManualRun(gates, us, n + 1), t)
  {
    var u := us[n];
    MissingSnoc(us[..n], u, t);
    SpansOfIsCount(u.truth, u.typ);
    SumOverSnoc(us[..n], u,
                (x: Miss) => if x.typ == t then Max(1, HowMany(x.truth, (sp: TruthSpan) => sp.typ == t)) else 0);
    if t !in ManualRun(gates, us, n) {
      NoManual(us[..n], t);
    }
  }

  lemma NoManual(us: seq<Miss>, t: string)
    requires !Missing(us, t)
    ensures ManualCount(us, t) == 0
  {
    SumOverNothing(us, (x: Miss) => if x.typ == t then Max(1, HowMany(x.truth, (sp: TruthSpan) => sp.typ == t)) else 0);
  }

  /** Without the sidecar all of a type's misses are manual, each for its spans of the type but at least for one. */
  lemma ManualEvidenceCounts(probe: Probe, gates: map<string, real>, chain: string, us: seq<Miss>, t: string)
    requires !Contains(chain, "presidio")
    ensures TypeManual(gates, us, Synthesized(gates, probe, chain, us), t)
  {
    var runs := (n: nat) => if n <= |us| then ManualRun(gates, us, n) else map[];
    var inv := (xs: seq<Miss>, ev: map<string, Evidence>) => TypeManual(gates, xs, ev, t);
    assert inv([], runs(0));
    forall n: nat | n < |us| && inv(us[..n], runs(n)) ensures inv(us[..n] + [us[n]], runs(n + 1)) {
      ManualRunCounts(gates, us, n, t);
    }
    AlongWhole(us, runs, inv);
  }
}
