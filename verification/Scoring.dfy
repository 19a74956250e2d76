/**
 * The scoring loop (internal/harness/score.go) and what it conserves: every seeded value and
 * every redaction is counted once on each side of the ledger.
 */
module Scoring {
  import opened Common
  import opened Generator
  import opened Gathering
  import opened Score

  datatype Tally = Tally(byType: map<string, TypeScore>, byEngine: map<string, nat>,
                         tp: nat, fn: nat, fp: nat, caught: nat, total: nat,
                         captureOrphans: nat, joined: nat, orphans: nat, trapFPs: nat, responseLeaks: nat)
  {
    /** Nothing has been counted yet. */
    predicate Blank() {
      && |byType| == 0 && |byEngine| == 0
      && tp == 0 && fn == 0 && fp == 0 && caught == 0 && total == 0
      && captureOrphans == 0 && joined == 0 && orphans == 0 && trapFPs == 0 && responseLeaks == 0
    }
  }

  /** What the diff view shows of one request. */
  datatype Row = Row(action: string, redactions: seq<Redacted>, missedTypes: seq<string>, responseLeaks: nat,
                     err: string)

  datatype Rates = Rates(recall: real, precision: real, behavioral: real)

  /** The types with a leaked or unreported value, each once. */
  function MissedTypes(marks: seq<Mark>): seq<string> {
    if marks == [] then []
    else
      var m := marks[|marks| - 1];
      var rest := MissedTypes(marks[..|marks| - 1]);
      if m.Leak? || m.Missed? then WithUnique(rest, m.typ) else rest
  }

  lemma {:induction false} MissedTypesMeaning(marks: seq<Mark>)
    ensures forall t :: t in MissedTypes(marks) <==> Leak(t) in marks || Missed(t) in marks
    ensures forall i, j :: 0 <= i < j < |MissedTypes(marks)| ==> MissedTypes(marks)[i] != MissedTypes(marks)[j]
  {
    if marks == [] {
    } else {
      var m, rest := marks[|marks| - 1], marks[..|marks| - 1];
      MissedTypesMeaning(rest);
      assert marks == rest + [m];
    }
  }

  function ReplyLeaks(o: Outcome, n: nat): nat
    requires n <= |o.truth|
  {
    if n == 0 then 0 else ReplyLeaks(o, n - 1) + if Contains(o.reply, o.truth[n - 1].value) then 1 else 0
  }

  function AllReplyLeaks(o: Outcome): nat { if o.reply == "" then 0 else ReplyLeaks(o, |o.truth|) }

  function TrapsHit(red: Redacted, traps: seq<TruthSpan>): nat {
    if traps == [] then 0
    else
      var trap := traps[|traps| - 1];
      TrapsHit(red, traps[..|traps| - 1]) + if red.start < trap.end && trap.start < red.end then 1 else 0
  }

  function FalseTraps(o: Outcome, n: nat): nat
    requires n <= |o.Redactions()|
  {
    if n == 0 then 0
    else FalseTraps(o, n - 1) + if n - 1 in Matched(o, |o.truth|) then 0 else TrapsHit(o.Redactions()[n - 1], o.traps)
  }

  function RowOf(o: Outcome): Row {
    if o.Failed() then Row("", [], [], 0, o.err)
    else Row(o.Action(), o.Redactions(), MissedTypes(LeakMarks(o, |o.truth|) + TruthMarks(o, |o.truth|)),
             AllReplyLeaks(o), o.err)
  }

  function Rows(outcomes: seq<Outcome>, n: nat): seq<Row>
    requires n <= |outcomes|
  {
    if n == 0 then [] else Rows(outcomes, n - 1) + [RowOf(outcomes[n - 1])]
  }

  // ---- bookkeeping ----

  function Books(t: Tally): Ledger { Ledger(t.byType, t.tp, t.fn, t.fp, t.total - t.caught) }

  function Marked(t: Tally, mark: Mark): Tally {
    var u := t.(byType := Put(t.byType, mark));
    match mark
    case Hit(_) => u.(tp := u.tp + 1)
    case Missed(_) => u.(fn := u.fn + 1)
    case False(_) => u.(fp := u.fp + 1)
    case Leak(_) => u.(total := u.total + 1)
  }

  /** A mark enters the books. */
  lemma MarkedEnters(t: Tally, mark: Mark)
    ensures Books(Marked(t, mark)) == Enter(Books(t), mark)
  {
  }

  /** Only the given counters differ. */
  predicate SameRequests(t: Tally, u: Tally) {
    t.joined == u.joined && t.orphans == u.orphans && t.responseLeaks == u.responseLeaks
  }

  // ---- one request ----

  /** Where the first n values stand on the behavioral side. */
  ghost predicate Behaved(o: Outcome, start: Tally, n: nat, t: Tally, missed: seq<string>) {
    && n <= |o.truth|
    && Books(t) == EnterLeaks(Books(start), o, n) && t.byEngine == start.byEngine
    && t.total + t.captureOrphans == start.total + start.captureOrphans + n
    && t.captureOrphans == start.captureOrphans + (if o.Verified() then 0 else n)
    && missed == MissedTypes(LeakMarks(o, n))
    && SameRequests(t, start) && t.tp == start.tp && t.fn == start.fn && t.fp == start.fp && t.trapFPs == start.trapFPs
  }

  lemma BehavedLeak(o: Outcome, start: Tally, n: nat, t: Tally, missed: seq<string>)
    requires Behaved(o, start, n, t, missed) && n < |o.truth| && o.Verified() && o.Leaks(o.truth[n])
    ensures var typ := o.truth[n].typ; Behaved(o, start, n + 1, Marked(t, Leak(typ)), WithUnique(missed, typ))
  {
    assert LeakMarks(o, n + 1)[..|LeakMarks(o, n)|] == LeakMarks(o, n);
  }

  lemma BehavedOther(o: Outcome, start: Tally, n: nat, t: Tally, missed: seq<string>)
    requires Behaved(o, start, n, t, missed) && n < |o.truth| && !(o.Verified() && o.Leaks(o.truth[n]))
    ensures Behaved(o, start, n + 1, if o.Verified() then t.(total := t.total + 1, caught := t.caught + 1)
                                     else t.(captureOrphans := t.captureOrphans + 1), missed)
  {
    assert LeakMarks(o, n + 1) == LeakMarks(o, n);
  }

  /** Behavioral recall: each value is leaked, caught, or nothing is known about it. */
  method Behave(o: Outcome, start: Tally) returns (t: Tally, missed: seq<string>)
    ensures Behaved(o, start, |o.truth|, t, missed)
  {
    t, missed := start, [];
    for i := 0 to |o.truth|
      invariant Behaved(o, start, i, t, missed)
    {
      var sp := o.truth[i];
      if !o.Verified() {
        BehavedOther(o, start, i, t, missed);
        t := t.(captureOrphans := t.captureOrphans + 1);
      } else if o.capture.Some? && Contains(o.capture.value, sp.value) {
        BehavedLeak(o, start, i, t, missed);
        t := Marked(t, Leak(sp.typ));
        missed := AppendUnique(missed, sp.typ);
      } else {
        BehavedOther(o, start, i, t, missed);
        t := t.(total := t.total + 1, caught := t.caught + 1);
      }
    }
  }

  /** The first redaction that hits the span. */
  method FindMatch(reds: seq<Redacted>, sp: TruthSpan) returns (k: nat)
    ensures k == FirstMatch(reds, sp)
  {
    k := 0;
    while k < |reds|
      invariant k <= |reds| && forall j :: 0 <= j < k ==> !Hits(reds[j], sp)
    {
      if reds[k].typ == sp.typ && reds[k].start < sp.end && sp.start < reds[k].end {
        return;
      }
      k := k + 1;
    }
  }

  /** Where the first n values stand against the report. */
  ghost predicate Recalled(o: Outcome, start: Tally, leaks: seq<Mark>, n: nat, t: Tally, missed: seq<string>,
                           matched: set<nat>)
  {
    && n <= |o.truth|
    && Books(t) == EnterTruths(Books(start), o, n) && t.byEngine == start.byEngine
    && t.tp + t.fn == start.tp + start.fn + n
    && missed == MissedTypes(leaks + TruthMarks(o, n))
    && matched == Matched(o, n)
    && SameRequests(t, start) && t.total == start.total && t.captureOrphans == start.captureOrphans
    && t.fp == start.fp && t.trapFPs == start.trapFPs
  }

  lemma RecalledStep(o: Outcome, start: Tally, leaks: seq<Mark>, n: nat, t: Tally, missed: seq<string>,
                     matched: set<nat>, k: nat)
    requires Recalled(o, start, leaks, n, t, missed, matched) && n < |o.truth|
    requires k == FirstMatch(o.Redactions(), o.truth[n])
    ensures var typ, found := o.truth[n].typ, k < |o.Redactions()|;
      Recalled(o, start, leaks, n + 1, Marked(t, if found then Hit(typ) else Missed(typ)),
               if found then missed else WithUnique(missed, typ), if found then matched + {k} else matched)
  {
    var all := leaks + TruthMarks(o, n + 1);
    assert all[..|all| - 1] == leaks + TruthMarks(o, n);
  }

  /** Span-level recall: each value is a hit or a miss. */
  method Recall(o: Outcome, start: Tally, missedSoFar: seq<string>, ghost leaks: seq<Mark>)
    returns (t: Tally, missed: seq<string>, matched: set<nat>)
    requires missedSoFar == MissedTypes(leaks)
    ensures Recalled(o, start, leaks, |o.truth|, t, missed, matched)
  {
    t, missed, matched := start, missedSoFar, {};
    assert leaks + TruthMarks(o, 0) == leaks;
    for i := 0 to |o.truth|
      invariant Recalled(o, start, leaks, i, t, missed, matched)
    {
      var sp := o.truth[i];
      var k := FindMatch(o.Redactions(), sp);
      RecalledStep(o, start, leaks, i, t, missed, matched, k);
      if k < |o.Redactions()| {
        t := Marked(t, Hit(sp.typ));
        matched := matched + {k};
      } else {
        t := Marked(t, Missed(sp.typ));
        missed := AppendUnique(missed, sp.typ);
      }
    }
  }

  lemma {:induction false} MatchedInRange(o: Outcome, n: nat)
    requires n <= |o.truth|
    ensures forall k :: k in Matched(o, n) ==> k < |o.Redactions()|
  {
    if n == 0 {
    } else {
      MatchedInRange(o, n - 1);
    }
  }

  method CountTraps(red: Redacted, traps: seq<TruthSpan>) returns (n: nat)
    ensures n == TrapsHit(red, traps)
  {
    n := 0;
    for i := 0 to |traps|
      invariant n == TrapsHit(red, traps[..i])
    {
      assert traps[..i + 1][..i] == traps[..i];
      if red.start < traps[i].end && traps[i].start < red.end {
        n := n + 1;
      }
    }
    assert traps[..|traps|] == traps;
  }

  function Below(matched: set<nat>, n: nat): set<nat> { set k | k in matched && k < n }

  /** Where the first n redactions stand. */
  ghost predicate Judged(o: Outcome, start: Tally, n: nat, t: Tally) {
    && n <= |o.Redactions()|
    && Books(t) == EnterFalses(Books(start), o, n) && t.byEngine == EnterDetectors(start.byEngine, o.Redactions(), n)
    && t.fp + |Below(Matched(o, |o.truth|), n)| == start.fp + n
    && t.trapFPs == start.trapFPs + FalseTraps(o, n)
    && SameRequests(t, start) && t.tp == start.tp && t.fn == start.fn
    && t.total == start.total && t.captureOrphans == start.captureOrphans
  }

  lemma BelowGrows(matched: set<nat>, n: nat)
    ensures |Below(matched, n + 1)| == |Below(matched, n)| + if n in matched then 1 else 0
  {
    if n in matched {
      assert Below(matched, n + 1) == Below(matched, n) + {n};
    } else {
      assert Below(matched, n + 1) == Below(matched, n);
    }
  }

  function Detected(t: Tally, d: string): Tally { t.(byEngine := t.byEngine[d := CountFor(t.byEngine, d) + 1]) }

  lemma JudgedMatched(o: Outcome, start: Tally, n: nat, t: Tally)
    requires Judged(o, start, n, t) && n < |o.Redactions()| && n in Matched(o, |o.truth|)
    ensures Judged(o, start, n + 1, Detected(t, o.Redactions()[n].detector))
  {
    BelowGrows(Matched(o, |o.truth|), n);
  }

  lemma JudgedFalse(o: Outcome, start: Tally, n: nat, t: Tally, traps: nat)
    requires Judged(o, start, n, t) && n < |o.Redactions()| && n !in Matched(o, |o.truth|)
    requires traps == TrapsHit(o.Redactions()[n], o.traps)
    ensures var red := o.Redactions()[n];
      Judged(o, start, n + 1, Marked(Detected(t, red.detector), False(red.typ)).(trapFPs := t.trapFPs + traps))
  {
    BelowGrows(Matched(o, |o.truth|), n);
    MarkedEnters(t, False(o.Redactions()[n].typ));
  }

  lemma AllBelow(o: Outcome)
    ensures Below(Matched(o, |o.truth|), |o.Redactions()|) == Matched(o, |o.truth|)
  {
    MatchedInRange(o, |o.truth|);
  }

  /** Precision: a redaction that matched no value is false, and perhaps fell for a trap. */
  method Precision(o: Outcome, start: Tally, matched: set<nat>) returns (t: Tally)
    requires matched == Matched(o, |o.truth|)
    ensures Judged(o, start, |o.Redactions()|, t)
  {
    t := start;
    assert Below(matched, 0) == {};
    for i := 0 to |o.Redactions()|
      invariant Judged(o, start, i, t)
    {
      var red := o.Redactions()[i];
      if i in matched {
        JudgedMatched(o, start, i, t);
        t := Detected(t, red.detector);
      } else {
        var traps := CountTraps(red, o.traps);
        JudgedFalse(o, start, i, t, traps);
        t := Marked(Detected(t, red.detector), False(red.typ)).(trapFPs := t.trapFPs + traps);
      }
    }
  }

  method CountReplyLeaks(o: Outcome) returns (n: nat)
    ensures n == AllReplyLeaks(o)
  {
    n := 0;
    if |o.reply| > 0 {
      for i := 0 to |o.truth|
        invariant n == ReplyLeaks(o, i)
      {
        if Contains(o.reply, o.truth[i].value) {
          n := n + 1;
        }
      }
    }
  }

  // ---- the run ----

  /** What a run has to account for. */
  datatype Totals = Totals(seeded: nat, sent: nat, joined: nat, unverified: nat, matched: nat, falseTraps: nat,
                           replyLeaks: nat)

  function WithOutcome(s: Totals, o: Outcome): Totals {
    if o.Failed() then s
    else Totals(s.seeded + |o.truth|, s.sent + 1, s.joined + (if o.report.Some? then 1 else 0),
                s.unverified + (if o.Verified() then 0 else |o.truth|),
                s.matched + |Matched(o, |o.truth|)|,
                s.falseTraps + FalseTraps(o, |o.Redactions()|), s.replyLeaks + AllReplyLeaks(o))
  }

  function TotalsOf(outcomes: seq<Outcome>, n: nat): Totals
    requires n <= |outcomes|
  {
    if n == 0 then Totals(0, 0, 0, 0, 0, 0, 0) else WithOutcome(TotalsOf(outcomes, n - 1), outcomes[n - 1])
  }

  /** How many redactions the requests that went through report. */
  function RedactionCount(outcomes: seq<Outcome>, n: nat): nat
    requires n <= |outcomes|
  {
    if n == 0 then 0
    else RedactionCount(outcomes, n - 1) + if outcomes[n - 1].Failed() then 0 else |outcomes[n - 1].Redactions()|
  }

  /** Both sides of the ledger agree: nothing seeded, sent or redacted is lost or counted twice. */
  ghost predicate Balanced(t: Tally, s: Totals, redacted: nat) {
    && t.tp + t.fn == s.seeded
    && t.total + t.captureOrphans == s.seeded
    && t.captureOrphans == s.unverified
    && t.joined == s.joined && t.joined + t.orphans == s.sent
    && t.fp + s.matched == redacted
    && t.trapFPs == s.falseTraps && t.responseLeaks == s.replyLeaks
  }

  /** What the three passes over one request leave behind, seen from the start of the request. */
  ghost predicate Passed(o: Outcome, start: Tally, t: Tally) {
    && SameRequests(t, start)
    && t.total + t.captureOrphans == start.total + start.captureOrphans + |o.truth|
    && t.captureOrphans == start.captureOrphans + (if o.Verified() then 0 else |o.truth|)
    && t.tp + t.fn == start.tp + start.fn + |o.truth|
    && t.fp + |Matched(o, |o.truth|)| == start.fp + |o.Redactions()|
    && t.trapFPs == start.trapFPs + FalseTraps(o, |o.Redactions()|)
  }

  lemma PassedBalances(o: Outcome, start: Tally, t: Tally, s: Totals, redacted: nat)
    requires !o.Failed() && Balanced(start, s, redacted)
    requires Passed(o, if o.report.Some? then start.(joined := start.joined + 1)
                    else start.(orphans := start.orphans + 1), t)
    ensures Balanced(t.(responseLeaks := t.responseLeaks + AllReplyLeaks(o)), WithOutcome(s, o),
                     redacted + |o.Redactions()|)
  {
  }

  /** The three passes over one request. */
  method Passes(o: Outcome, start: Tally) returns (t: Tally, missed: seq<string>)
    requires !o.Failed()
    ensures Passed(o, start, t)
    ensures Books(t) == EnterOutcome(Books(start), o)
    ensures t.byEngine == EnterDetectors(start.byEngine, o.Redactions(), |o.Redactions()|)
    ensures missed == MissedTypes(LeakMarks(o, |o.truth|) + TruthMarks(o, |o.truth|))
  {
    var t1, missed1 := Behave(o, start);
    var t2, missed2, matched := Recall(o, t1, missed1, LeakMarks(o, |o.truth|));
    t := Precision(o, t2, matched);
    missed := missed2;
    AllBelow(o);
  }

  /** One request that went through: joined or orphaned, then scored on each side. */
  method ScoreOutcome(o: Outcome, start: Tally, ghost s: Totals, ghost redacted: nat) returns (t: Tally, row: Row)
    requires !o.Failed() && Balanced(start, s, redacted)
    ensures Books(t) == EnterOutcome(Books(start), o)
    ensures t.byEngine == EnterDetectors(start.byEngine, o.Redactions(), |o.Redactions()|)
    ensures Balanced(t, WithOutcome(s, o), redacted + |o.Redactions()|)
    ensures row == RowOf(o)
  {
    var begun := if o.report.Some? then start.(joined := start.joined + 1) else start.(orphans := start.orphans + 1);
    var missed;
    t, missed := Passes(o, begun);
    PassedBalances(o, start, t, s, redacted);
    var replyLeaks := CountReplyLeaks(o);
    t := t.(responseLeaks := t.responseLeaks + replyLeaks);
    row := Row(o.Action(), o.Redactions(), missed, replyLeaks, o.err);
  }

  function Ratio(part: nat, whole: nat): real { if whole > 0 then part as real / whole as real else 0.0 }

  /** A quotient compares with one as its parts compare with each other. */
  lemma QuotientBelowOne(p: real, w: real)
    requires w > 0.0
    ensures p >= 0.0 ==> p / w >= 0.0
    ensures p / w <= 1.0 <==> p <= w
    ensures p / w == 1.0 <==> p == w
  {
    var q := p / w;
    assert q * w == p;
    assert (q - 1.0) * w == p - w;
  }

  lemma RatioInUnit(part: nat, whole: nat)
    requires part <= whole
    ensures 0.0 <= Ratio(part, whole) <= 1.0
    ensures whole > 0 ==> (Ratio(part, whole) == 1.0 <==> part == whole)
  {
    if whole > 0 {
      QuotientBelowOne(part as real, whole as real);
    }
  }

  /** Where the run stands after n outcomes: the books hold what was marked, and they balance. */
  ghost predicate Scored(start: Tally, outcomes: seq<Outcome>, n: nat, t: Tally) {
    && n <= |outcomes|
    && Books(t) == RunLedger(Books(start), outcomes, n) && t.byEngine == RunEngines(start.byEngine, outcomes, n)
    && Balanced(t, TotalsOf(outcomes, n), RedactionCount(outcomes, n))
  }

  lemma BlankScored(start: Tally, outcomes: seq<Outcome>)
    requires start.Blank()
    ensures Scored(start, outcomes, 0, start)
  {
  }

  method NewTally() returns (t: Tally)
    ensures t.Blank()
  {
    t := Tally(map[], map[], 0, 0, 0, 0, 0, 0, 0, 0, 0, 0);
  }

  /** Request after request; a failed one is listed but not scored. */
  method ScoreAll(outcomes: seq<Outcome>, start: Tally) returns (t: Tally, rows: seq<Row>)
    requires Scored(start, outcomes, 0, start)
    ensures Scored(start, outcomes, |outcomes|, t)
    ensures rows == Rows(outcomes, |outcomes|)
  {
    t, rows := start, [];
    for i := 0 to |outcomes|
      invariant Scored(start, outcomes, i, t)
      invariant rows == Rows(outcomes, i)
    {
      var o := outcomes[i];
      if o.err != "" {
        rows := rows + [Row("", [], [], 0, o.err)];
        continue;
      }
      var row;
      t, row := ScoreOutcome(o, t, TotalsOf(outcomes, i), RedactionCount(outcomes, i));
      rows := rows + [row];
    }
  }

  method ScoreRun(outcomes: seq<Outcome>) returns (t: Tally, rates: Rates, rows: seq<Row>, ghost start: Tally)
    ensures start.Blank() && Scored(start, outcomes, |outcomes|, t)
    ensures rows == Rows(outcomes, |outcomes|)
    ensures rates == Rates(Ratio(t.tp, t.tp + t.fn), Ratio(t.tp, t.tp + t.fp), Ratio(t.caught, t.total))
  {
    t := NewTally();
    start := t;
    BlankScored(start, outcomes);
    t, rows := ScoreAll(outcomes, t);
    rates := Rates(Ratio(t.tp, t.tp + t.fn), Ratio(t.tp, t.tp + t.fp), Ratio(t.caught, t.total));
  }

  // ---- what the ledger says ----

  lemma {:induction false} DetectorsLength(reds: seq<Redacted>, n: nat)
    requires n <= |reds|
    ensures |Detectors(reds, n)| == n
  {
    if n == 0 {
    } else {
      DetectorsLength(reds, n - 1);
    }
  }

  lemma {:induction false} RunDetectorsLength(outcomes: seq<Outcome>, n: nat)
    requires n <= |outcomes|
    ensures |RunDetectors(outcomes, n)| == RedactionCount(outcomes, n)
  {
    if n == 0 {
    } else {
      RunDetectorsLength(outcomes, n - 1);
      DetectorsLength(outcomes[n - 1].Redactions(), |outcomes[n - 1].Redactions()|);
    }
  }

  /** The columns of the type table and the engine table sum to the run's own counters. */
  ghost predicate ColumnsSum(t: Tally, leaks: nat, redacted: nat) {
    && SumOf(Column(t.byType, HitKind)) == t.tp
    && SumOf(Column(t.byType, MissedKind)) == t.fn
    && SumOf(Column(t.byType, FalseKind)) == t.fp
    && SumOf(Column(t.byType, LeakKind)) == leaks == t.total - t.caught
    && SumOf(t.byEngine) == redacted
  }

  /** The tables say of each type and engine how often it was marked, and sum to the counters. */
  lemma TablesSumUp(start: Tally, t: Tally, marks: seq<Mark>, detectors: seq<string>)
    requires start.Blank() && Books(t) == EnterAll(Books(start), marks)
             && t.byEngine == CountAll(start.byEngine, detectors)
    ensures Tallies(t.byType, marks) && CountsEngines(t.byEngine, detectors)
    ensures ColumnsSum(t, CountKind(marks, LeakKind), |detectors|)
  {
    LedgerTallies(Books(start), marks);
    LedgerSumsUp(Books(start), marks);
    LedgerCounts(Books(start), marks);
    EngineTableMeaning(start.byEngine, detectors);
  }

  /** Every rate is a fraction, and behavioral recall is 1 exactly if no leak was seen. */
  ghost predicate Fractions(t: Tally, leaks: nat) {
    && 0.0 <= Ratio(t.tp, t.tp + t.fn) <= 1.0 && 0.0 <= Ratio(t.tp, t.tp + t.fp) <= 1.0
    && 0.0 <= Ratio(t.caught, t.total) <= 1.0
    && (t.total > 0 ==> (Ratio(t.caught, t.total) == 1.0 <==> leaks == 0))
  }

  lemma RatesAreFractions(t: Tally, leaks: nat)
    requires t.total == t.caught + leaks
    ensures Fractions(t, leaks)
  {
    RatioInUnit(t.tp, t.tp + t.fn);
    RatioInUnit(t.tp, t.tp + t.fp);
    RatioInUnit(t.caught, t.total);
  }

  /**
   * What the ledger of a run says: every value seeded into a request that went through is
   * either reported or not, and either caught, leaked or unknown; requests are joined or
   * orphaned; each column of the type table sums to its total and counts its type's marks; the
   * engine table sums to all redactions, which are false or account for a value; every rate is
   * a fraction, and behavioral recall is 1 exactly if no leak was seen.
   */
  lemma ScoreConserves(start: Tally, outcomes: seq<Outcome>, t: Tally)
    requires start.Blank() && Scored(start, outcomes, |outcomes|, t)
    ensures var n := |outcomes|;
      var s, leaks := TotalsOf(outcomes, n), CountKind(RunMarks(outcomes, n), LeakKind);
      && s.seeded == t.tp + t.fn == t.caught + leaks + t.captureOrphans
      && s.sent == t.joined + t.orphans
      && RedactionCount(outcomes, n) == t.fp + s.matched
      && ColumnsSum(t, leaks, RedactionCount(outcomes, n))
      && Fractions(t, leaks)
      && Tallies(t.byType, RunMarks(outcomes, n)) && CountsEngines(t.byEngine, RunDetectors(outcomes, n))
  {
    var n := |outcomes|;
    RunEntered(Books(start), outcomes, n);
    RunDetectorsEntered(start.byEngine, outcomes, n);
    RunDetectorsLength(outcomes, n);
    TablesSumUp(start, t, RunMarks(outcomes, n), RunDetectors(outcomes, n));
    RatesAreFractions(t, CountKind(RunMarks(outcomes, n), LeakKind));
  }
}
