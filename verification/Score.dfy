/**
 * Scoring a run (internal/harness/score.go): every seeded value is joined against the
 * gateway's report and against what the upstream captured.
 */
module Score {
  import opened Common
  import opened Generator

  datatype Redacted = Redacted(typ: string, start: int, end: int, detector: string)

  datatype Report = Report(action: string, redactions: seq<Redacted>)

  /** One request: what it was seeded with, and what the gateway, the upstream and the client saw. */
  datatype Outcome = Outcome(truth: seq<TruthSpan>, traps: seq<TruthSpan>, err: string, status: int,
                             report: Option<Report>, capture: Option<string>, reply: string)
  {
    predicate Failed() { err != "" }

    function Redactions(): seq<Redacted> { if report.Some? then report.value.redactions else [] }

    function Action(): string {
      if report.Some? then report.value.action else if status == 400 then "block" else ""
    }

    /** Something is known about what became of the seeded values. */
    predicate Verified() { capture.Some? || Action() == "block" }

    predicate Leaks(sp: TruthSpan) { capture.Some? && Contains(capture.value, sp.value) }

    predicate Matches(sp: TruthSpan) { FirstMatch(Redactions(), sp) < |Redactions()| }
  }

  predicate Hits(red: Redacted, sp: TruthSpan) {
    red.typ == sp.typ && red.start < sp.end && sp.start < red.end
  }

  /** Position of the first redaction that hits the span, or the length if none does. */
  function FirstMatch(reds: seq<Redacted>, sp: TruthSpan): (i: nat)
    ensures i <= |reds| && (forall j :: 0 <= j < i ==> !Hits(reds[j], sp)) && (i < |reds| ==> Hits(reds[i], sp))
  {
    if reds == [] || Hits(reds[0], sp) then 0 else 1 + FirstMatch(reds[1..], sp)
  }

  // ---- what the run says about each type ----

  datatype Mark = Hit(typ: string) | Missed(typ: string) | False(typ: string) | Leak(typ: string)

  datatype Kind = HitKind | MissedKind | FalseKind | LeakKind

  function KindOf(m: Mark): Kind {
    match m case Hit(_) => HitKind case Missed(_) => MissedKind case False(_) => FalseKind case Leak(_) => LeakKind
  }

  function LeakMarks(o: Outcome, n: nat): seq<Mark>
    requires n <= |o.truth|
  {
    if n == 0 then []
    else LeakMarks(o, n - 1) + if o.Verified() && o.Leaks(o.truth[n - 1]) then [Leak(o.truth[n - 1].typ)] else []
  }

  function TruthMark(o: Outcome, sp: TruthSpan): Mark { if o.Matches(sp) then Hit(sp.typ) else Missed(sp.typ) }

  function TruthMarks(o: Outcome, n: nat): seq<Mark>
    requires n <= |o.truth|
  {
    if n == 0 then [] else TruthMarks(o, n - 1) + [TruthMark(o, o.truth[n - 1])]
  }

  /** The redactions that account for some seeded value. */
  function Matched(o: Outcome, n: nat): set<nat>
    requires n <= |o.truth|
  {
    if n == 0 then {}
    else Matched(o, n - 1) + if o.Matches(o.truth[n - 1]) then {FirstMatch(o.Redactions(), o.truth[n - 1])} else {}
  }

  function FalseMarks(o: Outcome, n: nat): seq<Mark>
    requires n <= |o.Redactions()|
  {
    if n == 0 then []
    else FalseMarks(o, n - 1) + if n - 1 in Matched(o, |o.truth|) then [] else [False(o.Redactions()[n - 1].typ)]
  }

  function Marks(o: Outcome): seq<Mark> {
    if o.Failed() then []
    else LeakMarks(o, |o.truth|) + TruthMarks(o, |o.truth|) + FalseMarks(o, |o.Redactions()|)
  }

  function Detectors(reds: seq<Redacted>, n: nat): seq<string>
    requires n <= |reds|
  {
    if n == 0 then [] else Detectors(reds, n - 1) + [reds[n - 1].detector]
  }

  function RunMarks(outcomes: seq<Outcome>, n: nat): seq<Mark>
    requires n <= |outcomes|
  {
    if n == 0 then [] else RunMarks(outcomes, n - 1) + Marks(outcomes[n - 1])
  }

  function RunDetectors(outcomes: seq<Outcome>, n: nat): seq<string>
    requires n <= |outcomes|
  {
    if n == 0 then []
    else
      var o := outcomes[n - 1];
      RunDetectors(outcomes, n - 1) + if o.Failed() then [] else Detectors(o.Redactions(), |o.Redactions()|)
  }

  function CountKind(marks: seq<Mark>, k: Kind): nat {
    if marks == [] then 0
    else CountKind(marks[..|marks| - 1], k) + if KindOf(marks[|marks| - 1]) == k then 1 else 0
  }

  lemma {:induction false} CountConcat(a: seq<Mark>, b: seq<Mark>, k: Kind)
    ensures CountKind(a + b, k) == CountKind(a, k) + CountKind(b, k)
  {
    if b == [] {
      assert a + b == a;
    } else {
      assert (a + b)[..|a + b| - 1] == a + b[..|b| - 1];
      CountConcat(a, b[..|b| - 1], k);
    }
  }

  // ---- sums over a table ----

  ghost function SumOf(m: map<string, nat>): nat {
    if |m| == 0 then 0
    else
      var t :| t in m;
      m[t] + SumOf(m - {t})
  }

  lemma SumUnfolds(m: map<string, nat>) returns (t: string)
    requires |m| > 0
    ensures t in m && SumOf(m) == m[t] + SumOf(m - {t})
  {
    t :| t in m && SumOf(m) == m[t] + SumOf(m - {t});
  }

  lemma WithoutBoth(m: map<string, nat>, t: string, u: string)
    ensures m - {u} - {t} == m - {t} - {u}
  {
  }

  /** The sum does not depend on the order in which the entries are taken. */
  lemma {:induction false} SumPick(m: map<string, nat>, t: string)
    requires t in m
    ensures SumOf(m) == m[t] + SumOf(m - {t})
    decreases |m|
  {
    var u := SumUnfolds(m);
    if u != t {
      var mu, mt := m - {u}, m - {t};
      SumPick(mu, t);
      SumPick(mt, u);
      WithoutBoth(m, t, u);
    }
  }

  function CountFor(m: map<string, nat>, t: string): nat { if t in m then m[t] else 0 }

  lemma SumPut(m: map<string, nat>, t: string, n: nat)
    ensures SumOf(m[t := n]) + CountFor(m, t) == SumOf(m) + n
  {
    SumPick(m[t := n], t);
    if t in m {
      SumPick(m, t);
      assert m[t := n] - {t} == m - {t};
    } else {
      assert m[t := n] - {t} == m;
    }
  }

  // ---- the tables ----

  datatype TypeScore = TypeScore(tp: nat, fn: nat, fp: nat, misses: nat)
  {
    function Of(k: Kind): nat {
      match k case HitKind => tp case MissedKind => fn case FalseKind => fp case LeakKind => misses
    }
  }

  function ScoreFor(m: map<string, TypeScore>, t: string): TypeScore { if t in m then m[t] else TypeScore(0, 0, 0, 0) }

  function Put(m: map<string, TypeScore>, mark: Mark): map<string, TypeScore> {
    var ts := ScoreFor(m, mark.typ);
    m[mark.typ := match mark
                  case Hit(_) => ts.(tp := ts.tp + 1)
                  case Missed(_) => ts.(fn := ts.fn + 1)
                  case False(_) => ts.(fp := ts.fp + 1)
                  case Leak(_) => ts.(misses := ts.misses + 1)]
  }

  /** The table says of each type how often each kind of mark was made for it. */
  ghost predicate Tallies(m: map<string, TypeScore>, marks: seq<Mark>) {
    forall t :: ScoreFor(m, t) == TypeScore(multiset(marks)[Hit(t)], multiset(marks)[Missed(t)],
                                            multiset(marks)[False(t)], multiset(marks)[Leak(t)])
  }

  /** One column of the table. */
  function Column(m: map<string, TypeScore>, k: Kind): map<string, nat> { map t | t in m :: m[t].Of(k) }

  ghost predicate SumsUp(m: map<string, TypeScore>, marks: seq<Mark>) {
    forall k :: SumOf(Column(m, k)) == CountKind(marks, k)
  }

  lemma PutTallies(m: map<string, TypeScore>, marks: seq<Mark>, mark: Mark)
    requires Tallies(m, marks)
    ensures Tallies(Put(m, mark), marks + [mark])
  {
    assert multiset(marks + [mark]) == multiset(marks) + multiset{mark};
  }

  lemma PutSumsUp(m: map<string, TypeScore>, marks: seq<Mark>, mark: Mark)
    requires SumsUp(m, marks)
    ensures SumsUp(Put(m, mark), marks + [mark])
  {
    forall k ensures SumOf(Column(Put(m, mark), k)) == CountKind(marks + [mark], k) {
      PutColumn(m, marks, mark, k);
    }
  }

  lemma ColumnPut(m: map<string, TypeScore>, mark: Mark, k: Kind) returns (n: nat)
    ensures Column(Put(m, mark), k) == Column(m, k)[mark.typ := n]
    ensures n == CountFor(Column(m, k), mark.typ) + if KindOf(mark) == k then 1 else 0
  {
    n := Put(m, mark)[mark.typ].Of(k);
  }

  lemma CountOneMore(marks: seq<Mark>, mark: Mark, k: Kind)
    ensures CountKind(marks + [mark], k) == CountKind(marks, k) + if KindOf(mark) == k then 1 else 0
  {
    assert (marks + [mark])[..|marks|] == marks;
  }

  lemma PutColumn(m: map<string, TypeScore>, marks: seq<Mark>, mark: Mark, k: Kind)
    requires SumOf(Column(m, k)) == CountKind(marks, k)
    ensures SumOf(Column(Put(m, mark), k)) == CountKind(marks + [mark], k)
  {
    var n := ColumnPut(m, mark, k);
    SumPut(Column(m, k), mark.typ, n);
    CountOneMore(marks, mark, k);
  }

  ghost predicate CountsEngines(m: map<string, nat>, detectors: seq<string>) {
    && (forall d :: CountFor(m, d) == multiset(detectors)[d])
    && SumOf(m) == |detectors|
  }

  lemma PutCountsEngines(m: map<string, nat>, detectors: seq<string>, d: string)
    requires CountsEngines(m, detectors)
    ensures CountsEngines(m[d := CountFor(m, d) + 1], detectors + [d])
  {
    SumPut(m, d, CountFor(m, d) + 1);
    assert multiset(detectors + [d]) == multiset(detectors) + multiset{d};
  }

  // ---- tables built mark by mark ----

  /** The type table together with the run's own counters. */
  datatype Ledger = Ledger(byType: map<string, TypeScore>, tp: int, fn: int, fp: int, leaks: int)
  {
    predicate Blank() { |byType| == 0 && tp == 0 && fn == 0 && fp == 0 && leaks == 0 }
  }

  function Enter(l: Ledger, mark: Mark): Ledger {
    var m := Put(l.byType, mark);
    match mark
    case Hit(_) => l.(byType := m, tp := l.tp + 1)
    case Missed(_) => l.(byType := m, fn := l.fn + 1)
    case False(_) => l.(byType := m, fp := l.fp + 1)
    case Leak(_) => l.(byType := m, leaks := l.leaks + 1)
  }

  function EnterAll(l: Ledger, marks: seq<Mark>): Ledger {
    if |marks| == 0 then l else Enter(EnterAll(l, marks[..|marks| - 1]), marks[|marks| - 1])
  }

  function CountAll(e: map<string, nat>, detectors: seq<string>): map<string, nat> {
    if |detectors| == 0 then e
    else
      var m, d := CountAll(e, detectors[..|detectors| - 1]), detectors[|detectors| - 1];
      m[d := CountFor(m, d) + 1]
  }

  lemma EnterOneMore(l: Ledger, marks: seq<Mark>, mark: Mark)
    ensures EnterAll(l, marks + [mark]) == Enter(EnterAll(l, marks), mark)
  {
    assert (marks + [mark])[..|marks|] == marks;
  }

  lemma {:induction false} EnterConcat(l: Ledger, a: seq<Mark>, b: seq<Mark>)
    ensures EnterAll(l, a + b) == EnterAll(EnterAll(l, a), b)
    decreases |b|
  {
    if |b| == 0 {
      assert a + b == a;
    } else {
      var rest, m := b[..|b| - 1], b[|b| - 1];
      EnterConcat(l, a, rest);
      EnterOneMore(l, a + rest, m);
      assert a + rest + [m] == a + b;
    }
  }

  lemma CountOneMoreDetector(e: map<string, nat>, detectors: seq<string>, d: string)
    ensures CountAll(e, detectors + [d]) == CountAll(e, detectors)[d := CountFor(CountAll(e, detectors), d) + 1]
  {
    assert (detectors + [d])[..|detectors|] == detectors;
  }

  lemma {:induction false} CountConcatDetectors(e: map<string, nat>, a: seq<string>, b: seq<string>)
    ensures CountAll(e, a + b) == CountAll(CountAll(e, a), b)
    decreases |b|
  {
    if |b| == 0 {
      assert a + b == a;
    } else {
      var rest, d := b[..|b| - 1], b[|b| - 1];
      CountConcatDetectors(e, a, rest);
      CountOneMoreDetector(e, a + rest, d);
      assert a + rest + [d] == a + b;
    }
  }

  ghost predicate CountersMatch(l: Ledger, marks: seq<Mark>) {
    && l.tp == CountKind(marks, HitKind) && l.fn == CountKind(marks, MissedKind)
    && l.fp == CountKind(marks, FalseKind) && l.leaks == CountKind(marks, LeakKind)
  }

  lemma BlankSumsUp(m: map<string, TypeScore>, marks: seq<Mark>)
    requires |m| == 0 && |marks| == 0
    ensures SumsUp(m, marks)
  {
    forall k ensures SumOf(Column(m, k)) == CountKind(marks, k) {
      assert |Column(m, k)| == 0;
    }
  }

  lemma EnterCounts(l: Ledger, marks: seq<Mark>, mark: Mark)
    requires CountersMatch(l, marks)
    ensures CountersMatch(Enter(l, mark), marks + [mark])
  {
    forall k ensures CountKind(marks + [mark], k) == CountKind(marks, k) + if KindOf(mark) == k then 1 else 0 {
      CountOneMore(marks, mark, k);
    }
  }

  /** A ledger kept mark by mark counts every mark under its type. */
  lemma {:induction false} LedgerTallies(l: Ledger, marks: seq<Mark>)
    requires l.Blank()
    ensures Tallies(EnterAll(l, marks).byType, marks)
    decreases |marks|
  {
    if marks == [] {
    } else {
      var m, rest := marks[|marks| - 1], marks[..|marks| - 1];
      LedgerTallies(l, rest);
      assert marks == rest + [m];
      PutTallies(EnterAll(l, rest).byType, rest, m);
    }
  }

  /** Each column of the table sums to the number of marks of its kind. */
  lemma {:induction false} LedgerSumsUp(l: Ledger, marks: seq<Mark>)
    requires l.Blank()
    ensures SumsUp(EnterAll(l, marks).byType, marks)
    decreases |marks|
  {
    if |marks| == 0 {
      BlankSumsUp(l.byType, marks);
    } else {
      var m, rest := marks[|marks| - 1], marks[..|marks| - 1];
      LedgerSumsUp(l, rest);
      PutSumsUp(EnterAll(l, rest).byType, rest, m);
      assert marks == rest + [m];
    }
  }

  lemma {:induction false} LedgerCounts(l: Ledger, marks: seq<Mark>)
    requires l.Blank()
    ensures CountersMatch(EnterAll(l, marks), marks)
    decreases |marks|
  {
    if marks == [] {
    } else {
      var m, rest := marks[|marks| - 1], marks[..|marks| - 1];
      LedgerCounts(l, rest);
      EnterCounts(EnterAll(l, rest), rest, m);
      assert marks == rest + [m];
    }
  }

  lemma {:induction false} EngineTableMeaning(e: map<string, nat>, detectors: seq<string>)
    requires |e| == 0
    ensures CountsEngines(CountAll(e, detectors), detectors)
    decreases |detectors|
  {
    if detectors == [] {
    } else {
      var d, rest := detectors[|detectors| - 1], detectors[..|detectors| - 1];
      EngineTableMeaning(e, rest);
      PutCountsEngines(CountAll(e, rest), rest, d);
      assert detectors == rest + [d];
    }
  }

  // ---- entering the marks of a request, and of a run ----

  function EnterLeaks(l: Ledger, o: Outcome, n: nat): Ledger
    requires n <= |o.truth|
  {
    if n == 0 then l
    else
      var before, sp := EnterLeaks(l, o, n - 1), o.truth[n - 1];
      if o.Verified() && o.Leaks(sp) then Enter(before, Leak(sp.typ)) else before
  }

  function EnterTruths(l: Ledger, o: Outcome, n: nat): Ledger
    requires n <= |o.truth|
  {
    if n == 0 then l else Enter(EnterTruths(l, o, n - 1), TruthMark(o, o.truth[n - 1]))
  }

  function EnterFalses(l: Ledger, o: Outcome, n: nat): Ledger
    requires n <= |o.Redactions()|
  {
    if n == 0 then l
    else
      var before := EnterFalses(l, o, n - 1);
      if n - 1 in Matched(o, |o.truth|) then before else Enter(before, False(o.Redactions()[n - 1].typ))
  }

  function EnterOutcome(l: Ledger, o: Outcome): Ledger {
    if o.Failed() then l
    else EnterFalses(EnterTruths(EnterLeaks(l, o, |o.truth|), o, |o.truth|), o, |o.Redactions()|)
  }

  function EnterDetectors(e: map<string, nat>, reds: seq<Redacted>, n: nat): map<string, nat>
    requires n <= |reds|
  {
    if n == 0 then e
    else
      var before, d := EnterDetectors(e, reds, n - 1), reds[n - 1].detector;
      before[d := CountFor(before, d) + 1]
  }

  function RunLedger(l: Ledger, outcomes: seq<Outcome>, n: nat): Ledger
    requires n <= |outcomes|
  {
    if n == 0 then l else EnterOutcome(RunLedger(l, outcomes, n - 1), outcomes[n - 1])
  }

  function RunEngines(e: map<string, nat>, outcomes: seq<Outcome>, n: nat): map<string, nat>
    requires n <= |outcomes|
  {
    if n == 0 then e
    else
      var before, o := RunEngines(e, outcomes, n - 1), outcomes[n - 1];
      if o.Failed() then before else EnterDetectors(before, o.Redactions(), |o.Redactions()|)
  }

  lemma {:induction false} LeaksEntered(l: Ledger, o: Outcome, n: nat)
    requires n <= |o.truth|
    ensures EnterLeaks(l, o, n) == EnterAll(l, LeakMarks(o, n))
  {
    if n == 0 {
    } else {
      LeaksEntered(l, o, n - 1);
      EnterOneMore(l, LeakMarks(o, n - 1), Leak(o.truth[n - 1].typ));
      assert LeakMarks(o, n - 1) + [] == LeakMarks(o, n - 1);
    }
  }

  lemma {:induction false} TruthsEntered(l: Ledger, o: Outcome, n: nat)
    requires n <= |o.truth|
    ensures EnterTruths(l, o, n) == EnterAll(l, TruthMarks(o, n))
  {
    if n == 0 {
    } else {
      TruthsEntered(l, o, n - 1);
      EnterOneMore(l, TruthMarks(o, n - 1), TruthMark(o, o.truth[n - 1]));
    }
  }

  lemma {:induction false} FalsesEntered(l: Ledger, o: Outcome, n: nat)
    requires n <= |o.Redactions()|
    ensures EnterFalses(l, o, n) == EnterAll(l, FalseMarks(o, n))
  {
    if n == 0 {
    } else {
      FalsesEntered(l, o, n - 1);
      EnterOneMore(l, FalseMarks(o, n - 1), False(o.Redactions()[n - 1].typ));
      assert FalseMarks(o, n - 1) + [] == FalseMarks(o, n - 1);
    }
  }

  lemma EnterThree(l: Ledger, a: seq<Mark>, b: seq<Mark>, c: seq<Mark>)
    ensures EnterAll(l, a + b + c) == EnterAll(EnterAll(EnterAll(l, a), b), c)
  {
    EnterConcat(l, a, b);
    EnterConcat(l, a + b, c);
  }

  lemma OutcomeEntered(l: Ledger, o: Outcome)
    requires !o.Failed()
    ensures EnterOutcome(l, o) == EnterAll(l, Marks(o))
  {
    var leaks := EnterLeaks(l, o, |o.truth|);
    LeaksEntered(l, o, |o.truth|);
    TruthsEntered(leaks, o, |o.truth|);
    FalsesEntered(EnterTruths(leaks, o, |o.truth|), o, |o.Redactions()|);
    EnterThree(l, LeakMarks(o, |o.truth|), TruthMarks(o, |o.truth|), FalseMarks(o, |o.Redactions()|));
  }

  lemma {:induction false} DetectorsEntered(e: map<string, nat>, reds: seq<Redacted>, n: nat)
    requires n <= |reds|
    ensures EnterDetectors(e, reds, n) == CountAll(e, Detectors(reds, n))
  {
    if n == 0 {
    } else {
      DetectorsEntered(e, reds, n - 1);
      CountOneMoreDetector(e, Detectors(reds, n - 1), reds[n - 1].detector);
    }
  }

  lemma RequestEntered(l: Ledger, marks: seq<Mark>, o: Outcome)
    ensures EnterOutcome(EnterAll(l, marks), o) == EnterAll(l, marks + Marks(o))
  {
    if o.Failed() {
      assert marks + Marks(o) == marks;
    } else {
      OutcomeEntered(EnterAll(l, marks), o);
      EnterConcat(l, marks, Marks(o));
    }
  }

  /** The books of a run are those of its marks and detectors, request by request. */
  lemma {:induction false} RunEntered(l: Ledger, outcomes: seq<Outcome>, n: nat)
    requires n <= |outcomes|
    ensures RunLedger(l, outcomes, n) == EnterAll(l, RunMarks(outcomes, n))
  {
    if n == 0 {
    } else {
      RunEntered(l, outcomes, n - 1);
      RequestEntered(l, RunMarks(outcomes, n - 1), outcomes[n - 1]);
    }
  }

  lemma {:induction false} RunDetectorsEntered(e: map<string, nat>, outcomes: seq<Outcome>, n: nat)
    requires n <= |outcomes|
    ensures RunEngines(e, outcomes, n) == CountAll(e, RunDetectors(outcomes, n))
  {
    if n == 0 {
    } else {
      RunDetectorsEntered(e, outcomes, n - 1);
      var o, detectors := outcomes[n - 1], RunDetectors(outcomes, n - 1);
      if o.Failed() {
        assert detectors + [] == detectors;
      } else {
        DetectorsEntered(CountAll(e, detectors), o.Redactions(), |o.Redactions()|);
        CountConcatDetectors(e, detectors, Detectors(o.Redactions(), |o.Redactions()|));
      }
    }
  }
}
