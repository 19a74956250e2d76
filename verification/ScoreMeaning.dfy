/**
 * What the numbers of a scored run count (internal/harness/score.go), told from the outcomes
 * alone: the values each request was seeded with, what was reported, and what was captured.
 */
module ScoreMeaning {
  import opened Common
  import opened Counting
  import opened Generator
  import opened Score
  import opened Scoring

  // ---- what happened to a value, and to a redaction ----

  /** The value reached the upstream as it was. */
  predicate Leaked(o: Outcome, sp: TruthSpan) { o.capture.Some? && Contains(o.capture.value, sp.value) }

  /** The gateway says it blocked the request, or says nothing and answered 400. */
  predicate Blocked(o: Outcome) {
    (o.report.Some? && o.report.value.action == "block") || (o.report.None? && o.status == 400)
  }

  /** The value certainly did not reach the upstream as it was. */
  predicate Caught(o: Outcome, sp: TruthSpan) {
    if o.capture.Some? then !Contains(o.capture.value, sp.value) else Blocked(o)
  }

  predicate Unknown(o: Outcome) { o.capture.None? && !Blocked(o) }

  /** Some redaction of the value's type was reported that touches it. */
  predicate Reported(o: Outcome, sp: TruthSpan) {
    && o.report.Some?
    && exists r :: r in o.report.value.redactions && r.typ == sp.typ && r.start < sp.end && sp.start < r.end
  }

  /** The i-th redaction is, for no value, the first that is of its type and touches it. */
  predicate Unclaimed(o: Outcome, i: nat) {
    && i < |o.Redactions()|
    && forall sp :: sp in o.truth ==>
         !(Hits(o.Redactions()[i], sp) && forall j :: 0 <= j < i ==> !Hits(o.Redactions()[j], sp))
  }

  // ---- counting over a run ----

  type OfValue = (Outcome, TruthSpan) -> bool

  ghost function At(p: OfValue, o: Outcome): TruthSpan -> bool { sp => p(o, sp) }

  ghost function ValuesIn(p: OfValue): Outcome -> nat {
    (o: Outcome) => if o.err == "" then HowMany(o.truth, At(p, o)) else 0
  }

  /** How many seeded values of requests that went through satisfy the predicate. */
  ghost function Values(outcomes: seq<Outcome>, p: OfValue): nat { SumOver(outcomes, ValuesIn(p)) }

  lemma ValuesSame(outcomes: seq<Outcome>, p: OfValue, q: OfValue)
    requires forall o, sp :: p(o, sp) <==> q(o, sp)
    ensures Values(outcomes, p) == Values(outcomes, q)
  {
    forall o | o in outcomes ensures ValuesIn(p)(o) == ValuesIn(q)(o) {
      HowManySame(o.truth, At(p, o), At(q, o));
    }
    SumOverSame(outcomes, ValuesIn(p), ValuesIn(q));
  }

  lemma ValuesAdd(outcomes: seq<Outcome>, p: OfValue, q: OfValue, r: OfValue)
    requires forall o, sp :: !(p(o, sp) && q(o, sp)) && (r(o, sp) <==> p(o, sp) || q(o, sp))
    ensures Values(outcomes, r) == Values(outcomes, p) + Values(outcomes, q)
  {
    forall o | o in outcomes ensures ValuesIn(r)(o) == ValuesIn(p)(o) + ValuesIn(q)(o) {
      HowManyAdds(o.truth, At(p, o), At(q, o), At(r, o));
    }
    SumOverAdds(outcomes, ValuesIn(p), ValuesIn(q), ValuesIn(r));
  }

  lemma NoValues(outcomes: seq<Outcome>, p: OfValue)
    requires forall o, sp :: !p(o, sp)
    ensures Values(outcomes, p) == 0
  {
    forall o | o in outcomes ensures ValuesIn(p)(o) == 0 {
      NoneExactly(o.truth, At(p, o));
    }
    SumOverNothing(outcomes, ValuesIn(p));
  }

  type OfRedaction = Redacted -> bool

  /** The i-th redaction is unclaimed and satisfies the predicate. */
  ghost function FalseAt(o: Outcome, p: OfRedaction): nat -> bool {
    (i: nat) => i < |o.Redactions()| && Unclaimed(o, i) && p(o.Redactions()[i])
  }

  ghost function FalsesIn(p: OfRedaction): Outcome -> nat {
    (o: Outcome) => if o.err == "" then HowManyBelow(|o.Redactions()|, FalseAt(o, p)) else 0
  }

  /** How many unclaimed redactions of requests that went through satisfy the predicate. */
  ghost function Falses(outcomes: seq<Outcome>, p: OfRedaction): nat { SumOver(outcomes, FalsesIn(p)) }

  lemma NoFalses(outcomes: seq<Outcome>, p: OfRedaction)
    requires forall red :: !p(red)
    ensures Falses(outcomes, p) == 0
  {
    forall o | o in outcomes ensures FalsesIn(p)(o) == 0 {
      NoneBelow(|o.Redactions()|, FalseAt(o, p));
    }
    SumOverNothing(outcomes, FalsesIn(p));
  }

  lemma FalsesSame(outcomes: seq<Outcome>, p: OfRedaction, q: OfRedaction)
    requires forall red :: p(red) <==> q(red)
    ensures Falses(outcomes, p) == Falses(outcomes, q)
  {
    forall o | o in outcomes ensures FalsesIn(p)(o) == FalsesIn(q)(o) {
      SameBelow(|o.Redactions()|, FalseAt(o, p), FalseAt(o, q));
    }
    SumOverSame(outcomes, FalsesIn(p), FalsesIn(q));
  }

  // ---- the marks of one request ----

  type OfMark = Mark -> bool

  ghost function LeakOf(q: OfMark): OfValue { (o: Outcome, sp: TruthSpan) => Leaked(o, sp) && q(Leak(sp.typ)) }
  ghost function ReportOf(q: OfMark): OfValue {
    (o: Outcome, sp: TruthSpan) => q(if Reported(o, sp) then Hit(sp.typ) else Missed(sp.typ))
  }
  ghost function FalseOf(q: OfMark): OfRedaction { (red: Redacted) => q(False(red.typ)) }

  lemma LeakMarksNext(o: Outcome, n: nat, sp: TruthSpan)
    requires n < |o.truth| && sp == o.truth[n]
    ensures LeakMarks(o, n + 1) == LeakMarks(o, n) + if Leaked(o, sp) then [Leak(sp.typ)] else []
  {
  }

  lemma LeakMarkCounted(o: Outcome, marks: seq<Mark>, sp: TruthSpan, q: OfMark)
    ensures HowMany(marks + if Leaked(o, sp) then [Leak(sp.typ)] else [], q)
            == HowMany(marks, q) + if LeakOf(q)(o, sp) then 1 else 0
  {
    HowManySnoc(marks, Leak(sp.typ), q);
    assert marks + [] == marks;
  }

  ghost function LeakCounts(o: Outcome, q: OfMark): nat -> nat {
    (n: nat) => if n <= |o.truth| then HowMany(LeakMarks(o, n), q) else 0
  }

  lemma LeakMarksCount(o: Outcome, q: OfMark)
    ensures HowMany(LeakMarks(o, |o.truth|), q) == HowMany(o.truth, At(LeakOf(q), o))
  {
    var p, count := At(LeakOf(q), o), LeakCounts(o, q);
    forall n: nat | n < |o.truth| ensures count(n + 1) == count(n) + if p(o.truth[n]) then 1 else 0 {
      LeakMarksNext(o, n, o.truth[n]);
      LeakMarkCounted(o, LeakMarks(o, n), o.truth[n], q);
    }
    CountsAll(o.truth, p, count);
  }

  lemma MatchesIsReported(o: Outcome, sp: TruthSpan)
    ensures o.Matches(sp) <==> Reported(o, sp)
  {
    var i := FirstMatch(o.Redactions(), sp);
    if Reported(o, sp) {
      var r :| r in o.report.value.redactions && r.typ == sp.typ && r.start < sp.end && sp.start < r.end;
      var j :| 0 <= j < |o.Redactions()| && o.Redactions()[j] == r;
    }
  }

  lemma TruthMarkCounted(o: Outcome, marks: seq<Mark>, sp: TruthSpan, q: OfMark)
    ensures HowMany(marks + [TruthMark(o, sp)], q) == HowMany(marks, q) + if ReportOf(q)(o, sp) then 1 else 0
  {
    HowManySnoc(marks, TruthMark(o, sp), q);
    MatchesIsReported(o, sp);
  }

  lemma TruthMarksNext(o: Outcome, n: nat, sp: TruthSpan)
    requires n < |o.truth| && sp == o.truth[n]
    ensures TruthMarks(o, n + 1) == TruthMarks(o, n) + [TruthMark(o, sp)]
  {
  }

  ghost function TruthCounts(o: Outcome, q: OfMark): nat -> nat {
    (n: nat) => if n <= |o.truth| then HowMany(TruthMarks(o, n), q) else 0
  }

  lemma TruthCountsGrow(o: Outcome, q: OfMark, n: nat, sp: TruthSpan)
    requires n < |o.truth| && sp == o.truth[n]
    ensures TruthCounts(o, q)(n + 1) == TruthCounts(o, q)(n) + if At(ReportOf(q), o)(sp) then 1 else 0
  {
    TruthMarksNext(o, n, sp);
    TruthMarkCounted(o, TruthMarks(o, n), sp, q);
  }

  lemma TruthMarksCount(o: Outcome, q: OfMark)
    ensures HowMany(TruthMarks(o, |o.truth|), q) == HowMany(o.truth, At(ReportOf(q), o))
  {
    var p, count := At(ReportOf(q), o), TruthCounts(o, q);
    forall n: nat | n < |o.truth| ensures count(n + 1) == count(n) + if p(o.truth[n]) then 1 else 0 {
      TruthCountsGrow(o, q, n, o.truth[n]);
    }
    CountsAll(o.truth, p, count);
  }

  /** The i-th redaction is the first hit of one of the first n values. */
  ghost predicate ClaimedBy(o: Outcome, n: nat, i: nat)
    requires n <= |o.truth| && i < |o.Redactions()|
  {
    exists j :: 0 <= j < n && FirstHit(o, i, o.truth[j])
  }

  predicate FirstHit(o: Outcome, i: nat, sp: TruthSpan)
    requires i < |o.Redactions()|
  {
    Hits(o.Redactions()[i], sp) && forall m :: 0 <= m < i ==> !Hits(o.Redactions()[m], sp)
  }

  lemma {:induction false} MatchedAre(o: Outcome, n: nat, i: nat)
    requires n <= |o.truth| && i < |o.Redactions()|
    ensures i in Matched(o, n) <==> ClaimedBy(o, n, i)
  {
    if n == 0 {
    } else {
      MatchedAre(o, n - 1, i);
      var sp := o.truth[n - 1];
      assert ClaimedBy(o, n, i) <==> ClaimedBy(o, n - 1, i) || FirstHit(o, i, sp);
      assert FirstHit(o, i, sp) <==> FirstMatch(o.Redactions(), sp) == i;
    }
  }

  lemma UnmatchedIsUnclaimed(o: Outcome, i: nat)
    requires i < |o.Redactions()|
    ensures i in Matched(o, |o.truth|) <==> !Unclaimed(o, i)
  {
    MatchedAre(o, |o.truth|, i);
    if !Unclaimed(o, i) {
      var sp :| sp in o.truth && Hits(o.Redactions()[i], sp) && forall j :: 0 <= j < i ==> !Hits(o.Redactions()[j], sp);
      assert FirstHit(o, i, sp);
    }
  }

  lemma FalseMarkCounted(o: Outcome, n: nat, marks: seq<Mark>, q: OfMark)
    requires n < |o.Redactions()|
    ensures HowMany(marks + if Unclaimed(o, n) then [False(o.Redactions()[n].typ)] else [], q)
         == HowMany(marks, q) + if FalseAt(o, FalseOf(q))(n) then 1 else 0
  {
    HowManySnoc(marks, False(o.Redactions()[n].typ), q);
    assert marks + [] == marks;
  }

  lemma FalseMarksNext(o: Outcome, n: nat)
    requires n < |o.Redactions()|
    ensures FalseMarks(o, n + 1) == FalseMarks(o, n) + if Unclaimed(o, n) then [False(o.Redactions()[n].typ)] else []
  {
    UnmatchedIsUnclaimed(o, n);
  }

  ghost function FalseCounts(o: Outcome, q: OfMark): nat -> nat {
    (n: nat) => if n <= |o.Redactions()| then HowMany(FalseMarks(o, n), q) else 0
  }

  lemma FalseCountsGrow(o: Outcome, q: OfMark, n: nat)
    requires n < |o.Redactions()|
    ensures FalseCounts(o, q)(n + 1) == FalseCounts(o, q)(n) + if FalseAt(o, FalseOf(q))(n) then 1 else 0
  {
    FalseMarksNext(o, n);
    FalseMarkCounted(o, n, FalseMarks(o, n), q);
  }

  lemma FalseMarksCount(o: Outcome, q: OfMark)
    ensures HowMany(FalseMarks(o, |o.Redactions()|), q) == HowManyBelow(|o.Redactions()|, FalseAt(o, FalseOf(q)))
  {
    var p, count := FalseAt(o, FalseOf(q)), FalseCounts(o, q);
    forall n: nat | n < |o.Redactions()| ensures count(n + 1) == count(n) + if p(n) then 1 else 0 {
      FalseCountsGrow(o, q, n);
    }
    CountsBelow(|o.Redactions()|, p, count);
  }

  // ---- the marks of a run ----

  /** The marks of a run that satisfy the predicate, kind by kind. */
  ghost predicate MarksAre(outcomes: seq<Outcome>, marks: seq<Mark>, q: OfMark) {
    HowMany(marks, q) == Values(outcomes, LeakOf(q)) + Values(outcomes, ReportOf(q)) + Falses(outcomes, FalseOf(q))
  }

  lemma RequestMarks(o: Outcome, q: OfMark)
    ensures HowMany(Marks(o), q) == ValuesIn(LeakOf(q))(o) + ValuesIn(ReportOf(q))(o) + FalsesIn(FalseOf(q))(o)
  {
    if o.err == "" {
      var a, b, c := LeakMarks(o, |o.truth|), TruthMarks(o, |o.truth|), FalseMarks(o, |o.Redactions()|);
      HowManyConcat(a, b, q);
      HowManyConcat(a + b, c, q);
      LeakMarksCount(o, q);
      TruthMarksCount(o, q);
      FalseMarksCount(o, q);
    }
  }

  /** Marks that come to what the three kinds of one request come to. */
  ghost predicate MarksOne(o: Outcome, marks: seq<Mark>, q: OfMark) {
    HowMany(marks, q) == ValuesIn(LeakOf(q))(o) + ValuesIn(ReportOf(q))(o) + FalsesIn(FalseOf(q))(o)
  }

  lemma MarksNext(outcomes: seq<Outcome>, before: seq<Mark>, o: Outcome, q: OfMark, more: seq<Mark>)
    requires MarksAre(outcomes, before, q) && MarksOne(o, more, q)
    ensures MarksAre(outcomes + [o], before + more, q)
  {
    HowManyConcat(before, more, q);
    SumOverSnoc(outcomes, o, ValuesIn(LeakOf(q)));
    SumOverSnoc(outcomes, o, ValuesIn(ReportOf(q)));
    SumOverSnoc(outcomes, o, FalsesIn(FalseOf(q)));
  }

  /** The marks after each number of requests. */
  ghost function MarkStages(outcomes: seq<Outcome>): nat -> seq<Mark> {
    (n: nat) => if n <= |outcomes| then RunMarks(outcomes, n) else []
  }

  lemma MarkStagesNext(outcomes: seq<Outcome>, n: nat, q: OfMark) returns (more: seq<Mark>)
    requires n < |outcomes|
    ensures MarkStages(outcomes)(n + 1) == MarkStages(outcomes)(n) + more && MarksOne(outcomes[n], more, q)
  {
    more := Marks(outcomes[n]);
    RequestMarks(outcomes[n], q);
  }

  lemma AllMarksCount(outcomes: seq<Outcome>, q: OfMark)
    ensures MarksAre(outcomes, RunMarks(outcomes, |outcomes|), q)
  {
    var stages := MarkStages(outcomes);
    var inv := (xs: seq<Outcome>, marks: seq<Mark>) => MarksAre(xs, marks, q);
    NoMarks([], stages(0), q);
    forall n: nat | n < |outcomes| && inv(outcomes[..n], stages(n))
      ensures inv(outcomes[..n] + [outcomes[n]], stages(n + 1))
    {
      var more := MarkStagesNext(outcomes, n, q);
      MarksNext(outcomes[..n], stages(n), outcomes[n], q, more);
    }
    AlongWhole(outcomes, stages, inv);
  }

  lemma NoMarks(outcomes: seq<Outcome>, marks: seq<Mark>, q: OfMark)
    requires |outcomes| == 0 && |marks| == 0
    ensures MarksAre(outcomes, marks, q)
  {
  }

  // ---- each kind of mark ----

  /** Marks of one kind, perhaps of one type: the type is free if none is given. */
  predicate Fits(typ: Option<string>, t: string) { typ.None? || typ.value == t }

  ghost function OfKind(k: Kind, typ: Option<string>): OfMark { (m: Mark) => KindOf(m) == k && Fits(typ, m.typ) }

  ghost function LeakedOf(typ: Option<string>): OfValue {
    (o: Outcome, sp: TruthSpan) => Leaked(o, sp) && Fits(typ, sp.typ)
  }
  ghost function ReportedOf(typ: Option<string>): OfValue {
    (o: Outcome, sp: TruthSpan) => Reported(o, sp) && Fits(typ, sp.typ)
  }
  ghost function MissedOf(typ: Option<string>): OfValue {
    (o: Outcome, sp: TruthSpan) => !Reported(o, sp) && Fits(typ, sp.typ)
  }
  ghost function RedactedOf(typ: Option<string>): OfRedaction { (red: Redacted) => Fits(typ, red.typ) }

  lemma ValueMarks(k: Kind, typ: Option<string>, o: Outcome, sp: TruthSpan)
    ensures LeakOf(OfKind(k, typ))(o, sp) <==> k == LeakKind && LeakedOf(typ)(o, sp)
    ensures ReportOf(OfKind(k, typ))(o, sp)
            <==> (k == HitKind && ReportedOf(typ)(o, sp)) || (k == MissedKind && MissedOf(typ)(o, sp))
  {
  }

  lemma RedactionMarks(k: Kind, typ: Option<string>, red: Redacted)
    ensures FalseOf(OfKind(k, typ))(red) <==> k == FalseKind && RedactedOf(typ)(red)
  {
  }

  lemma LeakPart(outcomes: seq<Outcome>, k: Kind, typ: Option<string>)
    ensures Values(outcomes, LeakOf(OfKind(k, typ))) == if k == LeakKind then Values(outcomes, LeakedOf(typ)) else 0
  {
    forall o, sp ensures LeakOf(OfKind(k, typ))(o, sp) <==> k == LeakKind && LeakedOf(typ)(o, sp) {
      ValueMarks(k, typ, o, sp);
    }
    if k == LeakKind {
      ValuesSame(outcomes, LeakOf(OfKind(k, typ)), LeakedOf(typ));
    } else {
      NoValues(outcomes, LeakOf(OfKind(k, typ)));
    }
  }

  lemma ReportPart(outcomes: seq<Outcome>, k: Kind, typ: Option<string>)
    ensures Values(outcomes, ReportOf(OfKind(k, typ)))
         == if k == HitKind then Values(outcomes, ReportedOf(typ))
            else if k == MissedKind then Values(outcomes, MissedOf(typ)) else 0
  {
    forall o, sp ensures ReportOf(OfKind(k, typ))(o, sp)
                    <==> (k == HitKind && ReportedOf(typ)(o, sp)) || (k == MissedKind && MissedOf(typ)(o, sp))
    {
      ValueMarks(k, typ, o, sp);
    }
    if k == HitKind {
      ValuesSame(outcomes, ReportOf(OfKind(k, typ)), ReportedOf(typ));
    } else if k == MissedKind {
      ValuesSame(outcomes, ReportOf(OfKind(k, typ)), MissedOf(typ));
    } else {
      NoValues(outcomes, ReportOf(OfKind(k, typ)));
    }
  }

  lemma FalsePart(outcomes: seq<Outcome>, k: Kind, typ: Option<string>)
    ensures Falses(outcomes, FalseOf(OfKind(k, typ))) == if k == FalseKind then Falses(outcomes, RedactedOf(typ)) else 0
  {
    forall red ensures FalseOf(OfKind(k, typ))(red) <==> k == FalseKind && RedactedOf(typ)(red) {
      RedactionMarks(k, typ, red);
    }
    if k == FalseKind {
      FalsesSame(outcomes, FalseOf(OfKind(k, typ)), RedactedOf(typ));
    } else {
      NoFalses(outcomes, FalseOf(OfKind(k, typ)));
    }
  }

  /** What the marks of a kind, perhaps of one type, count. */
  lemma KindCounts(outcomes: seq<Outcome>, k: Kind, typ: Option<string>)
    ensures HowMany(RunMarks(outcomes, |outcomes|), OfKind(k, typ))
         == match k
            case LeakKind => Values(outcomes, LeakedOf(typ))
            case HitKind => Values(outcomes, ReportedOf(typ))
            case MissedKind => Values(outcomes, MissedOf(typ))
            case FalseKind => Falses(outcomes, RedactedOf(typ))
  {
    AllMarksCount(outcomes, OfKind(k, typ));
    LeakPart(outcomes, k, typ);
    ReportPart(outcomes, k, typ);
    FalsePart(outcomes, k, typ);
  }

  lemma {:induction false} KindIsCount(marks: seq<Mark>, k: Kind)
    ensures CountKind(marks, k) == HowMany(marks, OfKind(k, None))
  {
    if marks == [] {
    } else {
      KindIsCount(marks[..|marks| - 1], k);
    }
  }

  lemma TypedIsCount(marks: seq<Mark>, m: Mark)
    ensures multiset(marks)[m] == HowMany(marks, OfKind(KindOf(m), Some(m.typ)))
  {
    HowManyIsMultiplicity(marks, m);
    HowManySame(marks, Equals(m), OfKind(KindOf(m), Some(m.typ)));
  }

  // ---- the run's own totals ----

  ghost function AnyValue(): OfValue { (o: Outcome, sp: TruthSpan) => true }
  ghost function UnknownValue(): OfValue { (o: Outcome, sp: TruthSpan) => Unknown(o) }
  ghost function CaughtValue(): OfValue { (o: Outcome, sp: TruthSpan) => Caught(o, sp) }
  ghost function KnownValue(): OfValue { (o: Outcome, sp: TruthSpan) => !Unknown(o) }

  lemma {:induction false} SeededIsCount(outcomes: seq<Outcome>, n: nat)
    requires n <= |outcomes|
    ensures TotalsOf(outcomes, n).seeded == Values(outcomes[..n], AnyValue())
    ensures TotalsOf(outcomes, n).unverified == Values(outcomes[..n], UnknownValue())
  {
    if n == 0 {
      assert outcomes[..n] == [];
    } else {
      SeededIsCount(outcomes, n - 1);
      var rest, o := outcomes[..n - 1], outcomes[n - 1];
      assert outcomes[..n] == rest + [o];
      SumOverSnoc(rest, o, ValuesIn(AnyValue()));
      SumOverSnoc(rest, o, ValuesIn(UnknownValue()));
      AllOrNone(o.truth, At(AnyValue(), o), true);
      AllOrNone(o.truth, At(UnknownValue(), o), Unknown(o));
      assert o.Verified() <==> !Unknown(o);
    }
  }

  ghost function ReplyLeakOf(): OfValue { (o: Outcome, sp: TruthSpan) => o.reply != "" && Contains(o.reply, sp.value) }

  ghost function ReplyLeakSums(o: Outcome): nat -> nat {
    (n: nat) => if n <= |o.truth| then ReplyLeaks(o, n) else 0
  }

  lemma ReplyLeakSumsGrow(o: Outcome, n: nat)
    requires n < |o.truth| && o.reply != ""
    ensures ReplyLeakSums(o)(n + 1) == ReplyLeakSums(o)(n) + if At(ReplyLeakOf(), o)(o.truth[n]) then 1 else 0
  {
  }

  lemma ReplyLeaksCount(o: Outcome)
    requires o.reply != ""
    ensures ReplyLeaks(o, |o.truth|) == HowMany(o.truth, At(ReplyLeakOf(), o))
  {
    forall n: nat | n < |o.truth|
      ensures ReplyLeakSums(o)(n + 1) == ReplyLeakSums(o)(n) + if At(ReplyLeakOf(), o)(o.truth[n]) then 1 else 0
    {
      ReplyLeakSumsGrow(o, n);
    }
    CountsAll(o.truth, At(ReplyLeakOf(), o), ReplyLeakSums(o));
  }

  lemma AllReplyLeaksCount(o: Outcome)
    ensures AllReplyLeaks(o) == HowMany(o.truth, At(ReplyLeakOf(), o))
  {
    if o.reply == "" {
      NoneExactly(o.truth, At(ReplyLeakOf(), o));
    } else {
      ReplyLeaksCount(o);
      assert o.truth[..|o.truth|] == o.truth;
    }
  }

  ghost function WentThrough(): Outcome -> bool { (o: Outcome) => o.err == "" }
  ghost function WasJoined(): Outcome -> bool { (o: Outcome) => o.err == "" && o.report.Some? }

  lemma {:induction false} RequestsCount(outcomes: seq<Outcome>, n: nat)
    requires n <= |outcomes|
    ensures TotalsOf(outcomes, n).sent == HowMany(outcomes[..n], WentThrough())
    ensures TotalsOf(outcomes, n).joined == HowMany(outcomes[..n], WasJoined())
    ensures TotalsOf(outcomes, n).replyLeaks == Values(outcomes[..n], ReplyLeakOf())
  {
    if n == 0 {
      assert outcomes[..n] == [];
    } else {
      RequestsCount(outcomes, n - 1);
      var rest, o := outcomes[..n - 1], outcomes[n - 1];
      assert outcomes[..n] == rest + [o];
      HowManySnoc(rest, o, WentThrough());
      HowManySnoc(rest, o, WasJoined());
      SumOverSnoc(rest, o, ValuesIn(ReplyLeakOf()));
      AllReplyLeaksCount(o);
    }
  }

  // ---- what the score says ----

  /** The behavioral side: leaked, caught or unknown, each as often as it happened. */
  ghost predicate BehavioralSide(outcomes: seq<Outcome>, t: Tally) {
    && t.total - t.caught == Values(outcomes, LeakedOf(None))
    && t.caught == Values(outcomes, CaughtValue())
    && t.captureOrphans == Values(outcomes, UnknownValue())
  }

  /** The reported side: values with a redaction of their type that touches them, and redactions no value claims. */
  ghost predicate ReportedSide(outcomes: seq<Outcome>, t: Tally) {
    && t.tp == Values(outcomes, ReportedOf(None)) && t.fn == Values(outcomes, MissedOf(None))
    && t.fp == Falses(outcomes, RedactedOf(None))
  }

  /** And type by type. */
  ghost predicate TypeSide(outcomes: seq<Outcome>, t: Tally, typ: string) {
    && ScoreFor(t.byType, typ).misses == Values(outcomes, LeakedOf(Some(typ)))
    && ScoreFor(t.byType, typ).tp == Values(outcomes, ReportedOf(Some(typ)))
    && ScoreFor(t.byType, typ).fn == Values(outcomes, MissedOf(Some(typ)))
    && ScoreFor(t.byType, typ).fp == Falses(outcomes, RedactedOf(Some(typ)))
  }

  ghost predicate RequestSide(outcomes: seq<Outcome>, t: Tally) {
    && t.joined == HowMany(outcomes, WasJoined()) && t.joined + t.orphans == HowMany(outcomes, WentThrough())
    && t.responseLeaks == Values(outcomes, ReplyLeakOf())
  }

  lemma KnownFate(o: Outcome, sp: TruthSpan)
    ensures !(LeakedOf(None)(o, sp) && CaughtValue()(o, sp))
    ensures KnownValue()(o, sp) <==> LeakedOf(None)(o, sp) || CaughtValue()(o, sp)
  {
    assert LeakedOf(None)(o, sp) <==> Leaked(o, sp);
    assert CaughtValue()(o, sp) <==> Caught(o, sp);
    assert KnownValue()(o, sp) <==> !Unknown(o);
  }

  lemma LeakedOrCaught(outcomes: seq<Outcome>)
    ensures Values(outcomes, KnownValue()) == Values(outcomes, LeakedOf(None)) + Values(outcomes, CaughtValue())
  {
    forall o, sp ensures !(LeakedOf(None)(o, sp) && CaughtValue()(o, sp))
                      && (KnownValue()(o, sp) <==> LeakedOf(None)(o, sp) || CaughtValue()(o, sp))
    {
      KnownFate(o, sp);
    }
    ValuesAdd(outcomes, LeakedOf(None), CaughtValue(), KnownValue());
  }

  lemma ThreeWays(outcomes: seq<Outcome>)
    ensures Values(outcomes, AnyValue())
         == Values(outcomes, LeakedOf(None)) + Values(outcomes, CaughtValue()) + Values(outcomes, UnknownValue())
  {
    LeakedOrCaught(outcomes);
    ValuesAdd(outcomes, KnownValue(), UnknownValue(), AnyValue());
  }

  lemma CountersCount(outcomes: seq<Outcome>, k: Kind)
    ensures CountKind(RunMarks(outcomes, |outcomes|), k)
         == match k
            case LeakKind => Values(outcomes, LeakedOf(None))
            case HitKind => Values(outcomes, ReportedOf(None))
            case MissedKind => Values(outcomes, MissedOf(None))
            case FalseKind => Falses(outcomes, RedactedOf(None))
  {
    KindIsCount(RunMarks(outcomes, |outcomes|), k);
    KindCounts(outcomes, k, None);
  }

  lemma TotalsCount(outcomes: seq<Outcome>)
    ensures var s := TotalsOf(outcomes, |outcomes|);
      && s.seeded == Values(outcomes, AnyValue()) && s.unverified == Values(outcomes, UnknownValue())
      && s.sent == HowMany(outcomes, WentThrough()) && s.joined == HowMany(outcomes, WasJoined())
      && s.replyLeaks == Values(outcomes, ReplyLeakOf())
  {
    SeededIsCount(outcomes, |outcomes|);
    RequestsCount(outcomes, |outcomes|);
    assert outcomes[..|outcomes|] == outcomes;
  }

  lemma MarksTell(start: Tally, outcomes: seq<Outcome>, t: Tally, marks: seq<Mark>)
    requires start.Blank() && Scored(start, outcomes, |outcomes|, t) && marks == RunMarks(outcomes, |outcomes|)
    ensures t.total - t.caught == CountKind(marks, LeakKind) && t.tp == CountKind(marks, HitKind)
    ensures t.fn == CountKind(marks, MissedKind) && t.fp == CountKind(marks, FalseKind)
    ensures Tallies(t.byType, marks)
  {
    RunEntered(Books(start), outcomes, |outcomes|);
    LedgerCounts(Books(start), marks);
    LedgerTallies(Books(start), marks);
  }

  /**
   * The score of a run, told from its outcomes: a value that stands in the upstream's capture is
   * leaked, one that does not, or whose request was blocked without a capture, is caught, of the
   * others nothing is known; a value is recalled exactly if some redaction of its type touches
   * it, and a redaction is false exactly if it is for no value the first such one.
   */
  lemma ScoreCounts(start: Tally, outcomes: seq<Outcome>, t: Tally)
    requires start.Blank() && Scored(start, outcomes, |outcomes|, t)
    ensures BehavioralSide(outcomes, t) && ReportedSide(outcomes, t) && RequestSide(outcomes, t)
  {
    MarksTell(start, outcomes, t, RunMarks(outcomes, |outcomes|));
    CountersCount(outcomes, LeakKind);
    CountersCount(outcomes, HitKind);
    CountersCount(outcomes, MissedKind);
    CountersCount(outcomes, FalseKind);
    TotalsCount(outcomes);
    ThreeWays(outcomes);
  }

  /** The same for the values and redactions of each type. */
  lemma TypeScoreCounts(start: Tally, outcomes: seq<Outcome>, t: Tally, typ: string)
    requires start.Blank() && Scored(start, outcomes, |outcomes|, t)
    ensures TypeSide(outcomes, t, typ)
  {
    var marks := RunMarks(outcomes, |outcomes|);
    MarksTell(start, outcomes, t, marks);
    TypedIsCount(marks, Leak(typ));
    TypedIsCount(marks, Hit(typ));
    TypedIsCount(marks, Missed(typ));
    TypedIsCount(marks, False(typ));
    KindCounts(outcomes, LeakKind, Some(typ));
    KindCounts(outcomes, HitKind, Some(typ));
    KindCounts(outcomes, MissedKind, Some(typ));
    KindCounts(outcomes, FalseKind, Some(typ));
  }

  /**
   * Behavioral recall is one if no capture contains a seeded value and something was verified, and
   * less if one does.
   */
  lemma PerfectExactly(start: Tally, outcomes: seq<Outcome>, t: Tally)
    requires start.Blank() && Scored(start, outcomes, |outcomes|, t)
    requires exists o, sp :: o in outcomes && o.err == "" && sp in o.truth && !Unknown(o)
    ensures t.total > 0
    ensures Ratio(t.caught, t.total) == 1.0 <==>
              forall o, sp :: o in outcomes && o.err == "" && sp in o.truth && o.capture.Some?
                ==> !Contains(o.capture.value, sp.value)
  {
    ScoreCounts(start, outcomes, t);
    ScoreConserves(start, outcomes, t);
    NoneLeaked(outcomes);
    SomethingKnown(outcomes);
  }

  lemma NoneLeaked(outcomes: seq<Outcome>)
    ensures Values(outcomes, LeakedOf(None)) == 0 <==>
              forall o, sp :: o in outcomes && o.err == "" && sp in o.truth && o.capture.Some?
                ==> !Contains(o.capture.value, sp.value)
  {
    SumOverZeroExactly(outcomes, ValuesIn(LeakedOf(None)));
    forall o | o in outcomes ensures ValuesIn(LeakedOf(None))(o) == 0 <==>
                               (o.err == "" ==> forall sp :: sp in o.truth ==> !Leaked(o, sp))
    {
      NoneExactly(o.truth, At(LeakedOf(None), o));
    }
  }

  lemma SomethingKnown(outcomes: seq<Outcome>)
    requires exists o, sp :: o in outcomes && o.err == "" && sp in o.truth && !Unknown(o)
    ensures Values(outcomes, LeakedOf(None)) + Values(outcomes, CaughtValue()) > 0
  {
    var o, sp :| o in outcomes && o.err == "" && sp in o.truth && !Unknown(o);
    LeakedOrCaught(outcomes);
    NoneExactly(o.truth, At(KnownValue(), o));
    assert At(KnownValue(), o)(sp);
    SumOverZeroExactly(outcomes, ValuesIn(KnownValue()));
  }

  // ---- rows and engines ----

  ghost function ByEngine(d: string): Outcome -> nat {
    (o: Outcome) => if o.err == "" then HowMany(o.Redactions(), (r: Redacted) => r.detector == d) else 0
  }

  lemma {:induction false} DetectorsCount(reds: seq<Redacted>, n: nat, d: string)
    requires n <= |reds|
    ensures HowMany(Detectors(reds, n), Equals(d)) == HowMany(reds[..n], (r: Redacted) => r.detector == d)
  {
    if n == 0 {
      assert reds[..n] == [];
    } else {
      DetectorsCount(reds, n - 1, d);
      assert reds[..n] == reds[..n - 1] + [reds[n - 1]];
      HowManySnoc(reds[..n - 1], reds[n - 1], (r: Redacted) => r.detector == d);
      HowManySnoc(Detectors(reds, n - 1), reds[n - 1].detector, Equals(d));
    }
  }

  lemma {:induction false} RunDetectorsCount(outcomes: seq<Outcome>, n: nat, d: string)
    requires n <= |outcomes|
    ensures HowMany(RunDetectors(outcomes, n), Equals(d)) == SumOver(outcomes[..n], ByEngine(d))
  {
    if n == 0 {
      assert outcomes[..n] == [];
    } else {
      RunDetectorsCount(outcomes, n - 1, d);
      var o := outcomes[n - 1];
      assert outcomes[..n] == outcomes[..n - 1] + [o];
      SumOverSnoc(outcomes[..n - 1], o, ByEngine(d));
      DetectorsCount(o.Redactions(), |o.Redactions()|, d);
      assert o.Redactions()[..|o.Redactions()|] == o.Redactions();
      HowManyConcat(RunDetectors(outcomes, n - 1),
                    if o.Failed() then [] else Detectors(o.Redactions(), |o.Redactions()|),
                    Equals(d));
    }
  }

  /** The engine table counts the redactions of each engine over the requests that went through. */
  lemma EngineCounts(start: Tally, outcomes: seq<Outcome>, t: Tally, d: string)
    requires start.Blank() && Scored(start, outcomes, |outcomes|, t)
    ensures CountFor(t.byEngine, d) == SumOver(outcomes, ByEngine(d))
  {
    ScoreConserves(start, outcomes, t);
    RunDetectorsCount(outcomes, |outcomes|, d);
    HowManyIsMultiplicity(RunDetectors(outcomes, |outcomes|), d);
    assert outcomes[..|outcomes|] == outcomes;
  }

  lemma {:induction false} LeakMarksAre(o: Outcome, n: nat, typ: string)
    requires n <= |o.truth|
    ensures Leak(typ) in LeakMarks(o, n) <==> exists j :: 0 <= j < n && o.truth[j].typ == typ && Leaked(o, o.truth[j])
    ensures Missed(typ) !in LeakMarks(o, n)
  {
    if n == 0 {
    } else {
      LeakMarksAre(o, n - 1, typ);
    }
  }

  lemma {:induction false} TruthMarksAre(o: Outcome, n: nat, typ: string)
    requires n <= |o.truth|
    ensures Missed(typ) in TruthMarks(o, n)
            <==> exists j :: 0 <= j < n && o.truth[j].typ == typ && !Reported(o, o.truth[j])
    ensures Leak(typ) !in TruthMarks(o, n)
  {
    if n == 0 {
    } else {
      TruthMarksAre(o, n - 1, typ);
      MatchesIsReported(o, o.truth[n - 1]);
    }
  }

  /** A request's row lists a type as missed exactly if some value of it leaked or was not reported. */
  lemma RowTells(o: Outcome, typ: string)
    requires o.err == ""
    ensures RowOf(o).redactions == (if o.report.Some? then o.report.value.redactions else [])
    ensures RowOf(o).action == if o.report.Some? then o.report.value.action else if o.status == 400 then "block" else ""
    ensures typ in RowOf(o).missedTypes <==>
              exists j :: 0 <= j < |o.truth| && o.truth[j].typ == typ
                && (Leaked(o, o.truth[j]) || !Reported(o, o.truth[j]))
  {
    MissedTypesMeaning(LeakMarks(o, |o.truth|) + TruthMarks(o, |o.truth|));
    LeakMarksAre(o, |o.truth|, typ);
    TruthMarksAre(o, |o.truth|, typ);
  }

  // ---- traps ----

  ghost function Touches(red: Redacted): TruthSpan -> bool {
    (trap: TruthSpan) => red.start < trap.end && trap.start < red.end
  }

  lemma {:induction false} TrapsHitIsCount(red: Redacted, traps: seq<TruthSpan>)
    ensures TrapsHit(red, traps) == HowMany(traps, Touches(red))
  {
    if traps == [] {
    } else {
      TrapsHitIsCount(red, traps[..|traps| - 1]);
    }
  }

  /** The traps that the i-th redaction touches, if it is unclaimed. */
  ghost function TrapsAt(o: Outcome): nat -> nat {
    (i: nat) => if i < |o.Redactions()| && Unclaimed(o, i) then HowMany(o.traps, Touches(o.Redactions()[i])) else 0
  }

  ghost function TrapSums(o: Outcome): nat -> nat {
    (n: nat) => if n <= |o.Redactions()| then FalseTraps(o, n) else 0
  }

  lemma TrapSumsGrow(o: Outcome, i: nat)
    requires i < |o.Redactions()|
    ensures TrapSums(o)(i + 1) == TrapSums(o)(i) + TrapsAt(o)(i)
  {
    UnmatchedIsUnclaimed(o, i);
    TrapsHitIsCount(o.Redactions()[i], o.traps);
  }

  lemma FalseTrapsCount(o: Outcome)
    ensures FalseTraps(o, |o.Redactions()|) == SumBelow(|o.Redactions()|, TrapsAt(o))
  {
    forall i: nat | i < |o.Redactions()| ensures TrapSums(o)(i + 1) == TrapSums(o)(i) + TrapsAt(o)(i) {
      TrapSumsGrow(o, i);
    }
    SumsUpTo(|o.Redactions()|, TrapsAt(o), TrapSums(o));
  }

  ghost function TrapsIn(): Outcome -> nat {
    (o: Outcome) => if o.err == "" then SumBelow(|o.Redactions()|, TrapsAt(o)) else 0
  }

  lemma {:induction false} RunTrapsCount(outcomes: seq<Outcome>, n: nat)
    requires n <= |outcomes|
    ensures TotalsOf(outcomes, n).falseTraps == SumOver(outcomes[..n], TrapsIn())
  {
    if n == 0 {
      assert outcomes[..n] == [];
    } else {
      RunTrapsCount(outcomes, n - 1);
      var o := outcomes[n - 1];
      assert outcomes[..n] == outcomes[..n - 1] + [o];
      SumOverSnoc(outcomes[..n - 1], o, TrapsIn());
      FalseTrapsCount(o);
    }
  }

  /** Traps are counted once for each unclaimed redaction that touches them. */
  lemma TrapCounts(start: Tally, outcomes: seq<Outcome>, t: Tally)
    requires start.Blank() && Scored(start, outcomes, |outcomes|, t)
    ensures t.trapFPs == SumOver(outcomes, TrapsIn())
  {
    RunTrapsCount(outcomes, |outcomes|);
    assert outcomes[..|outcomes|] == outcomes;
  }
}
