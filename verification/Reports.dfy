/**
 * Shipping request reports upward (internal/gateway/audit.go, internal/gateway/spine_emit.go):
 * a bounded ring, drained, pushed in chunks, and put back when a push fails.
 */
module Reports {
  import opened Common

  const RING_MAX := 5000
  const CHUNK := 1000

  function AddedTo<T>(buf: seq<T>, r: T): seq<T> {
    var next := buf + [r];
    if |next| > RING_MAX then next[|next| - RING_MAX..] else next
  }

  function RequeuedTo<T>(reports: seq<T>, buf: seq<T>): seq<T> {
    var next := reports + buf;
    if |next| > RING_MAX then next[..RING_MAX] else next
  }

  /** How the control plane answered one push: the status it returned, or no answer at all. */
  datatype Answer = Status(code: int) | NoAnswer
  {
    predicate Accepted() { Status? && code < 300 }

    /** Malformed or too large: the same body will never be accepted. */
    predicate Unacceptable() { Status? && !Accepted() && (code == 400 || code == 413) }
  }

  class AuditRing<T> {
    var buf: seq<T>

    constructor ()
      ensures buf == []
    {
      buf := [];
    }

    method Add(r: T)
      modifies this
      ensures buf == AddedTo(old(buf), r)
      ensures |old(buf)| <= RING_MAX ==>
        && |buf| == Min(|old(buf)| + 1, RING_MAX) && buf[|buf| - 1] == r
        && buf[..|buf| - 1] == old(buf)[|old(buf)| + 1 - |buf|..]
    {
      buf := buf + [r];
      if |buf| > RING_MAX {
        buf := buf[|buf| - RING_MAX..];
      }
    }

    method Drain() returns (out: seq<T>)
      modifies this
      ensures out == old(buf) && buf == []
    {
      out := buf;
      buf := [];
    }

    /** Puts reports back at the front; what does not fit is cut at the new end. */
    method Requeue(reports: seq<T>)
      modifies this
      ensures buf == RequeuedTo(reports, old(buf))
      ensures |reports| <= RING_MAX ==> reports <= buf <= reports + old(buf)
      ensures |buf| == Min(|reports| + |old(buf)|, RING_MAX)
    {
      buf := reports + buf;
      if |buf| > RING_MAX {
        buf := buf[..RING_MAX];
      }
    }

    /**
     * One push with nothing added meanwhile. answers(k) is the answer to the k-th chunk. Every
     * report of the ring was accepted, was rejected for good, or is back in the ring, in order;
     * the first answer that is neither stops the push.
     */
    method PushReports(answers: nat -> Answer) returns (sent: seq<T>, dropped: seq<T>, ghost rounds: nat)
      modifies this
      ensures Answered(old(buf), answers, rounds)
      ensures sent == SentIn(old(buf), answers, rounds) && dropped == DroppedIn(old(buf), answers, rounds)
      ensures buf == RequeuedTo(old(buf)[Upto(old(buf), rounds)..], [])
      ensures rounds * CHUNK < |old(buf)| ==> !answers(rounds).Accepted() && !answers(rounds).Unacceptable()
    {
      var reports := Drain();
      sent, dropped, rounds := [], [], 0;
      if |reports| == 0 {
        return;
      }
      var start, k := 0, 0;
      while start < |reports|
        invariant start == k * CHUNK && rounds == k && buf == [] && Answered(reports, answers, k)
        invariant sent == SentIn(reports, answers, k) && dropped == DroppedIn(reports, answers, k)
        decreases |reports| - start
      {
        var end := Min(start + CHUNK, |reports|);
        var chunk := reports[start..end];
        assert chunk == ChunkAt(reports, k);
        var answer := answers(k);
        if answer.Accepted() {
          sent := sent + chunk;
        } else if answer.Unacceptable() {
          dropped := dropped + chunk;
        } else {
          Requeue(reports[start..]);
          return;
        }
        start := start + CHUNK;
        k := k + 1;
        rounds := k;
      }
    }
  }

  /**
   * What each answer means: below 300 delivered, 400 and 413 lost for good, any other and none at
   * all to be tried again.
   */
  lemma FateByStatus(answer: Answer)
    ensures answer.Accepted() <==> answer.Status? && answer.code < 300
    ensures answer.Unacceptable() <==> answer == Status(400) || answer == Status(413)
    ensures !answer.Accepted() && !answer.Unacceptable() <==>
              answer == NoAnswer || (answer.code >= 300 && answer.code != 400 && answer.code != 413)
  {
  }

  /** The fate of the k-th chunk of a push, by the answers: sent, dropped, or back in the ring. */
  lemma ChunkFate<T>(reports: seq<T>, answers: nat -> Answer, rounds: nat, k: nat, x: T)
    requires Answered(reports, answers, rounds) && k * CHUNK < |reports| && x in ChunkAt(reports, k)
    requires rounds * CHUNK < |reports| ==> !answers(rounds).Accepted() && !answers(rounds).Unacceptable()
    ensures k < rounds
            ==> answers(k).Status? && (answers(k).code < 300 || answers(k).code == 400 || answers(k).code == 413)
    ensures k == rounds ==>
              answers(k) == NoAnswer || (answers(k).code >= 300 && answers(k).code != 400 && answers(k).code != 413)
    ensures k < rounds && answers(k).code < 300 ==> x in SentIn(reports, answers, rounds)
    ensures k < rounds && answers(k).code >= 300 ==> x in DroppedIn(reports, answers, rounds)
    ensures k >= rounds ==> x in reports[Upto(reports, rounds)..]
  {
    if k < rounds {
      ChunkAccounted(reports, answers, rounds, k);
    } else {
      var c := ChunkAt(reports, k);
      var i :| 0 <= i < |c| && c[i] == x;
      assert reports[Upto(reports, rounds)..][Upto(reports, k) - Upto(reports, rounds) + i] == x;
    }
  }

  lemma {:induction false} ChunkAccounted<T>(reports: seq<T>, answers: nat -> Answer, rounds: nat, k: nat)
    requires k < rounds
    ensures answers(k).Accepted() ==> forall x :: x in ChunkAt(reports, k) ==> x in SentIn(reports, answers, rounds)
    ensures answers(k).Unacceptable()
            ==> forall x :: x in ChunkAt(reports, k) ==> x in DroppedIn(reports, answers, rounds)
  {
    if k == rounds - 1 {
    } else {
      ChunkAccounted(reports, answers, rounds - 1, k);
    }
  }

  /** The first k chunks exist and were each accepted or rejected for good. */
  ghost predicate Answered<T>(reports: seq<T>, answers: nat -> Answer, k: nat) {
    && (k == 0 || (k - 1) * CHUNK < |reports|)
    && forall j :: 0 <= j < k ==> answers(j).Accepted() || answers(j).Unacceptable()
  }

  /** Where the first k chunks end. */
  function Upto<T>(reports: seq<T>, k: nat): nat { Min(k * CHUNK, |reports|) }

  function ChunkAt<T>(reports: seq<T>, k: nat): seq<T> { reports[Upto(reports, k)..Upto(reports, k + 1)] }

  /** The chunks among the first k that the control plane accepted, in order. */
  function SentIn<T>(reports: seq<T>, answers: nat -> Answer, k: nat): seq<T> {
    if k == 0 then []
    else SentIn(reports, answers, k - 1) + if answers(k - 1).Accepted() then ChunkAt(reports, k - 1) else []
  }

  /** The chunks among the first k that it will never accept. */
  function DroppedIn<T>(reports: seq<T>, answers: nat -> Answer, k: nat): seq<T> {
    if k == 0 then []
    else DroppedIn(reports, answers, k - 1) + if answers(k - 1).Unacceptable() then ChunkAt(reports, k - 1) else []
  }

  lemma ChunkFollows<T>(reports: seq<T>, k: nat)
    ensures reports[..Upto(reports, k + 1)] == reports[..Upto(reports, k)] + ChunkAt(reports, k)
  {
  }

  lemma OneChunkAnswered<T>(reports: seq<T>, answers: nat -> Answer, k: nat)
    requires answers(k).Accepted() || answers(k).Unacceptable()
    ensures SentIn(reports, answers, k + 1)
            == SentIn(reports, answers, k) + (if answers(k).Accepted() then ChunkAt(reports, k) else [])
    ensures DroppedIn(reports, answers, k + 1)
            == DroppedIn(reports, answers, k) + (if answers(k).Accepted() then [] else ChunkAt(reports, k))
  {
  }

  function CountIn<T(==)>(s: seq<T>, x: T): nat {
    if s == [] then 0 else CountIn(s[..|s| - 1], x) + if s[|s| - 1] == x then 1 else 0
  }

  lemma {:induction false} CountConcat<T>(a: seq<T>, b: seq<T>, x: T)
    ensures CountIn(a + b, x) == CountIn(a, x) + CountIn(b, x)
    decreases |b|
  {
    if |b| == 0 {
      assert a + b == a;
    } else {
      assert (a + b)[..|a + b| - 1] == a + b[..|b| - 1];
      CountConcat(a, b[..|b| - 1], x);
    }
  }

  lemma OneChunkCounted<T>(sent: seq<T>, dropped: seq<T>, before: seq<T>, chunk: seq<T>, accepted: bool, x: T)
    requires CountIn(sent, x) + CountIn(dropped, x) == CountIn(before, x)
    ensures CountIn(sent + if accepted then chunk else [], x) + CountIn(dropped + if accepted then [] else chunk, x)
         == CountIn(before + chunk, x)
  {
    CountConcat(sent, if accepted then chunk else [], x);
    CountConcat(dropped, if accepted then [] else chunk, x);
    CountConcat(before, chunk, x);
  }

  /** x was sent or dropped as often as it stands in the first k chunks. */
  ghost predicate Settled<T>(reports: seq<T>, answers: nat -> Answer, k: nat, x: T) {
    CountIn(SentIn(reports, answers, k), x) + CountIn(DroppedIn(reports, answers, k), x)
      == CountIn(reports[..Upto(reports, k)], x)
  }

  lemma SettledNext<T>(reports: seq<T>, answers: nat -> Answer, k: nat, next: nat, x: T)
    requires next == k + 1 && Settled(reports, answers, k, x) && (answers(k).Accepted() || answers(k).Unacceptable())
    ensures Settled(reports, answers, next, x)
  {
    ChunkFollows(reports, k);
    OneChunkAnswered(reports, answers, k);
    OneChunkCounted(SentIn(reports, answers, k), DroppedIn(reports, answers, k), reports[..Upto(reports, k)],
                    ChunkAt(reports, k), answers(k).Accepted(), x);
  }

  lemma AnsweredBefore<T>(reports: seq<T>, answers: nat -> Answer, k: nat, next: nat)
    requires next == k + 1 && Answered(reports, answers, next)
    ensures Answered(reports, answers, k) && (answers(k).Accepted() || answers(k).Unacceptable())
  {
  }

  lemma SettledAtStart<T>(reports: seq<T>, answers: nat -> Answer, x: T)
    ensures Settled(reports, answers, 0, x)
  {
    assert reports[..0] == [];
  }

  /** Every report of an answered chunk is sent or dropped, as often as it stands there. */
  lemma {:induction false} AnsweredPartition<T>(reports: seq<T>, answers: nat -> Answer, k: nat, x: T)
    requires Answered(reports, answers, k)
    ensures Settled(reports, answers, k, x)
  {
    if k == 0 {
      SettledAtStart(reports, answers, x);
    } else {
      var before := k - 1;
      AnsweredBefore(reports, answers, before, k);
      AnsweredPartition(reports, answers, before, x);
      SettledNext(reports, answers, before, k, x);
    }
  }

  // ---- every interleaving of adds and pushes ----

  /** A report with its arrival number. The ring never looks at either. */
  datatype Entry<R> = Entry(no: nat, report: R)

  /**
   * The gateway's side of the spine: everything ever added, the ring, the drained reports not
   * yet answered for, and the arrival numbers whose fate is settled.
   */
  datatype State<R> = State(added: seq<R>, buf: seq<Entry<R>>, inflight: seq<Entry<R>>,
                            delivered: set<nat>, rejected: set<nat>, overflowed: set<nat>)

  datatype Step<R> = Add(r: R) | Drain | ChunkAccepted | ChunkRejected | ChunkFailed

  ghost function Nos<R>(s: seq<Entry<R>>): set<nat> { set e | e in s :: e.no }

  ghost function Empty<R>(): State<R> { State([], [], [], {}, {}, {}) }

  function ChunkLen<R>(s: State<R>): nat { Min(CHUNK, |s.inflight|) }

  /** One step. A drain waits for the previous push to end; adds never wait. */
  ghost function Apply<R>(s: State<R>, step: Step<R>): State<R> {
    var n := ChunkLen(s);
    match step
    case Add(r) =>
      var e := Entry(|s.added|, r);
      var lost := Nos(s.buf + [e]) - Nos(AddedTo(s.buf, e));
      s.(added := s.added + [r], buf := AddedTo(s.buf, e), overflowed := s.overflowed + lost)
    case Drain =>
      if s.inflight == [] then s.(inflight := s.buf, buf := []) else s
    case ChunkAccepted =>
      s.(delivered := s.delivered + Nos(s.inflight[..n]), inflight := s.inflight[n..])
    case ChunkRejected =>
      s.(rejected := s.rejected + Nos(s.inflight[..n]), inflight := s.inflight[n..])
    case ChunkFailed =>
      var lost := Nos(s.inflight + s.buf) - Nos(RequeuedTo(s.inflight, s.buf));
      s.(buf := RequeuedTo(s.inflight, s.buf), inflight := [], overflowed := s.overflowed + lost)
  }

  ghost function Run<R>(s: State<R>, steps: seq<Step<R>>): State<R>
    decreases |steps|
  {
    if steps == [] then s else Run(Apply(s, steps[0]), steps[1..])
  }

  function Waiting<R>(s: State<R>): seq<Entry<R>> { s.inflight + s.buf }

  ghost predicate Increasing<R>(entries: seq<Entry<R>>) {
    forall i, j :: 0 <= i < j < |entries| ==> entries[i].no < entries[j].no
  }

  /** Every entry stands for the report added under its number. */
  ghost predicate Genuine<R>(entries: seq<Entry<R>>, added: seq<R>) {
    forall e :: e in entries ==> e.no < |added| && added[e.no] == e.report
  }

  ghost function Numbers(n: nat): (r: set<nat>)
    ensures forall i: nat :: i in r <==> i < n
  {
    if n == 0 then {} else Numbers(n - 1) + {n - 1}
  }

  /** Every arrival has exactly one of the four fates. */
  ghost predicate Accounted<R>(s: State<R>) {
    var w := Nos(Waiting(s));
    && s.delivered !! s.rejected !! s.overflowed !! w
    && s.delivered + s.rejected + s.overflowed + w == Numbers(|s.added|)
  }

  ghost predicate Conserved<R>(s: State<R>) {
    && |s.buf| <= RING_MAX && |s.inflight| <= RING_MAX
    && Increasing(Waiting(s))
    && Genuine(Waiting(s), s.added)
    && Accounted(s)
  }

  lemma NosConcat<R>(a: seq<Entry<R>>, b: seq<Entry<R>>)
    ensures Nos(a + b) == Nos(a) + Nos(b)
  {
    forall n ensures n in Nos(a + b) <==> n in Nos(a) + Nos(b) {
      if n in Nos(a) { var e :| e in a && e.no == n; assert e in a + b; }
      if n in Nos(b) { var e :| e in b && e.no == n; assert e in a + b; }
    }
  }

  /** Increasing lists joined without overlap have disjoint numbers. */
  lemma JoinSeparates<R>(a: seq<Entry<R>>, b: seq<Entry<R>>)
    requires Increasing(a + b)
    ensures Nos(a) !! Nos(b) && Increasing(a) && Increasing(b)
  {
    var w := a + b;
    forall i, j | 0 <= i < j < |a| ensures a[i].no < a[j].no { assert w[i].no < w[j].no; }
    forall i, j | 0 <= i < j < |b| ensures b[i].no < b[j].no { assert w[|a| + i].no < w[|a| + j].no; }
    forall n | n in Nos(a) ensures n !in Nos(b) {
      var e :| e in a && e.no == n;
      var i :| 0 <= i < |a| && a[i] == e;
      forall f | f in b ensures f.no != n {
        var j :| 0 <= j < |b| && b[j] == f;
        assert w[i].no < w[|a| + j].no;
      }
    }
  }

  /** Fates after the numbers x leave the waiting ones for the first of three settled sets. */
  lemma Settle(a: set<nat>, b: set<nat>, c: set<nat>, x: set<nat>, w: set<nat>)
    requires a !! b !! c !! x + w && x !! w
    ensures a + x !! b !! c !! w && a + x + b + c + w == a + b + c + (x + w)
  {
  }

  /** A prefix of the waiting reports is settled, the rest goes on waiting. */
  lemma PrefixLeaves<R>(s: State<R>, x: seq<Entry<R>>, rest: seq<Entry<R>>)
    requires Conserved(s) && Waiting(s) == x + rest
    ensures Increasing(rest) && Genuine(rest, s.added) && Nos(Waiting(s)) == Nos(x) + Nos(rest) && Nos(x) !! Nos(rest)
    ensures Increasing(x) && Genuine(x, s.added)
  {
    NosConcat(x, rest);
    JoinSeparates(x, rest);
    forall e | e in rest ensures e in Waiting(s) {}
    forall e | e in x ensures e in Waiting(s) {}
  }

  lemma ChunkConserves<R>(s: State<R>, step: Step<R>)
    requires Conserved(s) && (step.ChunkAccepted? || step.ChunkRejected?)
    ensures Conserved(Apply(s, step))
  {
    var n := ChunkLen(s);
    var s' := Apply(s, step);
    var x, rest := s.inflight[..n], Waiting(s');
    assert Waiting(s) == x + rest;
    PrefixLeaves(s, x, rest);
    if step.ChunkAccepted? {
      Settle(s.delivered, s.rejected, s.overflowed, Nos(x), Nos(rest));
    } else {
      Settle(s.rejected, s.delivered, s.overflowed, Nos(x), Nos(rest));
    }
  }

  lemma FailConserves<R>(s: State<R>)
    requires Conserved(s)
    ensures Conserved(Apply(s, ChunkFailed))
  {
    var s' := Apply(s, ChunkFailed);
    var w := Waiting(s);
    var k := Min(RING_MAX, |w|);
    var kept, lost := w[..k], w[k..];
    assert w == kept + lost && s'.buf == kept && Waiting(s') == kept;
    PrefixLeaves(s, kept, lost);
    assert s'.overflowed == s.overflowed + Nos(lost);
    Settle(s.overflowed, s.delivered, s.rejected, Nos(lost), Nos(kept));
  }

  /** The newcomer's number is larger than every number seen so far. */
  lemma ArrivalIsNew<R>(s: State<R>, e: Entry<R>)
    requires Conserved(s) && e.no == |s.added|
    ensures Increasing(Waiting(s) + [e]) && Genuine(Waiting(s) + [e], s.added + [e.report])
    ensures Nos(Waiting(s) + [e]) == Nos(Waiting(s)) + {e.no} && e.no !in Numbers(|s.added|)
  {
    var w := Waiting(s);
    forall i | 0 <= i < |w| ensures w[i].no < e.no { assert w[i] in w; }
    NosConcat(w, [e]);
    assert Nos([e]) == {e.no};
  }

  /** Arrival before anything is cut. */
  lemma ArrivalConserves<R>(s: State<R>, e: Entry<R>)
    requires Conserved(s) && e.no == |s.added|
    ensures var s1 := s.(added := s.added + [e.report], buf := s.buf + [e]);
      Increasing(Waiting(s1)) && Genuine(Waiting(s1), s1.added) && Accounted(s1)
  {
    var s1 := s.(added := s.added + [e.report], buf := s.buf + [e]);
    ArrivalIsNew(s, e);
    assert Waiting(s1) == Waiting(s) + [e];
    assert Numbers(|s1.added|) == Numbers(|s.added|) + {e.no};
  }

  lemma DropOldest<R>(inflight: seq<Entry<R>>, all: seq<Entry<R>>, cut: nat)
    requires Increasing(inflight + all) && cut <= |all|
    ensures Increasing(inflight + all[cut..])
    ensures Nos(inflight + all) == Nos(all[..cut]) + Nos(inflight + all[cut..])
            && Nos(all[..cut]) !! Nos(inflight + all[cut..])
    ensures Nos(all) - Nos(all[cut..]) == Nos(all[..cut])
  {
    var x, rest := all[..cut], all[cut..];
    assert all == x + rest && inflight + all == (inflight + x) + rest && (inflight + x) + rest == inflight + (x + rest);
    NosConcat(x, rest);
    NosConcat(inflight, all);
    NosConcat(inflight, rest);
    JoinSeparates(inflight, all);
    JoinSeparates(x, rest);
    SubIncreasing(inflight, all, cut);
  }

  lemma SubIncreasing<R>(inflight: seq<Entry<R>>, all: seq<Entry<R>>, cut: nat)
    requires Increasing(inflight + all) && cut <= |all|
    ensures Increasing(inflight + all[cut..])
  {
    var w, w' := inflight + all, inflight + all[cut..];
    forall i, j | 0 <= i < j < |w'| ensures w'[i].no < w'[j].no {
      var i', j' := if i < |inflight| then i else i + cut, if j < |inflight| then j else j + cut;
      assert w[i'].no < w[j'].no;
    }
  }

  lemma AddConserves<R>(s: State<R>, r: R)
    requires Conserved(s)
    ensures Conserved(Apply(s, Step.Add(r)))
  {
    var e := Entry(|s.added|, r);
    var s' := Apply(s, Step.Add(r));
    var all := s.buf + [e];
    var cut := if |all| > RING_MAX then 1 else 0;
    assert s'.buf == all[cut..];
    ArrivalConserves(s, e);
    var s1 := s.(added := s.added + [r], buf := all);
    DropOldest(s.inflight, all, cut);
    assert s'.overflowed == s.overflowed + Nos(all[..cut]);
    Settle(s.overflowed, s.delivered, s.rejected, Nos(all[..cut]), Nos(Waiting(s')));
    forall x | x in Waiting(s') ensures x in Waiting(s1) {}
  }

  lemma StepConserves<R>(s: State<R>, step: Step<R>)
    requires Conserved(s)
    ensures Conserved(Apply(s, step))
  {
    match step {
      case Add(r) => AddConserves(s, r);
      case Drain => assert s.inflight == [] ==> s.inflight + s.buf == s.buf && s.buf + [] == s.buf;
      case ChunkFailed => FailConserves(s);
      case _ => ChunkConserves(s, step);
    }
  }

  /** A report is given up only when a chunk is rejected, or the ring is full. */
  lemma LossOnlyByRejectionOrOverflow<R>(s: State<R>, step: Step<R>)
    requires Conserved(s)
    ensures Apply(s, step).rejected != s.rejected ==> step.ChunkRejected?
    ensures Apply(s, step).overflowed != s.overflowed ==>
              (step.Add? && |s.buf| == RING_MAX) || (step.ChunkFailed? && |s.inflight| + |s.buf| > RING_MAX)
    ensures Apply(s, step).delivered != s.delivered ==> step.ChunkAccepted?
  {
  }

  /**
   * Over every sequence of adds, drains and answers, in any interleaving: the ring holds at
   * most 5000 reports, in the order they were added, and every report added is waiting, was
   * accepted, was rejected for good, or fell out of a full ring, never two of these.
   */
  lemma {:induction false} RunConserves<R>(s: State<R>, steps: seq<Step<R>>)
    requires Conserved(s)
    ensures Conserved(Run(s, steps))
    decreases |steps|
  {
    if steps == [] {
    } else {
      StepConserves(s, steps[0]);
      RunConserves(Apply(s, steps[0]), steps[1..]);
    }
  }

  lemma EveryRunConserves<R>(steps: seq<Step<R>>)
    ensures Conserved(Run(Empty<R>(), steps))
  {
    RunConserves(Empty<R>(), steps);
  }

  lemma RingPlaces<R>(s: State<R>) returns (at: seq<nat>)
    requires Conserved(s)
    ensures |s.buf| <= RING_MAX && |at| == |s.buf|
    ensures forall i, j :: 0 <= i < j < |at| ==> at[i] < at[j]
    ensures forall i :: 0 <= i < |at| ==> at[i] < |s.added| && s.added[at[i]] == s.buf[i].report
  {
    JoinSeparates(s.inflight, s.buf);
    at := seq(|s.buf|, i requires 0 <= i < |s.buf| => s.buf[i].no);
    forall i | 0 <= i < |at| ensures at[i] < |s.added| && s.added[at[i]] == s.buf[i].report {
      assert s.buf[i] in Waiting(s);
    }
  }

  /** The ring's reports, without their numbers, are a subsequence of the reports added. */
  lemma RingIsSubsequence<R>(steps: seq<Step<R>>)
    ensures var s := Run(Empty<R>(), steps);
      && |s.buf| <= RING_MAX
      && exists at: seq<nat> ::
           && |at| == |s.buf|
           && (forall i, j :: 0 <= i < j < |at| ==> at[i] < at[j])
           && (forall i :: 0 <= i < |at| ==> at[i] < |s.added| && s.added[at[i]] == s.buf[i].report)
  {
    EveryRunConserves(steps);
    var at := RingPlaces(Run(Empty<R>(), steps));
  }

  // ---- one push as a run ----

  /** The steps of a push whose first k chunks were answered for good. */
  ghost function PushSteps<R>(answers: nat -> Answer, k: nat): seq<Step<R>> {
    if k == 0 then [Drain]
    else PushSteps(answers, k - 1) + [if answers(k - 1).Accepted() then ChunkAccepted else ChunkRejected]
  }

  lemma {:induction false} RunSnoc<R>(s: State<R>, steps: seq<Step<R>>, step: Step<R>)
    ensures Run(s, steps + [step]) == Apply(Run(s, steps), step)
    decreases |steps|
  {
    if steps == [] {
      assert (steps + [step])[1..] == [];
      assert Run(s, steps + [step]) == Run(Apply(s, step), []);
    } else {
      assert (steps + [step])[1..] == steps[1..] + [step];
      RunSnoc(Apply(s, steps[0]), steps[1..], step);
    }
  }

  /** From s, with the ring b drained: the first k chunks have met their fates, the rest waits in flight. */
  ghost predicate Pushing<R>(s: State<R>, b: seq<Entry<R>>, answers: nat -> Answer, k: nat, s': State<R>) {
    && s'.added == s.added && s'.buf == [] && s'.inflight == b[Upto(b, k)..] && s'.overflowed == s.overflowed
    && s'.delivered == s.delivered + Nos(SentIn(b, answers, k))
    && s'.rejected == s.rejected + Nos(DroppedIn(b, answers, k))
  }

  lemma PushingNext<R>(s: State<R>, b: seq<Entry<R>>, answers: nat -> Answer, k: nat, s': State<R>)
    requires Pushing(s, b, answers, k, s') && (answers(k).Accepted() || answers(k).Unacceptable())
    ensures Pushing(s, b, answers, k + 1, Apply(s', if answers(k).Accepted() then ChunkAccepted else ChunkRejected))
  {
    var n := ChunkLen(s');
    assert s'.inflight[..n] == ChunkAt(b, k) && s'.inflight[n..] == b[Upto(b, k + 1)..];
    OneChunkAnswered(b, answers, k);
    NosConcat(SentIn(b, answers, k), if answers(k).Accepted() then ChunkAt(b, k) else []);
    NosConcat(DroppedIn(b, answers, k), if answers(k).Accepted() then [] else ChunkAt(b, k));
  }

  lemma PushOneMore<R>(s: State<R>, answers: nat -> Answer, k: nat, next: nat)
    requires next == k + 1 && Pushing(s, s.buf, answers, k, Run(s, PushSteps(answers, k)))
    requires answers(k).Accepted() || answers(k).Unacceptable()
    ensures Pushing(s, s.buf, answers, next, Run(s, PushSteps(answers, next)))
  {
    PushingNext(s, s.buf, answers, k, Run(s, PushSteps(answers, k)));
    RunSnoc(s, PushSteps(answers, k), if answers(k).Accepted() then ChunkAccepted else ChunkRejected);
  }

  lemma {:induction false} PushStepsRun<R>(s: State<R>, answers: nat -> Answer, k: nat)
    requires s.inflight == [] && Answered(s.buf, answers, k)
    ensures Pushing(s, s.buf, answers, k, Run(s, PushSteps(answers, k)))
  {
    if k == 0 {
      PushBegins(s, answers, k);
    } else {
      var before := k - 1;
      AnsweredBefore(s.buf, answers, before, k);
      PushStepsRun(s, answers, before);
      PushOneMore(s, answers, before, k);
    }
  }

  lemma RunOne<R>(s: State<R>, steps: seq<Step<R>>)
    requires |steps| == 1
    ensures Run(s, steps) == Apply(s, steps[0])
  {
    var s' := Apply(s, steps[0]);
    assert |steps[1..]| == 0;
    assert Run(s', steps[1..]) == s';
  }

  lemma PushBegins<R>(s: State<R>, answers: nat -> Answer, k: nat)
    requires k == 0 && s.inflight == []
    ensures Pushing(s, s.buf, answers, k, Run(s, PushSteps(answers, k)))
  {
    RunOne(s, PushSteps(answers, k));
    assert s.buf[Upto(s.buf, k)..] == s.buf;
  }

  /**
   * One push is a run of the steps: a drain, one step per answered chunk, and a failure if some
   * chunk got neither answer. What the push sends, drops and puts back is what that run delivers,
   * rejects and leaves in the ring.
   */
  lemma PushIsRun<R>(s: State<R>, answers: nat -> Answer, rounds: nat)
    requires s.inflight == [] && |s.buf| <= RING_MAX && Answered(s.buf, answers, rounds)
    requires rounds * CHUNK < |s.buf| ==> !answers(rounds).Accepted() && !answers(rounds).Unacceptable()
    ensures var failed := if rounds * CHUNK < |s.buf| then [ChunkFailed] else [];
      var s' := Run(s, PushSteps(answers, rounds) + failed);
      && s'.inflight == [] && s'.buf == RequeuedTo(s.buf[Upto(s.buf, rounds)..], [])
      && s'.added == s.added && s'.overflowed == s.overflowed
      && s'.delivered == s.delivered + Nos(SentIn(s.buf, answers, rounds))
      && s'.rejected == s.rejected + Nos(DroppedIn(s.buf, answers, rounds))
  {
    PushStepsRun(s, answers, rounds);
    var rest := s.buf[Upto(s.buf, rounds)..];
    if rounds * CHUNK < |s.buf| {
      RunSnoc(s, PushSteps(answers, rounds), ChunkFailed);
      assert rest + [] == rest;
    } else {
      assert PushSteps<R>(answers, rounds) + [] == PushSteps(answers, rounds);
      assert rest == [];
    }
  }
}
