/**
 * Sorting the misses of a run (internal/harness/flywheel.go): those a curated pattern would
 * have caught, and those none would.
 */
module Misses {
  import opened Generator
  import opened Upserts
  import opened Gathering
  import opened Counting

  /** The patterns a person has vetted in advance. */
  const CANDIDATE_LIBRARY: seq<Candidate> := [
    Candidate("ssn-bare-context", "SSN",
              @"(?i)\b(?:SSN|social security(?: number)?)(?:\s+on\s+file)?[:\s]+\d{9}\b", 0.7),
    Candidate("mrn-bare-context", "MRN", @"(?i)\b(?:MRN|medical record(?: number)?)[:\s]+\d{7,9}\b", 0.7),
    Candidate("phone-dotted", "PHONE", @"\b\d{3}\.\d{3}\.\d{4}\b", 0.7)
  ]

  /** What a run recorded about one request. */
  datatype RunResult = RunResult(content: string, truth: seq<TruthSpan>, missedTypes: seq<string>, err: string)

  /** Where a pattern matches in a text. */
  type Finder = (string, string) -> seq<(int, int)>

  predicate Touches(loc: (int, int), truth: seq<TruthSpan>, typ: string) {
    exists sp :: sp in truth && sp.typ == typ && loc.0 < sp.end && sp.start < loc.1
  }

  /** The pattern is of the type and matches somewhere on a truth span of it. */
  predicate WouldCatch(find: Finder, c: Candidate, res: RunResult, typ: string) {
    c.typ == typ && exists loc :: loc in find(c.regex, res.content) && Touches(loc, res.truth, typ)
  }

  method CandidateCovers(find: Finder, c: Candidate, content: string, truth: seq<TruthSpan>, typ: string)
    returns (covers: bool)
    ensures covers <==> exists loc :: loc in find(c.regex, content) && Touches(loc, truth, typ)
  {
    var locs := find(c.regex, content);
    for i := 0 to |locs|
      invariant forall loc :: loc in locs[..i] ==> !Touches(loc, truth, typ)
    {
      assert locs[..i + 1] == locs[..i] + [locs[i]];
      for j := 0 to |truth|
        invariant !Touches(locs[i], truth[..j], typ)
      {
        assert truth[..j + 1] == truth[..j] + [truth[j]];
        if truth[j].typ == typ && locs[i].0 < truth[j].end && truth[j].start < locs[i].1 {
          assert truth[j] in truth && locs[i] in locs;
          return true;
        }
      }
      assert truth[..|truth|] == truth;
    }
    assert locs[..|locs|] == locs;
    return false;
  }

  predicate Caught(find: Finder, res: RunResult, typ: string) {
    exists c :: c in CANDIDATE_LIBRARY && WouldCatch(find, c, res, typ)
  }

  /** The misses among the first n missed types of one request that no pattern would catch. */
  function UncoveredOf(find: Finder, res: RunResult, n: nat): seq<Miss>
    requires n <= |res.missedTypes|
  {
    if n == 0 then []
    else
      var typ := res.missedTypes[n - 1];
      UncoveredOf(find, res, n - 1) + if Caught(find, res, typ) then [] else [Miss(typ, res.content, res.truth)]
  }

  function HitsOf(find: Finder, res: RunResult, n: nat, c: Candidate): nat
    requires n <= |res.missedTypes|
  {
    if n == 0 then 0
    else HitsOf(find, res, n - 1, c) + if WouldCatch(find, c, res, res.missedTypes[n - 1]) then 1 else 0
  }

  predicate Counts(res: RunResult) { res.missedTypes != [] && res.err == "" }

  function Uncovered(find: Finder, results: seq<RunResult>): seq<Miss> {
    if results == [] then []
    else
      var res := results[|results| - 1];
      Uncovered(find, results[..|results| - 1]) + if Counts(res) then UncoveredOf(find, res, |res.missedTypes|) else []
  }

  function HitCount(find: Finder, results: seq<RunResult>, c: Candidate): nat {
    if results == [] then 0
    else
      var res := results[|results| - 1];
      HitCount(find, results[..|results| - 1], c) + if Counts(res) then HitsOf(find, res, |res.missedTypes|, c) else 0
  }

  function MissCount(results: seq<RunResult>): nat {
    if results == [] then 0
    else
      var res := results[|results| - 1];
      MissCount(results[..|results| - 1]) + if Counts(res) then |res.missedTypes| else 0
  }

  function HitFor(hits: map<string, nat>, c: Candidate): nat { if c.id in hits then hits[c.id] else 0 }

  function LibraryHits(find: Finder, results: seq<RunResult>): nat {
    HitCount(find, results, CANDIDATE_LIBRARY[0]) + HitCount(find, results, CANDIDATE_LIBRARY[1])
    + HitCount(find, results, CANDIDATE_LIBRARY[2])
  }

  lemma {:induction false} TypesSplit(find: Finder, res: RunResult, n: nat)
    requires n <= |res.missedTypes|
    ensures |UncoveredOf(find, res, n)| + HitsOf(find, res, n, CANDIDATE_LIBRARY[0])
            + HitsOf(find, res, n, CANDIDATE_LIBRARY[1]) + HitsOf(find, res, n, CANDIDATE_LIBRARY[2]) == n
  {
    if n == 0 {
    } else {
      TypesSplit(find, res, n - 1);
      OneCatches(find, res, res.missedTypes[n - 1]);
    }
  }

  function OneIf(b: bool): nat { if b then 1 else 0 }

  /** The curated types differ, so at most one pattern would catch a miss. */
  lemma OneCatches(find: Finder, res: RunResult, typ: string)
    ensures OneIf(WouldCatch(find, CANDIDATE_LIBRARY[0], res, typ))
            + OneIf(WouldCatch(find, CANDIDATE_LIBRARY[1], res, typ))
            + OneIf(WouldCatch(find, CANDIDATE_LIBRARY[2], res, typ)) == OneIf(Caught(find, res, typ))
  {
    assert CANDIDATE_LIBRARY[0].typ == "SSN" && CANDIDATE_LIBRARY[1].typ == "MRN"
      && CANDIDATE_LIBRARY[2].typ == "PHONE";
    assert "SSN"[0] != "MRN"[0] && "SSN"[0] != "PHONE"[0] && "MRN"[0] != "PHONE"[0];
    if Caught(find, res, typ) {
      var c :| c in CANDIDATE_LIBRARY && WouldCatch(find, c, res, typ);
    }
    assert forall k :: 0 <= k < 3 ==> CANDIDATE_LIBRARY[k] in CANDIDATE_LIBRARY;
  }

  /** Every missed type is a hit of exactly one curated pattern or is left uncovered, once. */
  lemma {:induction false} MissesConserved(find: Finder, results: seq<RunResult>)
    ensures |Uncovered(find, results)| + LibraryHits(find, results) == MissCount(results)
  {
    if results == [] {
    } else {
      var res := results[|results| - 1];
      MissesConserved(find, results[..|results| - 1]);
      TypesSplit(find, res, |res.missedTypes|);
    }
  }

  ghost predicate HitsAgree(hits: map<string, nat>, count: Candidate -> nat) {
    forall k :: 0 <= k < |CANDIDATE_LIBRARY| ==> HitFor(hits, CANDIDATE_LIBRARY[k]) == count(CANDIDATE_LIBRARY[k])
  }

  ghost predicate Gained(find: Finder, res: RunResult, typ: string, hits: map<string, nat>, next: map<string, nat>,
                         c: Candidate)
  {
    HitFor(next, c) == HitFor(hits, c) + if WouldCatch(find, c, res, typ) then 1 else 0
  }

  /** One missed type against the whole library: each pattern that would catch it gains a hit. */
  method TryLibrary(find: Finder, res: RunResult, typ: string, hits: map<string, nat>)
    returns (matched: bool, next: map<string, nat>)
    ensures matched <==> Caught(find, res, typ)
    ensures HitsAgree(next, c => HitFor(hits, c) + if WouldCatch(find, c, res, typ) then 1 else 0)
  {
    matched, next := false, hits;
    LibraryIdsDistinct();
    for k := 0 to |CANDIDATE_LIBRARY|
      invariant matched <==> exists j :: 0 <= j < k && WouldCatch(find, CANDIDATE_LIBRARY[j], res, typ)
      invariant forall j :: 0 <= j < k ==> Gained(find, res, typ, hits, next, CANDIDATE_LIBRARY[j])
      invariant forall j :: k <= j < |CANDIDATE_LIBRARY|
                  ==> HitFor(next, CANDIDATE_LIBRARY[j]) == HitFor(hits, CANDIDATE_LIBRARY[j])
    {
      var c := CANDIDATE_LIBRARY[k];
      if c.typ != typ {
        continue;
      }
      var covers := CandidateCovers(find, c, res.content, res.truth, typ);
      if covers {
        next := next[c.id := HitFor(next, c) + 1];
        matched := true;
      }
    }
    assert forall c :: c in CANDIDATE_LIBRARY
             <==> exists j :: 0 <= j < |CANDIDATE_LIBRARY| && CANDIDATE_LIBRARY[j] == c;
  }

  lemma LibraryIdsDistinct()
    ensures forall j, k :: 0 <= j < k < |CANDIDATE_LIBRARY| ==> CANDIDATE_LIBRARY[j].id != CANDIDATE_LIBRARY[k].id
  {
    assert "ssn-bare-context"[0] != "mrn-bare-context"[0] && "ssn-bare-context"[0] != "phone-dotted"[0]
      && "mrn-bare-context"[0] != "phone-dotted"[0];
  }

  method CollectMisses(find: Finder, results: seq<RunResult>) returns (hits: map<string, nat>, uncovered: seq<Miss>)
    ensures uncovered == Uncovered(find, results)
    ensures HitsAgree(hits, c => HitCount(find, results, c))
  {
    hits, uncovered := map[], [];
    for i := 0 to |results|
      invariant uncovered == Uncovered(find, results[..i])
      invariant HitsAgree(hits, c => HitCount(find, results[..i], c))
    {
      var res := results[i];
      assert results[..i + 1][..i] == results[..i];
      if |res.missedTypes| == 0 || res.err != "" {
        continue;
      }
      ghost var hits0, uncovered0 := hits, uncovered;
      for n := 0 to |res.missedTypes|
        invariant uncovered == uncovered0 + UncoveredOf(find, res, n)
        invariant HitsAgree(hits, c => HitFor(hits0, c) + HitsOf(find, res, n, c))
      {
        var matched, next := TryLibrary(find, res, res.missedTypes[n], hits);
        hits := next;
        if !matched {
          uncovered := uncovered + [Miss(res.missedTypes[n], res.content, res.truth)];
        }
      }
    }
    assert results[..|results|] == results;
  }

  // ---- the same, told of misses and matches ----

  /** The pattern matches somewhere on a truth span of its own type. */
  predicate Meets(find: Finder, c: Candidate, res: RunResult) {
    exists loc, sp :: loc in find(c.regex, res.content) && sp in res.truth && sp.typ == c.typ
                      && loc.0 < sp.end && sp.start < loc.1
  }

  predicate Explained(find: Finder, res: RunResult, typ: string) {
    exists c :: c in CANDIDATE_LIBRARY && c.typ == typ && Meets(find, c, res)
  }

  /** How often a pattern would have caught a missed type of a request that went through. */
  ghost function CaughtBy(find: Finder, c: Candidate): RunResult -> nat {
    (res: RunResult) =>
      if res.err == "" then HowMany(res.missedTypes, typ => typ == c.typ && Meets(find, c, res)) else 0
  }

  lemma CatchIsMeeting(find: Finder, c: Candidate, res: RunResult, typ: string)
    ensures WouldCatch(find, c, res, typ) <==> typ == c.typ && Meets(find, c, res)
  {
    if WouldCatch(find, c, res, typ) {
      var loc :| loc in find(c.regex, res.content) && Touches(loc, res.truth, typ);
    }
  }

  lemma {:induction false} HitsOfCounts(find: Finder, res: RunResult, n: nat, c: Candidate)
    requires n <= |res.missedTypes|
    ensures HitsOf(find, res, n, c) == HowMany(res.missedTypes[..n], typ => typ == c.typ && Meets(find, c, res))
  {
    var p := typ => typ == c.typ && Meets(find, c, res);
    if n > 0 {
      var typ := res.missedTypes[n - 1];
      HitsOfCounts(find, res, n - 1, c);
      CatchIsMeeting(find, c, res, typ);
      HowManySnoc(res.missedTypes[..n - 1], typ, p);
      assert res.missedTypes[..n] == res.missedTypes[..n - 1] + [typ];
    }
  }

  /** A pattern's hits are the missed types of its own that it matches on. */
  lemma {:induction false} HitsCount(find: Finder, results: seq<RunResult>, c: Candidate)
    ensures HitCount(find, results, c) == SumOver(results, CaughtBy(find, c))
  {
    if results != [] {
      var res := results[|results| - 1];
      HitsCount(find, results[..|results| - 1], c);
      HitsOfCounts(find, res, |res.missedTypes|, c);
      assert res.missedTypes[..|res.missedTypes|] == res.missedTypes;
    }
  }

  lemma CaughtIsExplained(find: Finder, res: RunResult, typ: string)
    ensures Caught(find, res, typ) <==> Explained(find, res, typ)
  {
    forall c ensures WouldCatch(find, c, res, typ) <==> c.typ == typ && Meets(find, c, res) {
      CatchIsMeeting(find, c, res, typ);
    }
  }

  predicate LeftAt(find: Finder, res: RunResult, j: nat, m: Miss) {
    && j < |res.missedTypes| && m == Miss(res.missedTypes[j], res.content, res.truth)
    && !Explained(find, res, res.missedTypes[j])
  }

  ghost predicate LeftOver(find: Finder, res: RunResult, n: nat, m: Miss) {
    exists j :: 0 <= j < n && LeftAt(find, res, j, m)
  }

  lemma UncoveredOfNext(find: Finder, res: RunResult, n: nat, next: nat, m: Miss)
    requires next == n + 1 <= |res.missedTypes|
    ensures m in UncoveredOf(find, res, next) <==> m in UncoveredOf(find, res, n) || LeftAt(find, res, n, m)
  {
    CaughtIsExplained(find, res, res.missedTypes[n]);
  }

  lemma {:induction false} UncoveredOfAre(find: Finder, res: RunResult, n: nat, m: Miss)
    requires n <= |res.missedTypes|
    ensures m in UncoveredOf(find, res, n) <==> LeftOver(find, res, n, m)
  {
    if n > 0 {
      UncoveredOfAre(find, res, n - 1, m);
      UncoveredOfNext(find, res, n - 1, n, m);
    }
  }

  ghost predicate LeftIn(find: Finder, res: RunResult, m: Miss) {
    res.err == "" && LeftOver(find, res, |res.missedTypes|, m)
  }

  /** What is left over: the misses of requests that went through on which no pattern of the type matches. */
  lemma {:induction false} UncoveredAre(find: Finder, results: seq<RunResult>, m: Miss)
    ensures m in Uncovered(find, results) <==> exists res :: res in results && LeftIn(find, res, m)
  {
    if results != [] {
      var res, front := results[|results| - 1], results[..|results| - 1];
      UncoveredAre(find, front, m);
      UncoveredOfAre(find, res, |res.missedTypes|, m);
      assert results == front + [res];
      assert LeftIn(find, res, m) <==> m in Uncovered(find, results)[|Uncovered(find, front)|..];
    }
  }
}
