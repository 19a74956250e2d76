/**
 * What becomes of a detection between the engine and the chain (internal/gateway/detect/regex.go,
 * internal/gateway/detect/detector.go): the regex engine merges its hits before the chain's
 * guards see them, so a guard judges the merged span and not the hit.
 */
module ChainCoverage {
  import opened Common
  import opened Packs
  import opened Spans
  import opened MergeMeaning
  import opened Checksums
  import opened Generator
  import opened Engines
  import opened Detection

  // ---- the guard table ----

  function CardGuard(text: string, start: int, end: int): bool {
    0 <= start <= end <= |text| && IsCard(text, start, end)
  }

  function IbanGuard(text: string, start: int, end: int): bool {
    0 <= start <= end <= |text| && IsIban(text[start..end])
  }

  function HyphenGuard(text: string, start: int, end: int): bool {
    0 <= start <= end <= |text| && NotHyphenAdjacent(text, start, end)
  }

  /** The validators by claimed type; the check of the numbers in an IP address is a parameter. */
  function TypeGuards(octets: (string, int, int) -> bool): Guards {
    map["SSN" := HyphenGuard, "CREDIT_CARD" := CardGuard, "IP" := octets, "IBAN" := IbanGuard, "ADDRESS" := HyphenGuard]
  }

  // ---- when a hit is covered ----

  /** Every position of the span is covered. */
  ghost predicate CoveredBy(x: Span, s: seq<Span>) { forall p :: x.start <= p < x.end ==> Covers(s, p) }

  function Survivors(det: Detector, text: string, spans: seq<Span>): seq<Span> {
    KeptSpans(det.guards, det.allow, det.lower, text, spans)
  }

  predicate Survives(det: Detector, text: string, sp: Span) { Kept(det.guards, det.allow, det.lower, text, sp) }

  lemma {:induction false} SurvivorsAre(det: Detector, text: string, spans: seq<Span>, sp: Span)
    ensures sp in Survivors(det, text, spans) <==> sp in spans && Survives(det, text, sp)
  {
    if spans == [] {
    } else {
      SurvivorsAre(det, text, spans[..|spans| - 1], sp);
      assert spans == spans[..|spans| - 1] + [spans[|spans| - 1]];
    }
  }

  /**
   * What survives under installed rules: every claim that passes the guard of its type, unless its
   * own text is, whatever the letter case, a term of an allow rule for that type.
   */
  lemma SurvivesExactly(det: Detector, rules: seq<Rule>, text: string, sp: Span)
    requires AllowOf(rules, det.lower, det.allow)
    ensures Survives(det, text, sp) <==>
            && (sp.typ in det.guards ==> det.guards[sp.typ](text, sp.start, sp.end))
            && !(0 <= sp.start <= sp.end <= |text| && exists r, a ::
                   && r in rules && r.kind == KIND_ALLOW_LIST && r.typ == sp.typ && a in r.allowList
                   && det.lower(a) == det.lower(text[sp.start..sp.end]))
  {
    if 0 <= sp.start <= sp.end <= |text| {
      var term := det.lower(text[sp.start..sp.end]);
      assert Holds(det.allow, sp.typ, term) <==> Suppresses(rules, det.lower, sp.typ, term);
    }
  }

  /** A surviving merged span covers what lies within it. */
  lemma HomeCovers(det: Detector, text: string, merged: seq<Span>, x: Span, k: nat)
    requires k < |merged| && Within(x, merged[k]) && Survives(det, text, merged[k])
    ensures CoveredBy(x, Survivors(det, text, merged))
  {
    SurvivorsAre(det, text, merged, merged[k]);
  }

  /** A merged span that does not survive leaves its positions uncovered. */
  lemma HomeGone(det: Detector, text: string, merged: seq<Span>, k: nat, p: int)
    requires Apart(merged) && AllNonEmpty(merged) && k < |merged| && !Survives(det, text, merged[k])
    requires merged[k].start <= p < merged[k].end
    ensures !Covers(Survivors(det, text, merged), p)
  {
    forall y | y in Survivors(det, text, merged) ensures !(y.start <= p < y.end) {
      SurvivorsAre(det, text, merged, y);
      var j :| 0 <= j < |merged| && merged[j] == y;
      assert j < k || k < j;
    }
  }

  /** The surviving claims of engine j cover the position. */
  ghost predicate EngineCovers(det: Detector, text: string, j: nat, p: int) {
    j < |det.engines| && det.engines[j](text).Ok? && Covers(Survivors(det, text, det.engines[j](text).value), p)
  }

  /** The chain's claims cover what some engine's surviving claims cover. */
  lemma {:induction false} ClaimsCover(det: Detector, text: string, n: nat, p: int)
    requires n <= |det.engines|
    ensures Covers(Claims(det.engines[..n], det.guards, det.allow, det.lower, text), p)
       <==> exists j: nat :: j < n && EngineCovers(det, text, j, p)
  {
    if n == 0 {
      assert det.engines[..n] == [];
    } else {
      ClaimsCover(det, text, n - 1, p);
      assert det.engines[..n] == det.engines[..n - 1] + [det.engines[n - 1]];
      ClaimsSnoc(det.engines[..n - 1], det.engines[n - 1], det.guards, det.allow, det.lower, text);
      var answer := det.engines[n - 1](text);
      CoversConcat(Claims(det.engines[..n - 1], det.guards, det.allow, det.lower, text),
                   if answer.Ok? then Survivors(det, text, answer.value) else [], p);
      assert Covers(if answer.Ok? then Survivors(det, text, answer.value) else [], p)
        <==> EngineCovers(det, text, n - 1, p);
    }
  }

  ghost predicate OtherCovers(det: Detector, text: string, i: nat, p: int) {
    exists j: nat :: j != i && EngineCovers(det, text, j, p)
  }

  /** The surviving claims of the engines other than i cover every position of the span. */
  ghost predicate OthersCover(det: Detector, text: string, i: nat, x: Span) {
    forall p :: x.start <= p < x.end ==> OtherCovers(det, text, i, p)
  }

  /** Engine i answers with a merge of these hits. */
  ghost predicate MergesHits(det: Detector, text: string, i: nat, hits: seq<Span>) {
    && i < |det.engines| && det.engines[i](text).Ok?
    && AllNonEmpty(hits) && MergeOf(hits, det.engines[i](text).value)
  }

  /** The one merged span that took the hit in. */
  lemma HomeOf(hits: seq<Span>, merged: seq<Span>, x: Span) returns (k: nat)
    requires AllNonEmpty(hits) && MergeOf(hits, merged) && x in hits
    ensures k < |merged| && Within(x, merged[k])
    ensures forall j :: 0 <= j < |merged| && Within(x, merged[j]) ==> j == k
    ensures Apart(merged) && AllNonEmpty(merged)
  {
    MergeComponents(hits, merged);
    assert Housed(merged, x);
    k :| 0 <= k < |merged| && Within(x, merged[k]);
    forall j | 0 <= j < |merged| && Within(x, merged[j]) ensures j == k {
      HomeUnique(merged, x, j, k);
    }
  }

  /**
   * Exactly when a hit of an engine that merges its hits is covered by what the chain reports,
   * whatever other engines run: the merged span that took it in survives the guards and the
   * allow list, or the surviving claims of the other engines cover it.
   */
  lemma HitCoveredExactly(det: Detector, text: string, i: nat, hits: seq<Span>, out: seq<Span>, x: Span)
    returns (k: nat)
    requires MergesHits(det, text, i, hits) && x in hits && MergeOf(TextClaims(det, text), out)
    ensures var merged := det.engines[i](text).value;
      && k < |merged| && Within(x, merged[k]) && (forall j :: 0 <= j < |merged| && Within(x, merged[j]) ==> j == k)
      && (CoveredBy(x, out) <==> Survives(det, text, merged[k]) || OthersCover(det, text, i, x))
  {
    var merged := det.engines[i](text).value;
    k := HomeOf(hits, merged, x);
    MergeCoverage(TextClaims(det, text), out);
    assert det.engines[..|det.engines|] == det.engines;
    forall p ensures Covers(out, p) <==> exists j: nat :: j < |det.engines| && EngineCovers(det, text, j, p) {
      ClaimsCover(det, text, |det.engines|, p);
    }
    if Survives(det, text, merged[k]) {
      HomeCovers(det, text, merged, x, k);
      forall p | x.start <= p < x.end ensures Covers(out, p) {
        assert EngineCovers(det, text, i, p);
      }
    } else {
      forall p | x.start <= p < x.end
        ensures Covers(out, p) <==> OtherCovers(det, text, i, p)
      {
        HomeGone(det, text, merged, k, p);
        assert !EngineCovers(det, text, i, p);
      }
    }
  }

  /** Every place an installed pattern finds is covered by what the regex engine reports, under whatever type wins. */
  lemma InstalledPatternCovered(m: Matcher, builtin: seq<Recognizer>, rules: seq<Rule>, text: string, r: Rule,
                                loc: (int, int), spans: seq<Span>)
    requires r in rules && (r.kind == "" || r.kind == KIND_REGEX) && loc in m.find(r.regex, text)
    requires MergeOf(Hits(m, builtin + PackRecognizers(rules), text), spans)
    ensures forall p :: loc.0 <= p < loc.1 ==> Covers(spans, p)
  {
    var rec := Recognizer(r.typ, r.regex, if r.confidence == 0.0 then 0.75 else r.confidence, false);
    PackRecognizersAre(rules, rec);
    assert FromPattern(r, rec);
    var recs := builtin + PackRecognizers(rules);
    var sp := Span(loc.0, loc.1, rec.typ, rec.confidence, "regex");
    assert rec in recs && HitAt(m, rec, text, loc, sp) && HitAmong(m, rec, text, m.find(rec.regex, text), sp);
    HitsAre(m, recs, text, sp);
    MergeCoverage(Hits(m, recs, text), spans);
    forall p | loc.0 <= p < loc.1 ensures Covers(spans, p) {
      assert Covers(Hits(m, recs, text), p);
    }
  }

  // ---- a hit on its own ----

  lemma {:induction false} LonePath(p: seq<Span>, s: seq<Span>, x: Span, y: Span)
    requires Path(p, s, x, y) && forall z :: z in s && Overlap(x, z) ==> z == x
    ensures y == x
    decreases |p|
  {
    if |p| <= 1 {
    } else {
      assert p[1] in s && Overlap(p[0], p[1]);
      assert Path(p[1..], s, x, y) by {
        forall i | 0 <= i < |p[1..]| - 1 ensures Overlap(p[1..][i], p[1..][i + 1]) {
          assert Overlap(p[i + 1], p[i + 2]);
        }
      }
      LonePath(p[1..], s, x, y);
    }
  }

  /** A hit that overlaps no other comes out of the merge as it went in. */
  lemma LoneHitUnchanged(hits: seq<Span>, merged: seq<Span>, x: Span, k: nat)
    requires AllNonEmpty(hits) && MergeOf(hits, merged) && x in hits && k < |merged| && Within(x, merged[k])
    requires forall y :: y in hits && Overlap(x, y) ==> y == x
    ensures merged[k] == x
  {
    MergeComponents(hits, merged);
    assert Component(merged[k], hits);
    forall y | y in hits && Within(y, merged[k]) ensures y == x {
      assert Connected(hits, x, y);
      var p :| Path(p, hits, x, y);
      LonePath(p, hits, x, y);
    }
  }

  /** So a hit that passes guard and allow list itself is covered if it overlaps no other hit. */
  lemma LoneHitCovered(det: Detector, text: string, i: nat, hits: seq<Span>, out: seq<Span>, x: Span)
    requires MergesHits(det, text, i, hits) && x in hits && MergeOf(TextClaims(det, text), out)
    requires Survives(det, text, x) && forall y :: y in hits && Overlap(x, y) ==> y == x
    ensures CoveredBy(x, out)
  {
    var k := HitCoveredExactly(det, text, i, hits, out, x);
    LoneHitUnchanged(hits, det.engines[i](text).value, x, k);
  }

  // ---- valid hits that are lost ----

  /** The only engine of the chain answers with a merge of these hits, and this is what the chain reports. */
  ghost predicate OnlyEngineReports(det: Detector, text: string, hits: seq<Span>, out: seq<Span>) {
    |det.engines| == 1 && MergesHits(det, text, 0, hits) && MergeOf(TextClaims(det, text), out)
  }

  /** If one merged span holds every hit, there is no other. */
  lemma OneHome(hits: seq<Span>, merged: seq<Span>, k: nat, j: nat)
    requires AllNonEmpty(hits) && Components(merged, hits) && k < |merged| && j < |merged|
    requires forall x :: x in hits ==> Within(x, merged[k])
    ensures j == k
  {
    assert Component(merged[j], hits);
    var x {:trigger Within(x, merged[j])} :| x in hits && Within(x, merged[j]) && x.start == merged[j].start;
    HomeUnique(merged, x, j, k);
  }

  /** Two overlapping hits merge into one, with the claim of the surer. */
  lemma TwoMerge(x: Span, y: Span, merged: seq<Span>)
    requires NonEmpty(x) && NonEmpty(y) && Overlap(x, y) && y.confidence < x.confidence
    requires MergeOf([x, y], merged)
    ensures merged == [x.(start := Min(x.start, y.start), end := if x.end < y.end then y.end else x.end)]
  {
    var hits := [x, y];
    assert x in hits && y in hits;
    var k := HomeOf(hits, merged, x);
    var j := HomeOf(hits, merged, y);
    assert j == k by { assert j < k || k < j || j == k; }
    MergeComponents(hits, merged);
    assert Component(merged[k], hits);
    if |merged| > 1 {
      OneHome(hits, merged, k, if k == 0 then 1 else 0);
    }
  }

  /** Two overlapping hits are both lost if a guard refuses their union under the surer claim. */
  lemma OverlappingHitsLost(det: Detector, text: string, x: Span, y: Span, out: seq<Span>)
    requires NonEmpty(x) && NonEmpty(y) && Overlap(x, y) && y.confidence < x.confidence
    requires !PassesGuard(det.guards, text,
                          x.(start := Min(x.start, y.start), end := if x.end < y.end then y.end else x.end))
    requires OnlyEngineReports(det, text, [x, y], out)
    ensures out == []
  {
    var merged := det.engines[0](text).value;
    TwoMerge(x, y, merged);
    NothingSurvives(det, text, merged);
    assert det.engines == [] + [det.engines[0]];
    ClaimsSnoc([], det.engines[0], det.guards, det.allow, det.lower, text);
    assert TextClaims(det, text) == [];
  }

  /** If the guard refuses the one merged span there is nothing left. */
  lemma NothingSurvives(det: Detector, text: string, merged: seq<Span>)
    requires |merged| == 1 && !PassesGuard(det.guards, text, merged[0])
    ensures Survivors(det, text, merged) == []
  {
    var left := Survivors(det, text, merged);
    if left != [] {
      SurvivorsAre(det, text, merged, left[0]);
      assert false;
    }
  }

  lemma {:induction false} LuhnPrepend(d: int, ds: seq<int>, double: bool)
    ensures LuhnSum([d] + ds, double) == LuhnSum(ds, double) + Weighed(d, if |ds| % 2 == 0 then double else !double)
    decreases |ds|
  {
    var all := [d] + ds;
    if ds == [] {
      assert all == [d] && all[..0] == [];
    } else {
      assert all[..|all| - 1] == [d] + ds[..|ds| - 1];
      LuhnPrepend(d, ds[..|ds| - 1], !double);
    }
  }

  /** One more digit in front breaks the check of sixteen. */
  lemma DigitInFrontBreaks(d: int, card: string)
    requires 1 <= d <= 9 && LuhnDigits(Digits(card)) && |Digits(card)| == 16
    ensures !LuhnDigits(Digits([DigitChar(d)] + ": " + card))
  {
    var head := [DigitChar(d)];
    DigitsConcat(head + ": ", card);
    DigitsConcat(head, ": ");
    assert head[1..] == [] && Digits(head) == [d];
    assert ": "[1..] == " " && " "[1..] == "" && Digits(" ") == [] && Digits(": ") == [];
    assert Digits(head + ": " + card) == [d] + Digits(card);
    LuhnPrepend(d, Digits(card), false);
  }

  /**
   * A valid card inside a longer hit of lower confidence, here a number before it: the merged
   * span claims to be a card, its seventeen digits fail the card guard, and nothing is reported.
   */
  lemma AbsorbedCardDropped(det: Detector, octets: (string, int, int) -> bool, d: int, card: string, typ: string,
                            confidence: real, out: seq<Span>)
    requires 1 <= d <= 9 && GeneratedCard(card) && confidence < 0.9 && det.guards == TypeGuards(octets)
    requires var text := [DigitChar(d)] + ": " + card;
      OnlyEngineReports(det, text,
                        [Span(3, |text|, "CREDIT_CARD", 0.9, "regex"), Span(0, |text|, typ, confidence, "regex")], out)
    ensures CardGuard([DigitChar(d)] + ": " + card, 3, 3 + |card|)
    ensures out == []
  {
    var head := [DigitChar(d)] + ": ";
    var text := head + card;
    GeneratedCardValid(card);
    SetIntoText(head, card, "");
    assert head + card + "" == text && text[0..|text|] == text;
    DigitInFrontBreaks(d, card);
    CardRefused(det, octets, text, 0, |text|);
    OverlappingHitsLost(det, text, Span(3, |text|, "CREDIT_CARD", 0.9, "regex"),
                        Span(0, |text|, typ, confidence, "regex"), out);
  }

  lemma CardRefused(det: Detector, octets: (string, int, int) -> bool, text: string, start: int, end: int)
    requires det.guards == TypeGuards(octets) && !CardGuard(text, start, end)
    ensures !PassesGuard(det.guards, text, Span(start, end, "CREDIT_CARD", 0.9, "regex"))
  {
    assert "CREDIT_CARD" in TypeGuards(octets) && TypeGuards(octets)["CREDIT_CARD"] == CardGuard;
  }

  // ---- the same with the built-in recognizers alone ----

  /** The recognizers every gateway starts with. */
  const BUILTIN: seq<Recognizer> := [
    Recognizer("EMAIL", @"\b[A-Za-z0-9._%+-]+@[A-Za-z0-9.-]+\.[A-Za-z]{2,}\b", 0.95, false),
    Recognizer("SSN", @"\b\d{3}[- ]\d{2}[- ]\d{4}\b", 0.9, true),
    Recognizer("PHONE", @"(\+1[-. ]?)?(\(\d{3}\)[-. ]?|\d{3}[-. ])\d{3}[-. ]\d{4}\b", 0.85, true),
    Recognizer("PHONE", @"\+[1-9]\d{9,14}\b", 0.85, false),
    Recognizer("CREDIT_CARD", @"\b\d(?:[- ]?\d){12,18}\b", 0.9, true),
    Recognizer("IP", @"\b(?:\d{1,3}\.){3}\d{1,3}\b", 0.8, true),
    Recognizer("IBAN", @"\b[A-Z]{2}\d{2}[A-Z0-9]{11,30}\b", 0.9, true),
    Recognizer("MRN", @"(?i)\bMRN[-: ]?\d{6,10}\b", 0.85, false),
    Recognizer("DOB", @"\b(0[1-9]|1[0-2])/(0[1-9]|[12]\d|3[01])/(19|20)\d{2}\b", 0.7, false)
  ]

  const CARD_AT := 4
  const IP_AT := 5

  lemma HitsNext(m: Matcher, recs: seq<Recognizer>, n: nat, text: string)
    requires n < |recs|
    ensures Hits(m, recs[..n + 1], text)
            == Hits(m, recs[..n], text) + RecognizerHits(m, recs[n], text, m.find(recs[n].regex, text))
  {
    assert recs[..n + 1][..n] == recs[..n];
  }

  /** The recognizers from a up to b, the c-th aside, find nothing. */
  ghost predicate IdleBetween(m: Matcher, recs: seq<Recognizer>, a: nat, b: nat, c: nat, text: string) {
    forall n {:trigger Idle(m, recs, n, text)} :: a <= n < b <= |recs| && n != c ==> Idle(m, recs, n, text)
  }

  ghost predicate Idle(m: Matcher, recs: seq<Recognizer>, n: int, text: string)
    requires 0 <= n < |recs|
  {
    m.find(recs[n].regex, text) == []
  }

  /** Recognizers that find nothing add nothing. */
  lemma {:induction false} HitsIdle(m: Matcher, recs: seq<Recognizer>, a: nat, b: nat, text: string)
    requires a <= b <= |recs| && IdleBetween(m, recs, a, b, |recs|, text)
    ensures Hits(m, recs[..b], text) == Hits(m, recs[..a], text)
    decreases b
  {
    if a == b {
    } else {
      HitsIdle(m, recs, a, b - 1, text);
      assert Idle(m, recs, b - 1, text);
      HitsNext(m, recs, b - 1, text);
    }
  }

  lemma HitsFound(m: Matcher, recs: seq<Recognizer>, n: nat, text: string, loc: (int, int))
    requires n < |recs| && m.find(recs[n].regex, text) == [loc] && m.validate(recs[n].typ, text, loc.0, loc.1)
    ensures Hits(m, recs[..n + 1], text)
         == Hits(m, recs[..n], text) + [Span(loc.0, loc.1, recs[n].typ, recs[n].confidence, "regex")]
  {
    HitsNext(m, recs, n, text);
    OneHit(m, recs[n], text, [loc]);
  }

  /** One recognizer finds one place, and validates it; the others up to b find nothing. */
  lemma OneFinds(m: Matcher, recs: seq<Recognizer>, a: nat, b: nat, c: nat, text: string, loc: (int, int))
    requires a <= c < b <= |recs| && IdleBetween(m, recs, a, b, c, text)
    requires m.find(recs[c].regex, text) == [loc] && m.validate(recs[c].typ, text, loc.0, loc.1)
    ensures Hits(m, recs[..b], text)
         == Hits(m, recs[..a], text) + [Span(loc.0, loc.1, recs[c].typ, recs[c].confidence, "regex")]
  {
    HitsIdle(m, recs, a, c, text);
    HitsFound(m, recs, c, text, loc);
    HitsIdle(m, recs, c + 1, b, text);
  }

  /** The card's recognizer and the address's find one place each, and validate it; the others find nothing. */
  lemma TwoHits(m: Matcher, recs: seq<Recognizer>, a: nat, b: nat, text: string, x: (int, int), y: (int, int))
    requires a < b < |recs| && IdleBetween(m, recs, 0, b, a, text) && IdleBetween(m, recs, b, |recs|, b, text)
    requires m.find(recs[a].regex, text) == [x] && m.validate(recs[a].typ, text, x.0, x.1)
    requires m.find(recs[b].regex, text) == [y] && m.validate(recs[b].typ, text, y.0, y.1)
    ensures Hits(m, recs, text) == [Span(x.0, x.1, recs[a].typ, recs[a].confidence, "regex"),
                                    Span(y.0, y.1, recs[b].typ, recs[b].confidence, "regex")]
  {
    NoHits(m, recs[..0], text);
    OneFinds(m, recs, 0, b, a, text, x);
    OneFinds(m, recs, b, |recs|, b, text, y);
    assert recs[..|recs|] == recs;
  }

  lemma NoHits(m: Matcher, recs: seq<Recognizer>, text: string)
    requires |recs| == 0
    ensures Hits(m, recs, text) == []
  {
  }

  lemma OneHit(m: Matcher, rec: Recognizer, text: string, locs: seq<(int, int)>)
    requires |locs| == 1 && m.validate(rec.typ, text, locs[0].0, locs[0].1)
    ensures RecognizerHits(m, rec, text, locs) == [Span(locs[0].0, locs[0].1, rec.typ, rec.confidence, "regex")]
  {
    assert locs[..0] == [] && RecognizerHits(m, rec, text, locs[..0]) == [];
  }

  /** What the expressions find in a text of 27 bytes: a card that begins with the last number of an address. */
  ghost predicate FindsBoth(m: Matcher, recs: seq<Recognizer>, octets: (string, int, int) -> bool, text: string) {
    && |recs| == 9 && recs[CARD_AT].typ == "CREDIT_CARD" && recs[IP_AT].typ == "IP"
    && recs[CARD_AT].confidence == 0.9 && recs[IP_AT].confidence == 0.8
    && IdleBetween(m, recs, 0, IP_AT, CARD_AT, text) && IdleBetween(m, recs, IP_AT, 9, IP_AT, text)
    && m.find(recs[CARD_AT].regex, text) == [(7, 27)] && m.find(recs[IP_AT].regex, text) == [(0, 8)]
    && m.validate("CREDIT_CARD", text, 7, 27) == CardGuard(text, 7, 27)
    && m.validate("IP", text, 0, 8) == octets(text, 0, 8)
  }

  lemma {:induction false} OnesSum(ds: seq<int>, double: bool)
    requires forall i :: 0 <= i < |ds| ==> ds[i] == 1
    ensures LuhnSum(ds, double) == |ds| + if double then (|ds| + 1) / 2 else |ds| / 2
    decreases |ds|
  {
    if ds == [] {
    } else {
      OnesSum(ds[..|ds| - 1], !double);
    }
  }

  ghost predicate Ones(ds: seq<int>, n: nat) { |ds| == n && forall i :: 0 <= i < n ==> ds[i] == 1 }

  /** A group of ones in front. */
  lemma GroupInFront(group: string, rest: string, n: nat)
    requires 1 <= |group| && (forall i :: 0 <= i < |group| ==> group[i] == '1') && Ones(Digits(rest), n)
    ensures Ones(Digits(" " + group + rest), n + |group|)
  {
    DigitsOfDigitText(group);
    assert Digits(" ") == [];
    DigitsConcat(" ", group);
    DigitsConcat(" " + group, rest);
  }

  /** Three groups of four ones and one of three. */
  lemma GroupsOfOnes(rest: string)
    requires rest == " 1111 1111 1111 111"
    ensures Ones(Digits(rest), 15)
  {
    var group, last := "1111", "111";
    var a := " " + last + "";
    GroupInFront(last, "", 0);
    var b := " " + group + a;
    GroupInFront(group, a, 3);
    var c := " " + group + b;
    GroupInFront(group, b, 7);
    GroupInFront(group, c, 11);
    assert rest == " " + group + c;
  }

  lemma ShownCardDigits(card: string, rest: string)
    requires rest == " 1111 1111 1111 111" && card == "4" + rest
    ensures |Digits(card)| == 16 && Digits(card)[0] == 4 && Ones(Digits(card)[1..], 15)
  {
    GroupsOfOnes(rest);
    DigitsConcat("4", rest);
    DigitsOfDigitText("4");
  }

  lemma ShownCardValid(card: string, rest: string)
    requires rest == " 1111 1111 1111 111" && card == "4" + rest
    ensures |Digits(card)| == 16 && LuhnDigits(Digits(card))
  {
    ShownCardDigits(card, rest);
    FourAndOnes(Digits(card));
  }

  lemma FourAndOnes(ds: seq<int>)
    requires |ds| == 16 && ds[0] == 4 && Ones(ds[1..], 15)
    ensures LuhnDigits(ds)
  {
    OnesSum(ds[1..], false);
    LuhnPrepend(4, ds[1..], false);
    assert ds == [4] + ds[1..];
  }

  lemma HeadDigits(head: string)
    requires head == "10.0.0."
    ensures |Digits(head)| == 4
  {
    var ten, zero, dot := "10", "0", ".";
    assert Digits(dot) == [];
    DigitsOfDigitText(ten);
    DigitsOfDigitText(zero);
    assert head == ten + (dot + (zero + (dot + (zero + dot))));
    DigitsConcat(zero, dot);
    DigitsConcat(dot, zero + dot);
    DigitsConcat(zero, dot + (zero + dot));
    DigitsConcat(dot, zero + (dot + (zero + dot)));
    DigitsConcat(ten, dot + (zero + (dot + (zero + dot))));
  }

  lemma AddressAndCard(head: string, card: string, rest: string, text: string)
    requires head == "10.0.0." && rest == " 1111 1111 1111 111" && card == "4" + rest && text == head + card
    ensures |text| == 27 && CardGuard(text, 7, 27) && !CardGuard(text, 0, 27)
  {
    ShownCardValid(card, rest);
    SetIntoText(head, card, "");
    assert head + card + "" == text && text[0..27] == text;
    DigitsConcat(head, card);
    HeadDigits(head);
  }

  lemma BothHitsLost(det: Detector, octets: (string, int, int) -> bool, m: Matcher, recs: seq<Recognizer>, text: string,
                     out: seq<Span>)
    requires CardGuard(text, 7, 27) && !CardGuard(text, 0, 27) && octets(text, 0, 8)
    requires det.guards == TypeGuards(octets) && FindsBoth(m, recs, octets, text)
    requires OnlyEngineReports(det, text, Hits(m, recs, text), out)
    ensures Hits(m, recs, text) == [Span(7, 27, "CREDIT_CARD", 0.9, "regex"), Span(0, 8, "IP", 0.8, "regex")]
    ensures out == []
  {
    TwoHits(m, recs, CARD_AT, IP_AT, text, (7, 27), (0, 8));
    CardRefused(det, octets, text, 0, 27);
    OverlappingHitsLost(det, text, Span(7, 27, "CREDIT_CARD", 0.9, "regex"), Span(0, 8, "IP", 0.8, "regex"), out);
  }

  /**
   * An address followed by the rest of a card: both hits are valid, they overlap in one digit,
   * their union has twenty digits, and the chain reports neither.
   */
  lemma AddressAndCardLost(det: Detector, octets: (string, int, int) -> bool, m: Matcher, text: string, out: seq<Span>)
    requires text == "10.0.0.4 1111 1111 1111 111" && octets(text, 0, 8)
    requires det.guards == TypeGuards(octets) && FindsBoth(m, BUILTIN, octets, text)
    requires OnlyEngineReports(det, text, Hits(m, BUILTIN, text), out)
    ensures Hits(m, BUILTIN, text) == [Span(7, 27, "CREDIT_CARD", 0.9, "regex"), Span(0, 8, "IP", 0.8, "regex")]
    ensures CardGuard(text, 7, 27) && out == []
  {
    ShownText(text);
    BothHitsLost(det, octets, m, BUILTIN, text, out);
  }

  lemma ShownText(text: string)
    requires text == "10.0.0.4 1111 1111 1111 111"
    ensures |text| == 27 && CardGuard(text, 7, 27) && !CardGuard(text, 0, 27)
  {
    assert text == "10.0.0." + "4 1111 1111 1111 111";
    assert "4 1111 1111 1111 111" == "4" + " 1111 1111 1111 111";
    AddressAndCard("10.0.0.", "4 1111 1111 1111 111", " 1111 1111 1111 111", text);
  }
}
