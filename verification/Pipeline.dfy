/** What the detect, mask and block section of the request path means, over values. */
module Pipeline {
  import opened Common
  import opened Json
  import opened Fields
  import opened Bodies
  import opened Spans
  import opened MergeMeaning
  import opened Masking
  import opened MaskMeaning
  import opened Detection
  import opened Policy

  /** The JSON library, for bodies that decode to an object: decoding undoes encoding. */
  datatype Codec = Codec(decode: string -> Option<map<string, Json>>, encode: map<string, Json> -> string)

  ghost predicate Lawful(c: Codec) {
    forall members: map<string, Json> :: c.decode(c.encode(members)) == Some(members)
  }

  /** Where one detection lies. It never carries the detected value. */
  datatype Redaction = Redaction(path: Loc, typ: string, start: int, end: int, detector: string, confidence: real)

  /** What becomes of a request: answered by the gateway itself, or sent upstream. */
  datatype Outcome = Refused(status: int) | Forwarded(body: string)

  /** The location holds a located string in which the detectors claim something. */
  predicate ClaimedAt(det: Detector, d: Dialect, doc: Json, loc: Loc) {
    Located(d, doc, loc) && IsLeaf(doc, loc) && TextClaims(det, LeafText(doc, loc)) != []
  }

  ghost predicate AnyClaim(det: Detector, d: Dialect, doc: Json) {
    exists loc :: ClaimedAt(det, d, doc, loc)
  }

  predicate FailedAt(det: Detector, d: Dialect, doc: Json, loc: Loc) {
    Located(d, doc, loc) && IsLeaf(doc, loc) && TextFailures(det, LeafText(doc, loc)) != []
  }

  ghost predicate AnyFailure(det: Detector, d: Dialect, doc: Json) {
    exists loc :: FailedAt(det, d, doc, loc)
  }

  /** r is the text with the merged claims masked. */
  ghost predicate MaskedText(det: Detector, text: string, r: string) {
    exists spans {:trigger MergeOf(TextClaims(det, text), spans)} ::
      MergeOf(TextClaims(det, text), spans) && Masked(text, spans, r)
  }

  /** New texts for exactly the claimed locations, each the masked form of what stood there. */
  ghost predicate MaskTexts(det: Detector, d: Dialect, doc: Json, texts: map<Loc, string>) {
    && (forall loc :: loc in texts <==> ClaimedAt(det, d, doc, loc))
    && (forall loc :: loc in texts ==> MaskedText(det, LeafText(doc, loc), texts[loc]))
  }

  /** The body with every claimed field masked and nothing else changed. */
  ghost predicate MaskedDocument(det: Detector, d: Dialect, doc: Json, doc': Json) {
    exists texts {:trigger Rewritten(doc, texts, doc')} :: MaskTexts(det, d, doc, texts) && Rewritten(doc, texts, doc')
  }

  /** What the pipeline decides for a body that decodes, under an action. */
  ghost predicate Verdict(det: Detector, codec: Codec, failClosed: bool, d: Dialect, body: string, action: string,
                          out: Outcome)
    requires codec.decode(body).Some?
  {
    var doc := Obj(codec.decode(body).value);
    if failClosed && AnyFailure(det, d, doc) then out == Refused(503)
    else if !AnyClaim(det, d, doc) then out == Forwarded(body)
    else if action == ACTION_BLOCK then out == Refused(400)
    else if action == ACTION_MASK then
      out.Forwarded? && codec.decode(out.body).Some? && MaskedDocument(det, d, doc, Obj(codec.decode(out.body).value))
    else out == Forwarded(body)
  }

  /** A body with a claim is refused, masked, or let through as it is, as the action says. */
  ghost predicate Treated(det: Detector, codec: Codec, d: Dialect, body: string, action: string, out: Outcome)
    requires codec.decode(body).Some?
  {
    && (action == "block" ==> out == Refused(400))
    && (action == "mask" ==>
          && out.Forwarded? && codec.decode(out.body).Some?
          && MaskedDocument(det, d, Obj(codec.decode(body).value), Obj(codec.decode(out.body).value)))
    && (action == "detect" ==> out == Forwarded(body))
  }

  /** What goes upstream has nothing detected in it, or had every detection masked. */
  ghost predicate GatedForward(det: Detector, codec: Codec, d: Dialect, body: string, sent: string)
    requires codec.decode(body).Some?
  {
    var doc := Obj(codec.decode(body).value);
    if AnyClaim(det, d, doc) then codec.decode(sent).Some? && MaskedDocument(det, d, doc, Obj(codec.decode(sent).value))
    else sent == body
  }

  lemma MaskExists(text: string, spans: seq<Span>) returns (r: string)
    requires Apart(spans)
    ensures Masked(text, spans, r)
  {
    ApartSpansAreValidInOrder(text, spans);
    r := Substitute(text, ValidSpans(text, spans), 0);
  }

  function RedactionsOf(f: TextField, spans: seq<Span>): (r: seq<Redaction>)
    ensures |r| == |spans| && forall i :: 0 <= i < |r| ==> Describes(r[i], f, spans[i])
  {
    seq(|spans|, i requires 0 <= i < |spans| =>
      Redaction(f.loc, spans[i].typ, spans[i].start, spans[i].end, spans[i].detector, spans[i].confidence))
  }

  /** found lists, for the first fields in turn, the merged claims of each. */
  ghost predicate FoundIn(det: Detector, fields: seq<TextField>, found: seq<seq<Span>>) {
    |found| <= |fields| && forall i :: 0 <= i < |found| ==> MergeOf(TextClaims(det, fields[i].text), found[i])
  }

  /** The audit's record of them: field by field, span by span. */
  function Recorded(fields: seq<TextField>, found: seq<seq<Span>>): seq<Redaction>
    requires |found| <= |fields|
  {
    if found == [] then []
    else
      var n := |found| - 1;
      Recorded(fields, found[..n]) + RedactionsOf(fields[n], found[n])
  }

  lemma FoundNext(det: Detector, fields: seq<TextField>, n: nat, found: seq<seq<Span>>, spans: seq<Span>)
    requires n == |found| < |fields| && FoundIn(det, fields, found) && MergeOf(TextClaims(det, fields[n].text), spans)
    ensures FoundIn(det, fields, found + [spans])
  {
  }

  lemma RecordedNext(fields: seq<TextField>, n: nat, found: seq<seq<Span>>, spans: seq<Span>)
    requires n == |found| < |fields|
    ensures Recorded(fields, found + [spans]) == Recorded(fields, found) + RedactionsOf(fields[n], spans)
  {
    assert (found + [spans])[..n] == found;
  }

  /** The entry says of the span in the field what it is, where it lies, and who claimed it. */
  predicate Describes(r: Redaction, f: TextField, sp: Span) {
    && r.path == f.loc && r.typ == sp.typ && r.start == sp.start && r.end == sp.end
    && r.detector == sp.detector && r.confidence == sp.confidence
  }

  lemma FieldEntries(f: TextField, spans: seq<Span>, r: Redaction)
    ensures r in RedactionsOf(f, spans) <==> exists j :: 0 <= j < |spans| && Describes(r, f, spans[j])
  {
    if j :| 0 <= j < |spans| && Describes(r, f, spans[j]) {
      assert RedactionsOf(f, spans)[j] == r;
    }
  }

  ghost predicate EntryOf(fields: seq<TextField>, found: seq<seq<Span>>, r: Redaction) {
    exists i, j :: 0 <= i < |found| <= |fields| && 0 <= j < |found[i]| && Describes(r, fields[i], found[i][j])
  }

  /**
   * The audit lists every claimed span of every field, with its type, offsets, engine and
   * confidence, and nothing else.
   */
  lemma {:induction false} RecordedEntries(fields: seq<TextField>, found: seq<seq<Span>>, r: Redaction)
    requires |found| <= |fields|
    ensures r in Recorded(fields, found) <==> EntryOf(fields, found, r)
  {
    if found == [] {
    } else {
      var n := |found| - 1;
      RecordedEntries(fields, found[..n], r);
      FieldEntries(fields[n], found[n], r);
      assert found == found[..n] + [found[n]];
      if EntryOf(fields, found[..n], r) {
        var i, j :| 0 <= i < n && 0 <= j < |found[..n][i]| && Describes(r, fields[i], found[..n][i][j]);
        assert found[i] == found[..n][i];
      }
      if EntryOf(fields, found, r) {
        var i, j :| 0 <= i < |found| && 0 <= j < |found[i]| && Describes(r, fields[i], found[i][j]);
        if i < n {
          assert found[..n][i] == found[i];
        }
      }
    }
  }

  /** The first n fields have been looked at, and this is the record of them. */
  ghost predicate Audited(det: Detector, fields: seq<TextField>, n: nat, found: seq<seq<Span>>,
                          redactions: seq<Redaction>)
  {
    n == |found| <= |fields| && FoundIn(det, fields, found) && redactions == Recorded(fields, found)
  }

  lemma AuditedNext(det: Detector, fields: seq<TextField>, n: nat, found: seq<seq<Span>>, redactions: seq<Redaction>,
                    spans: seq<Span>)
    requires n < |fields| && Audited(det, fields, n, found, redactions)
             && MergeOf(TextClaims(det, fields[n].text), spans)
    ensures Audited(det, fields, n + 1, found + [spans], redactions + RedactionsOf(fields[n], spans))
  {
    FoundNext(det, fields, n, found, spans);
    RecordedNext(fields, n, found, spans);
  }

  ghost predicate ListedBefore(fields: seq<TextField>, n: int, loc: Loc) {
    exists i :: 0 <= i < n <= |fields| && fields[i].loc == loc
  }

  /** The field has a text, its masked one, exactly if something is claimed in it. */
  ghost predicate FieldDone(det: Detector, f: TextField, texts: map<Loc, string>) {
    && (f.loc in texts <==> TextClaims(det, f.text) != [])
    && (f.loc in texts ==> MaskedText(det, f.text, texts[f.loc]))
  }

  /** The first n fields have been scanned: those with claims have their masked texts. */
  ghost predicate Scanned(det: Detector, fields: seq<TextField>, n: nat, texts: map<Loc, string>)
    requires n <= |fields|
  {
    && (forall i {:trigger FieldDone(det, fields[i], texts)} :: 0 <= i < n ==> FieldDone(det, fields[i], texts))
    && (forall loc {:trigger ListedBefore(fields, n, loc)} :: loc in texts ==> ListedBefore(fields, n, loc))
  }

  /** What scanning one field comes to. */
  lemma FieldScanned(det: Detector, text: string, spans: seq<Span>, masked: string)
    requires MergeOf(TextClaims(det, text), spans) && (spans != [] ==> Masked(text, spans, masked))
    ensures spans == [] <==> TextClaims(det, text) == []
    ensures spans != [] ==> MaskedText(det, text, masked)
  {
    MergeCoverage(TextClaims(det, text), spans);
  }

  lemma ScanAdds(det: Detector, fields: seq<TextField>, n: nat, texts: map<Loc, string>, claimed: bool, masked: string)
    requires n < |fields| && DistinctLocs(fields) && Scanned(det, fields, n, texts)
    requires claimed <==> TextClaims(det, fields[n].text) != []
    requires claimed ==> MaskedText(det, fields[n].text, masked)
    ensures Scanned(det, fields, n + 1, if claimed then texts[fields[n].loc := masked] else texts)
  {
    var f := fields[n];
    var texts' := if claimed then texts[f.loc := masked] else texts;
    forall loc | loc in texts ensures loc != f.loc && ListedBefore(fields, n + 1, loc) {
      assert ListedBefore(fields, n, loc);
      var i :| 0 <= i < n && fields[i].loc == loc;
    }
    assert ListedBefore(fields, n + 1, f.loc);
    forall i | 0 <= i < n + 1 ensures FieldDone(det, fields[i], texts') {
      if i < n {
        assert FieldDone(det, fields[i], texts);
        OtherFieldDone(det, fields[i], f.loc, texts, masked);
      }
    }
  }

  lemma OtherFieldDone(det: Detector, f: TextField, loc: Loc, texts: map<Loc, string>, masked: string)
    requires FieldDone(det, f, texts) && f.loc != loc
    ensures FieldDone(det, f, texts[loc := masked])
  {
  }

  lemma ScanStep(det: Detector, fields: seq<TextField>, n: nat, texts: map<Loc, string>, spans: seq<Span>,
                 masked: string)
    requires n < |fields| && DistinctLocs(fields) && Scanned(det, fields, n, texts)
    requires MergeOf(TextClaims(det, fields[n].text), spans)
    requires spans != [] ==> Masked(fields[n].text, spans, masked)
    ensures Scanned(det, fields, n + 1, if spans == [] then texts else texts[fields[n].loc := masked])
  {
    FieldScanned(det, fields[n].text, spans, masked);
    ScanAdds(det, fields, n, texts, spans != [], masked);
  }

  /** Scanning every located field yields the texts a masked document needs. */
  lemma ScanComplete(det: Detector, d: Dialect, doc: Json, fields: seq<TextField>, texts: map<Loc, string>)
    requires Walks(doc, fields, LocatedIn(d, doc)) && Scanned(det, fields, |fields|, texts)
    ensures MaskTexts(det, d, doc, texts)
    ensures texts != map[] <==> AnyClaim(det, d, doc)
  {
    forall loc | ClaimedAt(det, d, doc, loc) ensures loc in texts {
      assert loc in LocatedIn(d, doc);
      assert Lists(fields, loc);
      var i :| 0 <= i < |fields| && fields[i].loc == loc;
      assert Reads(doc, fields[i]) && FieldDone(det, fields[i], texts);
    }
    forall loc | loc in texts ensures ClaimedAt(det, d, doc, loc) && MaskedText(det, LeafText(doc, loc), texts[loc]) {
      assert ListedBefore(fields, |fields|, loc);
      var i :| 0 <= i < |fields| && fields[i].loc == loc;
      assert Reads(doc, fields[i]) && FieldDone(det, fields[i], texts);
    }
    if texts != map[] {
      var loc :| loc in texts;
      assert ClaimedAt(det, d, doc, loc);
    }
  }

  ghost predicate SomeFailed(det: Detector, fields: seq<TextField>, n: nat)
    requires n <= |fields|
  {
    exists j :: 0 <= j < n && TextFailures(det, fields[j].text) != []
  }

  lemma FailureComplete(det: Detector, d: Dialect, doc: Json, fields: seq<TextField>)
    requires Walks(doc, fields, LocatedIn(d, doc))
    ensures SomeFailed(det, fields, |fields|) <==> AnyFailure(det, d, doc)
  {
    if SomeFailed(det, fields, |fields|) {
      var i :| 0 <= i < |fields| && TextFailures(det, fields[i].text) != [];
      assert Reads(doc, fields[i]);
      assert FailedAt(det, d, doc, fields[i].loc);
    }
    if AnyFailure(det, d, doc) {
      var loc :| FailedAt(det, d, doc, loc);
      assert loc in LocatedIn(d, doc);
      assert Lists(fields, loc);
      var i :| 0 <= i < |fields| && fields[i].loc == loc;
      assert Reads(doc, fields[i]);
    }
  }

  /** Progress of an inspection after n fields. */
  ghost predicate Inspected(det: Detector, doc: Json, fields: seq<TextField>, n: nat, action: string,
                            texts: map<Loc, string>, root: Json, errs: nat, redactions: seq<Redaction>)
  {
    && n <= |fields|
    && Scanned(det, fields, n, texts)
    && Rewritten(doc, if action == ACTION_MASK then texts else map[], root)
    && (errs > 0 <==> SomeFailed(det, fields, n))
    && (redactions == [] <==> texts == map[])
  }

  lemma PutStep(doc: Json, action: string, texts: map<Loc, string>, root: Json, put: bool, loc: Loc, masked: string)
    requires Rewritten(doc, if action == ACTION_MASK then texts else map[], root)
    ensures Rewritten(doc, if action == ACTION_MASK then (if put then texts[loc := masked] else texts) else map[],
                      if action == ACTION_MASK && put then Put(root, loc, masked) else root)
  {
    if action == ACTION_MASK {
      RewrittenCompose(doc, texts, root, loc, masked);
    }
  }

  lemma FailStep(det: Detector, fields: seq<TextField>, n: nat)
    requires n < |fields|
    ensures SomeFailed(det, fields, n + 1) <==> SomeFailed(det, fields, n) || TextFailures(det, fields[n].text) != []
  {
  }

  lemma InspectStep(det: Detector, doc: Json, fields: seq<TextField>, n: nat, action: string,
                    texts: map<Loc, string>, root: Json, errs: nat, redactions: seq<Redaction>, spans: seq<Span>,
                    failed: seq<string>, masked: string)
    requires n < |fields| && DistinctLocs(fields)
    requires Inspected(det, doc, fields, n, action, texts, root, errs, redactions)
    requires MergeOf(TextClaims(det, fields[n].text), spans) && failed == TextFailures(det, fields[n].text)
    requires spans != [] ==> Masked(fields[n].text, spans, masked)
    ensures Inspected(det, doc, fields, n + 1, action, if spans == [] then texts else texts[fields[n].loc := masked],
                      if action == ACTION_MASK && spans != [] then Put(root, fields[n].loc, masked) else root,
                      errs + |failed|, redactions + RedactionsOf(fields[n], spans))
  {
    var loc := fields[n].loc;
    ScanStep(det, fields, n, texts, spans, masked);
    PutStep(doc, action, texts, root, spans != [], loc, masked);
    FailStep(det, fields, n);
    assert loc in texts[loc := masked];
  }

  lemma InspectDone(det: Detector, d: Dialect, doc: Json, fields: seq<TextField>, action: string,
                    texts: map<Loc, string>, root: Json, errs: nat, redactions: seq<Redaction>)
    requires doc.Obj? && Walks(doc, fields, LocatedIn(d, doc))
    requires Inspected(det, doc, fields, |fields|, action, texts, root, errs, redactions)
    ensures errs > 0 <==> AnyFailure(det, d, doc)
    ensures redactions == [] <==> !AnyClaim(det, d, doc)
    ensures root.Obj? && (action == ACTION_MASK ==> MaskedDocument(det, d, doc, root))
  {
    ScanComplete(det, d, doc, fields, texts);
    FailureComplete(det, d, doc, fields);
    var put := if action == ACTION_MASK then texts else map[];
    assert ShapeAt(root, []) == Retext(ShapeAt(doc, []), put, []);
  }
}
