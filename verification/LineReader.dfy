/**
 * Scanning a relayed event stream for token counts (internal/gateway/stream.go). The stream
 * framing is that of section 9.2.6 of the WHATWG HTML Living Standard.
 */
module LineReader {
  import opened Common

  const MAX_LINE := 0x10_0000

  // ---- the lines of a stream ----

  /** The part of the stream after its last newline. */
  function Tail(s: string): string {
    if s == [] || s[|s| - 1] == '\n' then [] else Tail(s[..|s| - 1]) + [s[|s| - 1]]
  }

  /** The newline-terminated lines of the stream. */
  function Lines(s: string): seq<string> {
    if s == [] then []
    else if s[|s| - 1] == '\n' then Lines(s[..|s| - 1]) + [Tail(s[..|s| - 1])]
    else Lines(s[..|s| - 1])
  }

  /** The terminated lines, and the unterminated one if it holds anything. */
  function AllLines(s: string): seq<string> {
    Lines(s) + if Tail(s) == [] then [] else [Tail(s)]
  }

  lemma {:induction false} NoNewlineExtends(s: string, t: string)
    requires '\n' !in t
    ensures Tail(s + t) == Tail(s) + t && Lines(s + t) == Lines(s)
    decreases |t|
  {
    if t == [] {
      assert s + t == s;
    } else {
      var front := t[..|t| - 1];
      assert (s + t)[..|s + t| - 1] == s + front;
      NoNewlineExtends(s, front);
      assert t == front + [t[|t| - 1]];
    }
  }

  lemma NewlineCloses(s: string, t: string)
    requires '\n' !in t
    ensures Lines(s + t + "\n") == Lines(s) + [Tail(s) + t] && Tail(s + t + "\n") == []
  {
    NoNewlineExtends(s, t);
    var u := s + t + "\n";
    assert u[..|u| - 1] == s + t;
  }

  predicate IsSuffix(x: string, y: string) { |x| <= |y| && y[|y| - |x|..] == x }

  lemma SuffixExtends(x: string, y: string, t: string)
    requires IsSuffix(x, y)
    ensures IsSuffix(x + t, y + t) && IsSuffix(t, y + t)
  {
  }

  /** got is what was scanned of line: always a suffix, and all of it if the line fits. */
  predicate ScannedAs(got: string, line: string) {
    IsSuffix(got, line) && (|line| <= MAX_LINE ==> got == line)
  }

  /**
   * What a line reader has kept and scanned of the stream fed to it: the i-th scanned line
   * stands for the i-th line, and the kept part for the tail.
   */
  ghost predicate Reflects(partial: string, scanned: seq<string>, fed: string) {
    && |partial| <= MAX_LINE
    && ScannedAs(partial, Tail(fed))
    && |scanned| == |Lines(fed)|
    && (forall i :: 0 <= i < |scanned| ==> ScannedAs(scanned[i], Lines(fed)[i]))
  }

  lemma ReflectsClose(partial: string, scanned: seq<string>, fed: string, text: string)
    requires Reflects(partial, scanned, fed) && '\n' !in text
    ensures Reflects("", scanned + [partial + text], fed + text + "\n")
  {
    NewlineCloses(fed, text);
    SuffixExtends(partial, Tail(fed), text);
    var lines, lines' := Lines(fed), Lines(fed + text + "\n");
    forall i | 0 <= i < |scanned| + 1 ensures ScannedAs((scanned + [partial + text])[i], lines'[i]) {
      if i < |scanned| { assert lines'[i] == lines[i]; }
    }
  }

  lemma ReflectsKeep(partial: string, scanned: seq<string>, fed: string, rest: string)
    requires Reflects(partial, scanned, fed) && '\n' !in rest
    ensures Reflects(if |partial| + |rest| > MAX_LINE then "" else partial + rest, scanned, fed + rest)
  {
    NoNewlineExtends(fed, rest);
    SuffixExtends(partial, Tail(fed), rest);
  }

  lemma ReflectsWhole(partial: string, scanned: seq<string>, fed: string)
    requires Reflects(partial, scanned, fed) && Fits(fed)
    ensures scanned == Lines(fed) && partial == Tail(fed)
  {
  }

  /** Every line of the stream fits the reader's buffer. */
  predicate Fits(s: string) {
    |Tail(s)| <= MAX_LINE && forall i :: 0 <= i < |Lines(s)| ==> |Lines(s)[i]| <= MAX_LINE
  }

  // ---- counts ----

  /** What one line reports, if anything: tokens in and tokens out. */
  type Usage = string -> Option<(int, int)>

  function HighIn(usage: Usage, lines: seq<string>): int {
    if lines == [] then 0
    else
      var rest, u := HighIn(usage, lines[..|lines| - 1]), usage(lines[|lines| - 1]);
      if u.Some? then Max(rest, u.value.0) else rest
  }

  function HighOut(usage: Usage, lines: seq<string>): int {
    if lines == [] then 0
    else
      var rest, u := HighOut(usage, lines[..|lines| - 1]), usage(lines[|lines| - 1]);
      if u.Some? then Max(rest, u.value.1) else rest
  }

  /** n is the largest count that any of the lines reports through part, and at least zero. */
  ghost predicate IsHigh(usage: Usage, part: ((int, int)) -> int, lines: seq<string>, n: int) {
    && n >= 0
    && (forall x :: x in lines && usage(x).Some? ==> part(usage(x).value) <= n)
    && (n == 0 || exists x :: x in lines && usage(x).Some? && part(usage(x).value) == n)
  }

  lemma {:induction false} HighIsHighest(usage: Usage, lines: seq<string>)
    ensures IsHigh(usage, (p: (int, int)) => p.0, lines, HighIn(usage, lines))
    ensures IsHigh(usage, (p: (int, int)) => p.1, lines, HighOut(usage, lines))
  {
    if lines == [] {
    } else {
      var front, x := lines[..|lines| - 1], lines[|lines| - 1];
      HighIsHighest(usage, front);
      assert lines == front + [x];
      assert forall y :: y in front ==> y in lines;
    }
  }

  /** Totals depend on which events occur, not on how often or in which order. */
  lemma HighIgnoresOrderAndRepeats(usage: Usage, a: seq<string>, b: seq<string>)
    requires forall x :: x in a <==> x in b
    ensures HighIn(usage, a) == HighIn(usage, b) && HighOut(usage, a) == HighOut(usage, b)
  {
    HighIsHighest(usage, a);
    HighIsHighest(usage, b);
  }

  // ---- the scanner ----

  /** A line reader with the high-water marks its scan function keeps. */
  class Scanner {
    const usage: Usage
    var partial: string
    var tokensIn: int
    var tokensOut: int
    ghost var fed: string
    ghost var scanned: seq<string>

    constructor (usage: Usage)
      ensures this.usage == usage && Valid() && fed == "" && partial == "" && scanned == []
    {
      this.usage := usage;
      partial, fed, scanned := "", "", [];
      tokensIn, tokensOut := 0, 0;
    }

    /** The marks are those of the lines scanned. */
    ghost predicate Tallied()
      reads this
    {
      tokensIn == HighIn(usage, scanned) && tokensOut == HighOut(usage, scanned)
    }

    ghost predicate Valid()
      reads this
    {
      Reflects(partial, scanned, fed) && Tallied()
    }

    method Take(tin: int, tout: int)
      modifies this`tokensIn, this`tokensOut
      ensures tokensIn == Max(old(tokensIn), tin) && tokensOut == Max(old(tokensOut), tout)
    {
      if tin > tokensIn {
        tokensIn := tin;
      }
      if tout > tokensOut {
        tokensOut := tout;
      }
    }

    method Scan(line: string)
      requires Tallied()
      modifies this`tokensIn, this`tokensOut, this`scanned
      ensures scanned == old(scanned) + [line] && Tallied()
    {
      var u := usage(line);
      if u.Some? {
        Take(u.value.0, u.value.1);
      }
      scanned := scanned + [line];
      assert scanned[..|scanned| - 1] == old(scanned);
    }

    /** One complete line: its kept part and text, up to and including the newline. */
    method CloseLine(text: string)
      requires Valid() && '\n' !in text
      modifies this
      ensures Valid() && partial == "" && fed == old(fed) + text + "\n"
      ensures scanned == old(scanned) + [old(partial) + text]
    {
      ReflectsClose(partial, scanned, fed, text);
      var line := text;
      if |partial| > 0 {
        line := partial + line;
        partial := "";
      }
      assert line == old(partial) + text;
      Scan(line);
      fed := fed + text + "\n";
    }

    /** The rest of a chunk, without newline: kept if it fits, else dropped to resynchronise. */
    method KeepRest(rest: string)
      requires Valid() && '\n' !in rest
      modifies this`partial, this`fed
      ensures Valid() && fed == old(fed) + rest
      ensures partial == if |old(partial)| + |rest| > MAX_LINE then "" else old(partial) + rest
    {
      ReflectsKeep(partial, scanned, fed, rest);
      fed := fed + rest;
      if |rest| == 0 {
        assert partial + rest == partial;
        return;
      }
      if |partial| + |rest| > MAX_LINE {
        partial := "";
        return;
      }
      partial := partial + rest;
    }

    method Feed(chunk: string)
      requires Valid()
      modifies this
      ensures Valid() && fed == old(fed) + chunk
    {
      var rest := chunk;
      ghost var done := 0;
      assert old(fed) + chunk[..0] == old(fed);
      while true
        invariant Valid() && 0 <= done <= |chunk| && rest == chunk[done..]
        invariant fed == old(fed) + chunk[..done]
        decreases |rest|
      {
        var i := IndexOf(rest, '\n');
        if i == |rest| {
          break;
        }
        Advance(old(fed), chunk, done, i);
        CloseLine(rest[..i]);
        rest := rest[i + 1..];
        done := done + i + 1;
      }
      assert rest[..|rest|] == rest;
      assert old(fed) + chunk == (old(fed) + chunk[..done]) + rest by {
        assert chunk == chunk[..done] + rest;
      }
      KeepRest(rest);
    }

    /** Scans a trailing line that arrived without a newline. */
    method Flush()
      requires Valid()
      modifies this
      ensures partial == "" && Tallied() && fed == old(fed)
      ensures scanned == old(scanned) + if old(partial) == "" then [] else [old(partial)]
    {
      if |partial| > 0 {
        Scan(partial);
        partial := "";
      }
    }

    /** The end of the stream: flush and read off the totals. */
    method Finish() returns (tin: int, tout: int)
      requires Valid()
      modifies this
      ensures Fits(old(fed)) ==> tin == HighIn(usage, AllLines(old(fed))) && tout == HighOut(usage, AllLines(old(fed)))
    {
      if Fits(fed) { ReflectsWhole(partial, scanned, fed); }
      Flush();
      tin, tout := tokensIn, tokensOut;
    }
  }

  lemma Advance(base: string, chunk: string, done: nat, i: nat)
    requires done + i < |chunk| && chunk[done..][i] == '\n'
    ensures base + chunk[..done] + chunk[done..][..i] + "\n" == base + chunk[..done + i + 1]
    ensures chunk[done..][i + 1..] == chunk[done + i + 1..]
  {
    assert chunk[..done + i + 1] == chunk[..done] + chunk[done..][..i] + "\n";
  }

  // ---- relaying ----

  datatype ReadStatus = More | Eof | Failed

  /** One read from the upstream body: the bytes it yielded and how it ended. */
  datatype ReadResult = ReadResult(bytes: string, status: ReadStatus)

  function Concat(chunks: seq<ReadResult>): string {
    if chunks == [] then "" else Concat(chunks[..|chunks| - 1]) + chunks[|chunks| - 1].bytes
  }

  datatype RelayEnd = Complete | ReadError | WriteError

  /**
   * Relays the body read by read, scanning a copy on the way. accepted(k) says whether the
   * caller takes the k-th write. What is relayed is what was read, byte for byte; when the
   * stream ends and its lines fit, the totals are the high-water marks over all its lines,
   * however it was cut into reads.
   */
  method CopyStream(chunks: seq<ReadResult>, accepted: nat -> bool, usage: Usage)
    returns (relayed: string, tokensIn: int, tokensOut: int, end: RelayEnd, ghost count: nat)
    requires chunks != [] && chunks[|chunks| - 1].status != More
    ensures count <= |chunks| && relayed == Concat(chunks[..count])
    ensures end == Complete ==> 0 < count && chunks[count - 1].status == Eof
    ensures end == ReadError ==> 0 < count && chunks[count - 1].status == Failed
    ensures end == WriteError ==> count < |chunks| && chunks[count].bytes != "" && !accepted(count)
    ensures forall k :: 0 <= k < count - 1 ==> chunks[k].status == More
    ensures end == Complete && Fits(relayed) ==>
              tokensIn == HighIn(usage, AllLines(relayed)) && tokensOut == HighOut(usage, AllLines(relayed))
  {
    var scanner := new Scanner(usage);
    relayed := "";
    count := 0;
    tokensIn, tokensOut, end := 0, 0, Complete;
    var k := 0;
    while k < |chunks|
      invariant k <= |chunks| && count == k
      invariant scanner.Valid() && scanner.usage == usage && scanner.fed == relayed == Concat(chunks[..k])
      invariant forall j :: 0 <= j < k ==> chunks[j].status == More
    {
      var r := chunks[k];
      assert chunks[..k + 1][..k] == chunks[..k];
      if |r.bytes| > 0 {
        if !accepted(k) {
          return relayed, scanner.tokensIn, scanner.tokensOut, WriteError, k;
        }
        relayed := relayed + r.bytes;
        scanner.Feed(r.bytes);
      } else {
        assert relayed + r.bytes == relayed;
      }
      k := k + 1;
      count := k;
      if r.status == Eof {
        tokensIn, tokensOut := scanner.Finish();
        return relayed, tokensIn, tokensOut, Complete, k;
      }
      if r.status == Failed {
        return relayed, scanner.tokensIn, scanner.tokensOut, ReadError, k;
      }
    }
    assert false;
  }
}
