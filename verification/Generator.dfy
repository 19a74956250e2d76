/**
 * The synthetic value generator (internal/harness/gen.go). Draws from the random source
 * are arbitrary digits: what is promised holds for every draw.
 */
module Generator {
  import opened Common
  import opened Checksums

  predicate DigitText(s: string) { forall i :: 0 <= i < |s| ==> IsDigit(s[i]) }

  lemma {:induction false} DigitsOfDigitText(s: string)
    requires DigitText(s)
    ensures |Digits(s)| == |s| && forall i :: 0 <= i < |s| ==> Digits(s)[i] == DigitValue(s[i])
  {
    if s == [] {
    } else {
      DigitsOfDigitText(s[1..]);
    }
  }

  lemma CheckDigitCompletes(ds: seq<int>, check: int)
    requires check == (10 - LuhnSum(ds, true) % 10) % 10
    ensures LuhnSum(ds + [check], false) % 10 == 0
  {
    assert (ds + [check])[..|ds|] == ds;
  }

  function CheckDigit(digits: string): int { (10 - LuhnSum(Digits(digits), true) % 10) % 10 }

  function Grouped(full: string): string
    requires |full| == 16
  {
    full[..4] + " " + full[4..8] + " " + full[8..12] + " " + full[12..]
  }

  /** Fifteen drawn digits and their check digit, in one run or in four groups of four. */
  function CardText(digits: string, grouped: bool): string
    requires |digits| == 15
  {
    var full := digits + [DigitChar(CheckDigit(digits))];
    if grouped then Grouped(full) else full
  }

  predicate Drawn(digits: string) {
    |digits| == 15 && DigitText(digits) && ("4" <= digits || "51" <= digits || "37" <= digits)
  }

  /** What the generator may draw as a card. */
  ghost predicate GeneratedCard(card: string) {
    exists digits: string, grouped: bool {:trigger CardText(digits, grouped)} ::
      Drawn(digits) && card == CardText(digits, grouped)
  }

  /** A card with its last digit one higher, or nought for nine. */
  ghost predicate TrapCard(trap: string) {
    exists card: string {:trigger GeneratedCard(card)} ::
      GeneratedCard(card) && card != "" && IsDigit(card[|card| - 1])
        && trap == card[|card| - 1 := Bumped(card[|card| - 1])]
  }

  function Bumped(last: char): char
    requires IsDigit(last)
  {
    DigitChar((DigitValue(last) + 1) % 10)
  }

  /** Every drawn card has sixteen digits that satisfy the independently written check. */
  lemma GeneratedCardValid(card: string)
    requires GeneratedCard(card)
    ensures |Digits(card)| == 16 && LuhnDigits(Digits(card))
    ensures card != "" && IsDigit(card[|card| - 1])
  {
    var digits: string, grouped: bool {:trigger CardText(digits, grouped)} :|
      Drawn(digits) && card == CardText(digits, grouped);
    DigitsOfDigitText(digits);
    var check := CheckDigit(digits);
    CheckDigitCompletes(Digits(digits), check);
    var full := digits + [DigitChar(check)];
    DigitsConcat(digits, [DigitChar(check)]);
    assert Digits([DigitChar(check)]) == [check];
    if grouped {
      GroupedDigits(full);
    }
  }

  /** No trap value has the digits of a card. */
  lemma TrapCardInvalid(trap: string)
    requires TrapCard(trap)
    ensures |Digits(trap)| == 16 && !LuhnDigits(Digits(trap))
  {
    var card: string {:trigger GeneratedCard(card)} :|
      GeneratedCard(card) && card != "" && IsDigit(card[|card| - 1])
        && trap == card[|card| - 1 := Bumped(card[|card| - 1])];
    GeneratedCardValid(card);
    BumpedCardInvalid(card, |card| - 1);
  }

  lemma BumpedCardInvalid(card: string, k: nat)
    requires k < |card| && IsDigit(card[k]) && LuhnDigits(Digits(card))
    ensures var trap := card[k := Bumped(card[k])];
      |Digits(trap)| == |Digits(card)| && !LuhnDigits(Digits(trap))
  {
    DigitsUpdate(card, k, Bumped(card[k]));
    DigitsRange(card);
    LuhnCatchesSubstitution(Digits(card), |Digits(card[..k])|, DigitValue(Bumped(card[k])));
  }

  /** Draws fifteen digits behind a card prefix and completes them. */
  method LuhnCard() returns (card: string)
    ensures GeneratedCard(card)
    ensures |Digits(card)| == 16 && LuhnDigits(Digits(card))
  {
    var digits := DrawDigits();
    var check := ChooseCheck(digits);
    var full := digits + [DigitChar(check)];
    var grouped: bool :| true;
    if grouped {
      card := full[..4] + " " + full[4..8] + " " + full[8..12] + " " + full[12..];
    } else {
      card := full;
    }
    assert card == CardText(digits, grouped);
    GeneratedCardValid(card);
  }

  method DrawDigits() returns (digits: string)
    ensures Drawn(digits)
  {
    var prefixes := ["4", "51", "37"];
    var pick :| 0 <= pick < 3;
    var prefix := prefixes[pick];
    digits := prefix;
    while |digits| < 15
      invariant |digits| <= 15 && DigitText(digits) && prefix <= digits
    {
      var d :| 0 <= d < 10;
      digits := digits + [DigitChar(d)];
    }
  }

  /** The generator's own walk over the digits, doubling from the last one on. */
  method ChooseCheck(digits: string) returns (check: int)
    requires DigitText(digits)
    ensures check == CheckDigit(digits)
  {
    DigitsOfDigitText(digits);
    ghost var ds := Digits(digits);
    var sum := 0;
    var double := true;
    var i := |digits| - 1;
    assert ds[..i + 1] == ds;
    while i >= 0
      invariant -1 <= i < |digits|
      invariant sum + LuhnSum(ds[..i + 1], double) == LuhnSum(ds, true)
    {
      var d := DigitValue(digits[i]);
      LuhnLast(ds, i, double);
      if double {
        d := d * 2;
        if d > 9 {
          d := d - 9;
        }
      }
      sum := sum + d;
      double := !double;
      i := i - 1;
    }
    check := (10 - sum % 10) % 10;
  }

  lemma GroupedDigits(full: string)
    requires |full| == 16
    ensures Digits(Grouped(full)) == Digits(full)
  {
    var a, b, c, d := full[..4], full[4..8], full[8..12], full[12..];
    assert Digits(" ") == [];
    DigitsConcat(a, " ");
    DigitsConcat(a + " ", b);
    DigitsConcat(a + " " + b, " ");
    DigitsConcat(a + " " + b + " ", c);
    DigitsConcat(a + " " + b + " " + c, " ");
    DigitsConcat(a + " " + b + " " + c + " ", d);
    DigitsConcat(a, b);
    DigitsConcat(a + b, c);
    DigitsConcat(a + b + c, d);
    assert full == a + b + c + d;
  }

  /** A card whose check digit is one too high: the trap value. */
  method InvalidLuhn() returns (card: string)
    ensures TrapCard(card)
    ensures |Digits(card)| == 16 && !LuhnDigits(Digits(card))
  {
    var good := LuhnCard();
    GeneratedCardValid(good);
    var last := good[|good| - 1];
    var bump := DigitChar((DigitValue(last) + 1) % 10);
    card := good[..|good| - 1] + [bump];
    assert good[|good| - 1 := bump] == card;
    TrapCardInvalid(card);
  }

  /** No hyphen stands where the value is set into the text. */
  predicate NoHyphenAt(pre: string, post: string) {
    (pre == "" || pre[|pre| - 1] != '-') && (post == "" || post[0] != '-')
  }

  /** Put anywhere in a text, a generated card is recognised exactly if no hyphen touches it. */
  lemma CardRecognised(pre: string, card: string, post: string)
    requires GeneratedCard(card)
    ensures IsCard(pre + card + post, |pre|, |pre| + |card|) <==> NoHyphenAt(pre, post)
  {
    GeneratedCardValid(card);
    SetIntoText(pre, card, post);
  }

  /** Put anywhere in a text, a trap value is never recognised. */
  lemma TrapNeverRecognised(pre: string, trap: string, post: string)
    requires TrapCard(trap)
    ensures !IsCard(pre + trap + post, |pre|, |pre| + |trap|)
  {
    TrapCardInvalid(trap);
    SetIntoText(pre, trap, post);
  }

  lemma SetIntoText(pre: string, value: string, post: string)
    ensures (pre + value + post)[|pre|..|pre| + |value|] == value
    ensures value != "" ==> (NotHyphenAdjacent(pre + value + post, |pre|, |pre| + |value|) <==> NoHyphenAt(pre, post))
  {
    var text, end := pre + value + post, |pre| + |value|;
    assert |pre| > 0 ==> text[|pre| - 1] == pre[|pre| - 1];
    assert end < |text| ==> text[end] == post[0];
  }

  function TwoDigits(n: int): string
    requires 0 <= n < 100
  {
    [DigitChar(n / 10), DigitChar(n % 10)]
  }

  lemma StepMod(a: int, k: int, d: int)
    ensures (a % 97 * k + d) % 97 == (a * k + d) % 97
  {
    var q := a / 97;
    assert a == 97 * q + a % 97;
    assert a * k + d == (a % 97 * k + d) + 97 * (q * k);
    ModAdd(a % 97 * k + d, q * k);
  }

  lemma ModAdd(x: int, q: int)
    ensures (x + 97 * q) % 97 == x % 97
  {
  }

  lemma SpellsTail(r: int)
    requires 0 <= r < 97
    ensures IbanRem(r, "131400") == (r * 1000000 + 131400) % 97
  {
    var s := "131400";
    assert s[1..] == "31400" && s[1..][1..] == "1400" && s[1..][1..][1..] == "400";
    assert "400"[1..] == "00" && "00"[1..] == "0" && "0"[1..] == "";
    var a := r * 10 + 1;
    StepMod(a, 10, 3);
    StepMod(a * 10 + 3, 10, 1);
    StepMod((a * 10 + 3) * 10 + 1, 10, 4);
    StepMod(((a * 10 + 3) * 10 + 1) * 10 + 4, 10, 0);
    StepMod((((a * 10 + 3) * 10 + 1) * 10 + 4) * 10, 10, 0);
  }

  lemma SpellsTwoDigits(r: int, n: int)
    requires 0 <= r < 97 && 0 <= n < 100
    ensures IbanRem(r, TwoDigits(n)) == (r * 100 + n) % 97
  {
    var t, u := n / 10, n % 10;
    assert TwoDigits(n)[1..] == [DigitChar(u)] && [DigitChar(u)][1..] == [];
    var d := (r * 10 + t) % 97;
    assert IbanRem(r, TwoDigits(n)) == IbanRem(d, [DigitChar(u)]) == (d * 10 + u) % 97;
    StepMod(r * 10 + t, 10, u);
  }

  lemma SpellsCountry(r: int, rest: string)
    requires 0 <= r < 97
    ensures IbanRem(r, "DE" + rest) == IbanRem((r * 10000 + 1314) % 97, rest)
  {
    var s := "DE" + rest;
    assert s[0] == 'D' && s[1..] == "E" + rest && s[1..][0] == 'E' && s[1..][1..] == rest;
    var d := (r * 100 + 13) % 97;
    assert IbanRem(r, s) == IbanRem(d, s[1..]) == IbanRem((d * 100 + 14) % 97, rest);
    StepMod(r * 100 + 13, 100, 14);
  }

  lemma SpellsCheck(r: int, n: int)
    requires 0 <= r < 97 && 0 <= n < 100
    ensures IbanRem(r, "DE" + TwoDigits(n)) == (r * 1000000 + 131400 + n) % 97
  {
    SpellsCountry(r, TwoDigits(n));
    var e := (r * 10000 + 1314) % 97;
    SpellsTwoDigits(e, n);
    StepMod(r * 10000 + 1314, 100, n);
  }

  lemma CheckDigitsComplete(bban: string)
    requires |bban| == 18 && DigitText(bban)
    ensures var rem := IbanRem(0, bban + "131400");
      0 <= rem < 97 && IsIban("DE" + TwoDigits(98 - rem) + bban)
  {
    var r := IbanRem(0, bban);
    IbanRemRange(0, bban);
    IbanRemConcat(0, bban, "131400");
    SpellsTail(r);
    var rem := (r * 1000000 + 131400) % 97;
    var check := "DE" + TwoDigits(98 - rem);
    var s := check + bban;
    assert s[4..] == bban && s[..4] == check;
    IbanRemConcat(0, bban, check);
    SpellsCheck(r, 98 - rem);
    ModOne(r * 1000000 + 131400);
    forall i | 0 <= i < |s| ensures IbanChar(s[i]) {
      assert i >= 4 ==> s[i] == bban[i - 4];
    }
  }

  lemma ModOne(x: int)
    ensures (x + (98 - x % 97)) % 97 == 1
  {
    assert x == 97 * (x / 97) + x % 97;
    ModAdd(98, x / 97);
  }

  function IbanText(bban: string): string
    requires |bban| == 18
  {
    var rem := IbanRem(0, bban + "131400");
    if 0 <= rem < 97 then "DE" + TwoDigits(98 - rem) + bban else ""
  }

  /** What the generator may draw as an IBAN. */
  ghost predicate GeneratedIban(iban: string) {
    exists bban: string {:trigger IbanText(bban)} :: |bban| == 18 && DigitText(bban) && iban == IbanText(bban)
  }

  /** Put anywhere in a text, a generated IBAN is recognised, whatever touches it. */
  lemma IbanRecognised(pre: string, iban: string, post: string)
    requires GeneratedIban(iban)
    ensures IsIban((pre + iban + post)[|pre|..|pre| + |iban|])
  {
    var bban: string {:trigger IbanText(bban)} :| |bban| == 18 && DigitText(bban) && iban == IbanText(bban);
    CheckDigitsComplete(bban);
    SetIntoText(pre, iban, post);
  }

  /** A German IBAN: DE, two check digits, eighteen account digits. */
  method Iban() returns (iban: string)
    ensures GeneratedIban(iban)
    ensures |iban| == 22 && IsIban(iban)
  {
    var bban := "";
    for i := 0 to 18
      invariant |bban| == i && DigitText(bban)
    {
      var d :| 0 <= d < 10;
      bban := bban + [DigitChar(d)];
    }
    var rearranged := bban + "131400";
    var rem, k := 0, 0;
    while k < |rearranged|
      invariant k <= |rearranged|
      invariant IbanRem(rem, rearranged[k..]) == IbanRem(0, rearranged)
    {
      var c := rearranged[k];
      assert rearranged[k..][0] == c && rearranged[k..][1..] == rearranged[k + 1..];
      rem := (rem * 10 + (c as int - '0' as int)) % 97;
      k := k + 1;
    }
    CheckDigitsComplete(bban);
    iban := "DE" + TwoDigits(98 - rem) + bban;
    assert iban == IbanText(bban);
  }

  // ---- ground truth by construction ----

  /** A template part: literal text, or a slot with its drawn value. */
  datatype Part = Lit(text: string) | Slot(typ: string, value: string, trap: bool)

  datatype TruthSpan = TruthSpan(start: int, end: int, typ: string, value: string)

  datatype Item = Item(content: string, truth: seq<TruthSpan>, traps: seq<TruthSpan>)

  /** The span says where its value stands in the content. */
  predicate Locates(content: string, sp: TruthSpan) {
    0 <= sp.start <= sp.end <= |content| && content[sp.start..sp.end] == sp.value
  }

  function PartText(p: Part): string { if p.Lit? then p.text else p.value }

  /** The text of the first n parts. */
  function Joined(parts: seq<Part>, n: nat): string
    requires n <= |parts|
  {
    if n == 0 then "" else Joined(parts, n - 1) + PartText(parts[n - 1])
  }

  /** The types and values of the slots of one kind among the first n parts. */
  function Slots(parts: seq<Part>, n: nat, trap: bool): seq<(string, string)>
    requires n <= |parts|
  {
    if n == 0 then []
    else
      var p := parts[n - 1];
      Slots(parts, n - 1, trap) + if p.Slot? && p.trap == trap then [(p.typ, p.value)] else []
  }

  predicate Lists(spans: seq<TruthSpan>, slots: seq<(string, string)>) {
    |spans| == |slots| && forall k :: 0 <= k < |spans| ==> spans[k].typ == slots[k].0 && spans[k].value == slots[k].1
  }

  /**
   * The content is the parts joined; every slot yields one span that locates its value,
   * seeded values and traps apart, in order.
   */
  method Fill(parts: seq<Part>) returns (item: Item)
    ensures item.content == Joined(parts, |parts|)
    ensures Lists(item.truth, Slots(parts, |parts|, false)) && Lists(item.traps, Slots(parts, |parts|, true))
    ensures AllLocated(item.content, item.truth) && AllLocated(item.content, item.traps)
  {
    var content, truth, traps := "", [], [];
    for i := 0 to |parts|
      invariant content == Joined(parts, i)
      invariant Recorded(content, parts, i, false, truth) && Recorded(content, parts, i, true, traps)
    {
      var p := parts[i];
      RecordedStep(content, parts, i, false, truth);
      RecordedStep(content, parts, i, true, traps);
      if p.Lit? {
        content := content + p.text;
      } else {
        var sp := TruthSpan(|content|, |content| + |p.value|, p.typ, p.value);
        if p.trap {
          traps := traps + [sp];
        } else {
          truth := truth + [sp];
        }
        content := content + p.value;
      }
    }
    item := Item(content, truth, traps);
  }

  /** The spans are those of the slots of this kind so far, each where its value stands. */
  predicate Recorded(content: string, parts: seq<Part>, n: nat, trap: bool, spans: seq<TruthSpan>)
    requires n <= |parts|
  {
    Lists(spans, Slots(parts, n, trap)) && AllLocated(content, spans)
  }

  lemma RecordedStep(content: string, parts: seq<Part>, n: nat, trap: bool, spans: seq<TruthSpan>)
    requires n < |parts| && Recorded(content, parts, n, trap, spans)
    ensures var p := parts[n];
      && (p.Slot? && p.trap == trap ==>
            Recorded(content + p.value, parts, n + 1, trap,
                     spans + [TruthSpan(|content|, |content| + |p.value|, p.typ, p.value)]))
      && (p.Lit? || p.trap != trap ==> Recorded(content + PartText(p), parts, n + 1, trap, spans))
  {
    var p := parts[n];
    LocatedGrow(content, PartText(p), spans);
    assert (content + PartText(p))[|content|..|content| + |PartText(p)|] == PartText(p);
  }

  predicate AllLocated(content: string, spans: seq<TruthSpan>) {
    forall k :: 0 <= k < |spans| ==> Locates(content, spans[k])
  }

  lemma LocatedGrow(content: string, more: string, spans: seq<TruthSpan>)
    requires AllLocated(content, spans)
    ensures AllLocated(content + more, spans)
  {
    forall k | 0 <= k < |spans| ensures Locates(content + more, spans[k]) {
      var sp := spans[k];
      assert Locates(content, sp);
      assert (content + more)[sp.start..sp.end] == content[sp.start..sp.end];
    }
  }
}
