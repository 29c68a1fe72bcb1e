/** Fixed-point money: the charge for a provider call (src/access/fixed-cost-rates.ts) and the
    string forms of a microdollar amount (src/access/microdollars.ts). */
module CostArithmetic {
  import opened Options
  import opened DecimalStrings
  import opened AgentLoop
  import opened Text

  const MILLION := 1_000_000
  const MAX_SQLITE_INTEGER := 9_223_372_036_854_775_807

  // ----- the charge

  /** Microdollars per million tokens. */
  datatype FixedCostRate = FixedCostRate(input: nat, output: nat, cacheRead: Option<nat>, cacheCreation: Option<nat>)

  datatype CostResult = Charged(amount: nat) | UnknownModel(model: string)

  function CeilDiv(numerator: nat, denominator: nat): (q: nat)
    requires denominator > 0
    ensures q * denominator >= numerator && (q == 0 || (q - 1) * denominator < numerator)
  {
    if numerator == 0 then 0 else (numerator + denominator - 1) / denominator
  }

  /** One component: charged only when the usage reports it and the model has a rate for it. */
  function OptionalCharge(tokens: Option<nat>, rate: Option<nat>): nat {
    if tokens.Some? && rate.Some? then CeilDiv(tokens.value * rate.value, MILLION) else 0
  }

  function Charge(usage: Usage, rate: FixedCostRate): nat {
    CeilDiv(usage.inputTokens * rate.input, MILLION) + CeilDiv(usage.outputTokens * rate.output, MILLION)
      + OptionalCharge(usage.cacheRead, rate.cacheRead) + OptionalCharge(usage.cacheCreation, rate.cacheCreation)
  }

  function ComputeFixedCost(usage: Usage, model: string, rates: map<string, FixedCostRate>): CostResult {
    if model in rates then Charged(Charge(usage, rates[model])) else UnknownModel(model)
  }

  /** The exact cost, in millionths of a microdollar. */
  function ExactCost(usage: Usage, rate: FixedCostRate): nat {
    Product(Some(usage.inputTokens), Some(rate.input)) + Product(Some(usage.outputTokens), Some(rate.output))
      + Product(usage.cacheRead, rate.cacheRead) + Product(usage.cacheCreation, rate.cacheCreation)
  }

  function Product(tokens: Option<nat>, rate: Option<nat>): nat {
    if tokens.Some? && rate.Some? then tokens.value * rate.value else 0
  }

  /** A configured model is charged never less than the exact cost and less than four microdollars
      more; an unknown model is refused, not guessed. */
  lemma ChargeIsNeverBelowCost(usage: Usage, model: string, rates: map<string, FixedCostRate>)
    ensures ComputeFixedCost(usage, model, rates).Charged? <==> model in rates
    ensures model in rates ==>
              var charge := ComputeFixedCost(usage, model, rates).amount;
              ExactCost(usage, rates[model]) <= charge * MILLION < ExactCost(usage, rates[model]) + 4 * MILLION
  {
    if model in rates {
      var rate := rates[model];
    }
  }

  /** `q` is `numerator` millionths, rounded up. */
  ghost predicate RoundedUp(q: nat, numerator: nat) {
    numerator <= q * MILLION < numerator + MILLION
  }

  /** Every component is rounded up by itself, and one without tokens or without a rate is free. */
  lemma ChargeRoundsEachComponent(usage: Usage, rate: FixedCostRate) returns (parts: seq<nat>)
    ensures |parts| == 4 && Charge(usage, rate) == parts[0] + parts[1] + parts[2] + parts[3]
    ensures RoundedUp(parts[0], usage.inputTokens * rate.input) && RoundedUp(parts[1], usage.outputTokens * rate.output)
    ensures match (usage.cacheRead, rate.cacheRead)
            case (Some(tokens), Some(price)) => RoundedUp(parts[2], tokens * price)
            case _ => parts[2] == 0
    ensures match (usage.cacheCreation, rate.cacheCreation)
            case (Some(tokens), Some(price)) => RoundedUp(parts[3], tokens * price)
            case _ => parts[3] == 0
  {
    parts := [CeilDiv(usage.inputTokens * rate.input, MILLION), CeilDiv(usage.outputTokens * rate.output, MILLION),
              OptionalCharge(usage.cacheRead, rate.cacheRead), OptionalCharge(usage.cacheCreation, rate.cacheCreation)];
  }

  /** Splitting usage never lowers the bill, and raises it by at most four microdollars. */
  lemma ChargeIsSubadditive(u: Usage, v: Usage, rate: FixedCostRate)
    ensures Charge(AddUsage(u, v), rate) <= Charge(u, rate) + Charge(v, rate) <= Charge(AddUsage(u, v), rate) + 4
  {
    ComponentSplit(Some(u.inputTokens), Some(v.inputTokens), Some(rate.input));
    ComponentSplit(Some(u.outputTokens), Some(v.outputTokens), Some(rate.output));
    ComponentSplit(u.cacheRead, v.cacheRead, rate.cacheRead);
    ComponentSplit(u.cacheCreation, v.cacheCreation, rate.cacheCreation);
  }

  lemma ComponentSplit(a: Option<nat>, b: Option<nat>, rate: Option<nat>)
    ensures OptionalCharge(AddOptional(a, b), rate) <= OptionalCharge(a, rate) + OptionalCharge(b, rate)
              <= OptionalCharge(AddOptional(a, b), rate) + 1
  {
    ProductSplit(a, b, rate);
  }

  lemma ProductSplit(a: Option<nat>, b: Option<nat>, rate: Option<nat>)
    ensures Product(AddOptional(a, b), rate) == Product(a, rate) + Product(b, rate)
  {
    if rate.Some? {
      var x: nat := if a.Some? then a.value else 0;
      var y: nat := if b.Some? then b.value else 0;
      assert (x + y) * rate.value == x * rate.value + y * rate.value;
    }
  }

  function ChargeByTurn(iterations: seq<Iteration>, rate: FixedCostRate): nat {
    if iterations == [] then 0
    else
      var n := |iterations| - 1;
      ChargeByTurn(iterations[..n], rate) + Charge(iterations[n].usage, rate)
  }

  /** Over a whole run of the agent loop: charging each turn is never cheaper than charging the total
      usage, and costs at most four microdollars more for each turn after the first. */
  lemma {:induction false} RunIsNeverUndercharged(iterations: seq<Iteration>, rate: FixedCostRate)
    ensures Charge(TotalUsage(iterations), rate) <= ChargeByTurn(iterations, rate)
    ensures |iterations| > 0 ==>
              ChargeByTurn(iterations, rate) <= Charge(TotalUsage(iterations), rate) + 4 * (|iterations| - 1)
  {
    if iterations == [] {
      assert Charge(EMPTY_USAGE, rate) == 0;
    } else {
      var n := |iterations| - 1;
      var front, last := iterations[..n], iterations[n].usage;
      RunIsNeverUndercharged(front, rate);
      ChargeIsSubadditive(TotalUsage(front), last, rate);
      if n == 0 {
        UsageIsAMonoid(last, EMPTY_USAGE, EMPTY_USAGE);
      }
    }
  }

  // ----- the string codec

  datatype ParseResult = Parsed(amount: nat) | NotAnInteger | OutOfRange

  function SerializeMicrodollars(value: int): Option<string> {
    if value < 0 then None else Some(NatToString(value))
  }

  function ParseMicrodollars(value: string): ParseResult {
    if value == "" || !AllDigits(value) then NotAnInteger
    else
      var parsed := StringToNat(value);
      if parsed > MAX_SQLITE_INTEGER then OutOfRange else Parsed(parsed)
  }

  /** The codec is a round trip on exactly the amounts the database can hold. */
  lemma CodecRoundTrips(value: int)
    ensures (SerializeMicrodollars(value).Some? && ParseMicrodollars(SerializeMicrodollars(value).value) == Parsed(value))
              <==> 0 <= value < 0x8000_0000_0000_0000
    ensures SerializeMicrodollars(value).None? <==> value < 0
    ensures value >= 0x8000_0000_0000_0000 ==> ParseMicrodollars(SerializeMicrodollars(value).value) == OutOfRange
  {
    if value >= 0 {
      ReadPrinted(value);
    }
  }

  /** The other way round: an accepted string is written back unchanged exactly when it has no
      leading zero. Strings with leading zeros are accepted too. */
  lemma ParsedStringsPrintBack(s: string)
    requires ParseMicrodollars(s).Parsed?
    ensures SerializeMicrodollars(ParseMicrodollars(s).amount) == Some(s) <==> (|s| == 1 || s[0] != '0')
  {
    PrintRead(s);
  }

  /** One such string: two zeros are accepted as the amount zero, which is written with one. */
  lemma LeadingZerosAreAccepted()
    ensures ParseMicrodollars("00") == Parsed(0) && SerializeMicrodollars(0) == Some("0")
  {
    assert "00"[..1] == "0" && "0"[..0] == "";
    assert StringToNat("0") == 10 * StringToNat("") + DigitValue('0');
    assert StringToNat("00") == 10 * StringToNat("0") + DigitValue('0');
  }

  // ----- the display

  function IntToString(n: int): string {
    if n < 0 then "-" + NatToString(-n) else NatToString(n)
  }

  function Zeros(n: nat): (s: string)
    ensures |s| == n && forall i :: 0 <= i < n ==> s[i] == '0'
  {
    if n == 0 then "" else Zeros(n - 1) + "0"
  }

  function PadCount(s: string, width: nat): nat {
    if |s| < width then width - |s| else 0
  }

  function PadStart(s: string, width: nat): string {
    Zeros(PadCount(s, width)) + s
  }

  /** Division and remainder that round toward zero. */
  function TruncDiv(a: int, b: int): int
    requires b > 0
  {
    if a >= 0 then a / b else -((-a) / b)
  }

  function TruncMod(a: int, b: int): int
    requires b > 0
  {
    a - TruncDiv(a, b) * b
  }

  function MicrodollarsToUsdDisplay(value: int): string {
    IntToString(TruncDiv(value, MILLION)) + "." + PadStart(IntToString(TruncMod(value, MILLION)), 6)
  }

  /** A non-negative amount shows exactly six digits after the point. */
  lemma DisplayHasSixDecimals(value: nat)
    ensures var s := MicrodollarsToUsdDisplay(value);
            |s| >= 8 && s[|s| - 7] == '.' && AllDigits(s[|s| - 6..]) && AllDigits(s[..|s| - 7])
  {
    var dollars, fraction := NatToString(value / MILLION), PadStart(NatToString(value % MILLION), 6);
    AtMostDigits(value % MILLION, 6);
    var s := MicrodollarsToUsdDisplay(value);
    assert s == dollars + "." + fraction && |fraction| == 6;
    assert s[|s| - 6..] == fraction && s[..|s| - 7] == dollars;
  }

  /** The display has six digits after the point and reads as the amount. */
  ghost predicate ReadsAs(s: string, value: nat) {
    && |s| >= 8 && s[|s| - 7] == '.' && AllDigits(s[|s| - 6..]) && AllDigits(s[..|s| - 7])
    && StringToNat(s[..|s| - 7]) * MILLION + StringToNat(s[|s| - 6..]) == value
  }

  /** A non-negative amount reads back. */
  lemma DisplayReadsBack(value: nat)
    ensures ReadsAs(MicrodollarsToUsdDisplay(value), value)
  {
    var dollars, rest := value / MILLION, value % MILLION;
    DisplayOf(dollars, rest);
    assert dollars * MILLION + rest == value;
  }

  /** A negative one reads back behind its sign exactly when it is a whole number of dollars. */
  lemma NegativeReadsBack(value: int)
    requires value < 0
    ensures var s := MicrodollarsToUsdDisplay(value); (s[0] == '-' && ReadsAs(s[1..], -value)) <==> value % MILLION == 0
  {
    if value % MILLION == 0 { WholeReadsBack(value); } else { NegativeRest(value); }
  }

  lemma WholeReadsBack(value: int)
    requires value < 0 && value % MILLION == 0
    ensures var s := MicrodollarsToUsdDisplay(value); s[0] == '-' && ReadsAs(s[1..], -value)
  {
    var dollars := -value / MILLION;
    assert dollars * MILLION == -value;
    WholeDollars(dollars);
  }

  lemma WholeDollars(dollars: int)
    requires dollars > 0
    ensures var s := IntToString(-dollars) + "." + PadStart(IntToString(0), 6);
            s[0] == '-' && ReadsAs(s[1..], dollars * MILLION)
  {
    DisplayOf(dollars, 0);
    var fraction := "." + PadStart(NatToString(0), 6);
    assert IntToString(-dollars) == "-" + NatToString(dollars);
    assert ("-" + NatToString(dollars) + fraction)[1..] == NatToString(dollars) + fraction;
    assert IntToString(-dollars) + "." + PadStart(IntToString(0), 6) == "-" + NatToString(dollars) + fraction;
    assert NatToString(dollars) + "." + PadStart(NatToString(0), 6) == NatToString(dollars) + fraction;
  }

  lemma DisplayOf(dollars: nat, rest: nat)
    requires rest < MILLION
    ensures ReadsAs(NatToString(dollars) + "." + PadStart(NatToString(rest), 6), dollars * MILLION + rest)
  {
    AtMostDigits(rest, 6);
    ReadPrinted(dollars);
    PaddedReads(rest, 6);
    var fraction := PadStart(NatToString(rest), 6);
    var s := NatToString(dollars) + "." + fraction;
    assert |fraction| == 6 && s[|s| - 6..] == fraction && s[..|s| - 7] == NatToString(dollars);
  }

  lemma NegativeRest(value: int)
    requires value < 0 && value % MILLION != 0
    ensures var s := MicrodollarsToUsdDisplay(value); s[0] == '-' ==> !ReadsAs(s[1..], -value)
  {
    var s := MicrodollarsToUsdDisplay(value);
    var rest := TruncMod(value, MILLION);
    var fraction := PadStart(IntToString(rest), 6);
    SignShows(rest, 6);
    var k :| 0 <= k < |fraction| && fraction[k] == '-';
    var at := |s| - |fraction| + k;
    assert s[at] == '-';
  }

  function Pow10(k: nat): nat {
    if k == 0 then 1 else 10 * Pow10(k - 1)
  }

  lemma {:induction false} AtMostDigits(n: nat, k: nat)
    requires k > 0 && n < Pow10(k)
    ensures |NatToString(n)| <= k
  {
    if n >= 10 {
      AtMostDigits(n / 10, k - 1);
    }
  }

  lemma IntToStringInjective(a: int, b: int)
    requires IntToString(a) == IntToString(b)
    ensures a == b
  {
    assert a < 0 <==> IntToString(a)[0] == '-';
    assert b < 0 <==> IntToString(b)[0] == '-';
    if a < 0 {
      assert IntToString(a)[1..] == NatToString(-a) && IntToString(b)[1..] == NatToString(-b);
      PrintInjective(-a, -b);
    } else {
      PrintInjective(a, b);
    }
  }

  lemma {:induction false} ZerosDoNotCount(n: nat, s: string)
    requires AllDigits(s)
    ensures AllDigits(Zeros(n) + s) && StringToNat(Zeros(n) + s) == StringToNat(s)
    decreases |s|, n
  {
    var z := Zeros(n) + s;
    if s != "" {
      ZerosDoNotCount(n, s[..|s| - 1]);
      assert z[..|z| - 1] == Zeros(n) + s[..|s| - 1];
    } else if n > 0 {
      ZerosDoNotCount(n - 1, s);
      assert z[..|z| - 1] == Zeros(n - 1) + s;
    }
  }

  /** Padding keeps the sign visible. */
  lemma SignShows(r: int, width: nat)
    ensures r < 0 <==> '-' in PadStart(IntToString(r), width)
  {
    var s := IntToString(r);
    var z := Zeros(PadCount(s, width));
    if r < 0 {
      assert (z + s)[|z|] == '-';
    }
  }

  lemma SameSign(a: int, b: int, width: nat)
    requires PadStart(IntToString(a), width) == PadStart(IntToString(b), width)
    ensures a < 0 <==> b < 0
  {
    SignShows(a, width);
    SignShows(b, width);
  }

  /** Padding does not make two numbers look alike. */
  lemma PaddedInjective(a: int, b: int, width: nat)
    requires PadStart(IntToString(a), width) == PadStart(IntToString(b), width)
    ensures a == b
  {
    SameSign(a, b, width);
    if a >= 0 {
      PaddedReads(a, width);
      PaddedReads(b, width);
    } else {
      NegativePadded(-a, -b, width);
    }
  }

  /** A padded numeral still reads as its number. */
  lemma PaddedReads(r: nat, width: nat)
    ensures AllDigits(PadStart(IntToString(r), width)) && StringToNat(PadStart(IntToString(r), width)) == r
  {
    var s := IntToString(r);
    ReadPrinted(r);
    ZerosDoNotCount(PadCount(s, width), s);
  }

  lemma NegativePadded(a: nat, b: nat, width: nat)
    requires PadStart("-" + NatToString(a), width) == PadStart("-" + NatToString(b), width)
    ensures a == b
  {
    var y, z := NatToString(a), NatToString(b);
    var m, n := Zeros(PadCount("-" + y, width)), Zeros(PadCount("-" + z, width));
    assert m + ("-" + y) == m + ['-'] + y;
    assert n + ("-" + z) == n + ['-'] + z;
    SplitAt('-', m, y, n, z);
    PrintInjective(a, b);
  }

  /** The display determines the amount, of either sign. */
  lemma DisplayDeterminesAmount(a: int, b: int)
    requires MicrodollarsToUsdDisplay(a) == MicrodollarsToUsdDisplay(b)
    ensures a == b
  {
    var da, db := TruncDiv(a, MILLION), TruncDiv(b, MILLION);
    var ra, rb := TruncMod(a, MILLION), TruncMod(b, MILLION);
    SplitAt('.', IntToString(da), PadStart(IntToString(ra), 6), IntToString(db), PadStart(IntToString(rb), 6));
    IntToStringInjective(da, db);
    PaddedInjective(ra, rb, 6);
  }
}
