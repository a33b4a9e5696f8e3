/**
 * The price of a stay, how it is stored, and how every reader takes it apart
 * again. `src/payments/payments.service.ts` builds the amount; the wallet, the
 * office and the revenue report all net it with the same subtractions.
 */
module Quotes {
  import opened Wrappers
  import opened Entities

  /** `Math.round`: halves go up. */
  function MathRound(x: real): (n: int)
    ensures n as real - 0.5 <= x < n as real + 0.5
  {
    (x + 0.5).Floor
  }

  /** `Math.ceil`. */
  function MathCeil(x: real): (n: int)
    ensures n as real - 1.0 < x <= n as real
  {
    -((-x).Floor)
  }

  function Or<T>(column: Option<T>, otherwise: T): T {
    match column
    case None => otherwise
    case Some(x) => x
  }

  predicate IsWhole(x: real) {
    x.Floor as real == x
  }

  // ---------- Decimal numbers ----------

  function Pow10(n: nat): (p: nat)
    ensures p >= 1
  {
    if n == 0 then 1 else 10 * Pow10(n - 1)
  }

  /** A number of a request: `scaled` divided by ten to the power `scale`. */
  datatype Decimal = Decimal(scaled: int, scale: nat) {
    function Value(): real {
      scaled as real / Pow10(scale) as real
    }
  }

  function Whole(n: int): Decimal {
    Decimal(n, 0)
  }

  lemma {:induction false} QuotientOfDifference(n: real, x: real, p: real)
    requires p > 0.0
    ensures (n * p - x) / p == n - x / p
  {
  }

  function Minus(n: int, d: Decimal): (difference: Decimal)
    ensures difference.Value() == n as real - d.Value()
  {
    var p := Pow10(d.scale);
    assert (n * p - d.scaled) as real / p as real == n as real - d.scaled as real / p as real by {
      QuotientOfDifference(n as real, d.scaled as real, p as real);
    }
    Decimal(n * p - d.scaled, d.scale)
  }

  // ---------- Quoting and netting ----------

  datatype Quote = Quote(base: int, serviceFee: int, vat: int, cautionFee: int, credits: Decimal) {
    function Total(): Decimal {
      Minus(base + serviceFee + cautionFee + vat, credits)
    }

    function Stored(): Charges {
      Charges(Total().Value(), serviceFee, vat, Some(credits.Value()), Some(cautionFee))
    }

    /** Two percent of the total, rounded up. */
    function CreditsEarned(): (earned: int)
      ensures 0.02 * Total().Value() <= earned as real < 0.02 * Total().Value() + 1.0
    {
      MathCeil(0.02 * Total().Value())
    }
  }

  function QuoteOn(base: int, cautionFee: Option<int>, credits: Decimal): Quote {
    var serviceFee, vat := MathRound(10.0 / 100.0 * base as real), MathRound(7.5 / 100.0 * base as real);
    Quote(base, serviceFee, vat, Or(cautionFee, 0), credits)
  }

  function QuoteFor(price: int, nights: int, cautionFee: Option<int>, credits: Decimal): Quote {
    QuoteOn(price * nights, cautionFee, credits)
  }

  /** What the readers leave of a stored amount before they split it over the nights. */
  function NetAmount(c: Charges): real {
    c.amount - c.transactionFee as real - c.vat as real - Or(c.credits, 0.0) - Or(c.cautionFee, 0) as real
  }

  /** Credits come off once when quoting and once more when netting. */
  lemma {:induction false} NettingInvertsQuoting(price: int, nights: int, cautionFee: Option<int>, credits: Decimal)
    ensures var net := NetAmount(QuoteFor(price, nights, cautionFee, credits).Stored());
            && net == (price * nights) as real - 2.0 * credits.Value()
            && (credits.Value() == 0.0 <==> net == (price * nights) as real)
  {
    var quote := QuoteFor(price, nights, cautionFee, credits);
    assert quote.Total().Value()
           == (quote.base + quote.serviceFee + quote.cautionFee + quote.vat) as real - credits.Value();
  }

  lemma {:induction false} WholeDifference(n: int, x: real)
    ensures IsWhole(n as real - x) <==> IsWhole(x)
  {
    if IsWhole(x) {
      assert n as real - x == (n - x.Floor) as real;
    }
    if IsWhole(n as real - x) {
      assert x == (n - (n as real - x).Floor) as real;
    }
  }

  /** Everything but the credits is whole, so the total is whole exactly when the credits are. */
  lemma {:induction false} WholeExactlyWithWholeCredits(
    price: int, nights: int, cautionFee: Option<int>, credits: Decimal)
    ensures IsWhole(QuoteFor(price, nights, cautionFee, credits).Total().Value()) <==> IsWhole(credits.Value())
  {
    var quote := QuoteFor(price, nights, cautionFee, credits);
    WholeDifference(quote.base + quote.serviceFee + quote.cautionFee + quote.vat, credits.Value());
  }

  lemma {:induction false} FeesAreSeventeenAndAHalfPercent(
    price: int, nights: int, cautionFee: Option<int>, credits: Decimal)
    ensures var q := QuoteFor(price, nights, cautionFee, credits);
            && -0.5 <= q.serviceFee as real - 0.1 * (price * nights) as real <= 0.5
            && -0.5 <= q.vat as real - 0.075 * (price * nights) as real <= 0.5
            && -1.0 <= (q.serviceFee + q.vat) as real - 0.175 * (price * nights) as real <= 1.0
  {
  }

  /** The total is the price of the nights, both fees and the caution fee, less the credits; the parts are stored. */
  lemma {:induction false} QuoteAddsUp(price: int, nights: int, cautionFee: Option<int>, credits: Decimal)
    ensures var quote := QuoteFor(price, nights, cautionFee, credits);
            var fee := match cautionFee case None => 0 case Some(n) => n;
            var total := (price * nights + quote.serviceFee + quote.vat + fee) as real - credits.Value();
            && quote.Total().Value() == total
            && quote.Stored() == Charges(total, quote.serviceFee, quote.vat, Some(credits.Value()), Some(fee))
  {
  }

  lemma {:induction false} RoundingIsMonotone(x: real, y: real)
    requires x <= y
    ensures MathRound(x) <= MathRound(y)
  {
  }

  lemma {:induction false} FeesGrow(base: int, larger: int)
    requires base <= larger
    ensures MathRound(10.0 / 100.0 * base as real) <= MathRound(10.0 / 100.0 * larger as real)
    ensures MathRound(7.5 / 100.0 * base as real) <= MathRound(7.5 / 100.0 * larger as real)
  {
    RoundingIsMonotone(10.0 / 100.0 * base as real, 10.0 / 100.0 * larger as real);
    RoundingIsMonotone(7.5 / 100.0 * base as real, 7.5 / 100.0 * larger as real);
  }

  lemma {:induction false} LargerBaseCostsMore(base: int, larger: int, cautionFee: Option<int>, credits: Decimal)
    requires base <= larger
    ensures QuoteOn(larger, cautionFee, credits).Total().Value()
            >= QuoteOn(base, cautionFee, credits).Total().Value() + (larger - base) as real
  {
    FeesGrow(base, larger);
  }

  lemma {:induction false} LongerStaysCostMore(
    price: int, nights: int, extra: nat, cautionFee: Option<int>, credits: Decimal)
    requires 0 <= price
    ensures QuoteFor(price, nights + extra, cautionFee, credits).Total().Value()
            >= QuoteFor(price, nights, cautionFee, credits).Total().Value() + (price * extra) as real
  {
    assert price * (nights + extra) == price * nights + price * extra;
    LargerBaseCostsMore(price * nights, price * (nights + extra), cautionFee, credits);
  }

  // ---------- The amount sent to the card gateway ----------

  // It is the total printed in decimal with "00" appended, read back as a number.

  function DigitChar(d: nat): char
    requires d < 10
  {
    ('0' as int + d) as char
  }

  function PrintNat(n: nat): (s: string)
    ensures |s| > 0 && s[0] != '-'
  {
    if n < 10 then [DigitChar(n)] else PrintNat(n / 10) + [DigitChar(n % 10)]
  }

  /** `n` divided by ten to the power `places`, written with a point. */
  function PrintWithPoint(n: nat, places: nat): (s: string)
    ensures |s| > 0 && s[0] != '-'
  {
    if places == 0 then PrintNat(n) + "." else PrintWithPoint(n / 10, places - 1) + [DigitChar(n % 10)]
  }

  /** The same number without trailing zeros after the point. */
  function Stripped(d: Decimal): Decimal
    decreases d.scale
  {
    if d.scale == 0 || d.scaled % 10 != 0 then d else Stripped(Decimal(d.scaled / 10, d.scale - 1))
  }

  function PrintUnsigned(n: nat, places: nat): (s: string)
    ensures |s| > 0 && s[0] != '-'
  {
    if places == 0 then PrintNat(n) else PrintWithPoint(n, places)
  }

  /** A number in a template literal: the shortest decimal form, with a point only when it is needed. */
  function PrintNumber(d: Decimal): string {
    var shortest := Stripped(d);
    if shortest.scaled < 0 then "-" + PrintUnsigned(-shortest.scaled, shortest.scale)
    else PrintUnsigned(shortest.scaled, shortest.scale)
  }

  function DigitOf(c: char): Option<nat> {
    if '0' <= c <= '9' then Some(c as int - '0' as int) else None
  }

  /** Reads a run of decimal digits; anything else is not a number. */
  function ParseNat(s: string): Option<nat> {
    if s == [] then None
    else
      match DigitOf(s[|s| - 1])
      case None => None
      case Some(units) =>
        if |s| == 1 then Some(units)
        else
          match ParseNat(s[..|s| - 1])
          case None => None
          case Some(tens) => Some(10 * tens + units)
  }

  /** Reads digits, a point, and more digits. */
  function ParseWithPoint(s: string): Option<Decimal> {
    if s == [] then None
    else if s[|s| - 1] == '.' then
      match ParseNat(s[..|s| - 1])
      case None => None
      case Some(n) => Some(Decimal(n, 0))
    else
      match DigitOf(s[|s| - 1])
      case None => None
      case Some(units) =>
        match ParseWithPoint(s[..|s| - 1])
        case None => None
        case Some(d) => Some(Decimal(10 * d.scaled + units, d.scale + 1))
  }

  function ParseUnsigned(s: string): Option<Decimal> {
    match ParseNat(s)
    case Some(n) => Some(Decimal(n, 0))
    case None => ParseWithPoint(s)
  }

  /** Unary plus on a decimal string with an optional sign. */
  function ParseNumber(s: string): Option<Decimal> {
    if s != [] && s[0] == '-' then
      match ParseUnsigned(s[1..])
      case None => None
      case Some(d) => Some(Decimal(-d.scaled, d.scale))
    else
      ParseUnsigned(s)
  }

  function ChargedAmount(total: Decimal): Option<Decimal> {
    ParseNumber(PrintNumber(total) + "00")
  }

  lemma {:induction false} ParseAppended(s: string, d: nat)
    requires d < 10
    ensures ParseNat(s).Some? ==> ParseNat(s + [DigitChar(d)]) == Some(10 * ParseNat(s).value + d)
    ensures s != [] && ParseNat(s).None? ==> ParseNat(s + [DigitChar(d)]).None?
    ensures ParseWithPoint(s).Some? ==>
              ParseWithPoint(s + [DigitChar(d)])
              == Some(Decimal(10 * ParseWithPoint(s).value.scaled + d, ParseWithPoint(s).value.scale + 1))
  {
    assert (s + [DigitChar(d)])[..|s|] == s;
  }

  lemma {:induction false} PrintedNatParses(n: nat)
    ensures ParseNat(PrintNat(n)) == Some(n)
  {
    if n >= 10 {
      PrintedNatParses(n / 10);
      ParseAppended(PrintNat(n / 10), n % 10);
    }
  }

  lemma {:induction false} PrintedPointParses(n: nat, places: nat)
    ensures ParseWithPoint(PrintWithPoint(n, places)) == Some(Decimal(n, places))
    ensures ParseNat(PrintWithPoint(n, places)).None?
  {
    if places == 0 {
      PrintedNatParses(n);
      assert (PrintNat(n) + ".")[..|PrintNat(n)|] == PrintNat(n);
    } else {
      PrintedPointParses(n / 10, places - 1);
      ParseAppended(PrintWithPoint(n / 10, places - 1), n % 10);
    }
  }

  /** Two zeros after whole digits multiply by a hundred; after a point they change nothing but the scale. */
  lemma {:induction false} ZerosAppended(n: nat, places: nat)
    ensures ParseUnsigned(PrintUnsigned(n, places) + "00")
            == Some(Decimal(100 * n, if places == 0 then 0 else places + 2))
  {
    var s := PrintUnsigned(n, places);
    if places == 0 {
      PrintedNatParses(n);
    } else {
      PrintedPointParses(n, places);
    }
    ParseAppended(s, 0);
    ParseAppended(s + [DigitChar(0)], 0);
    assert s + "00" == s + [DigitChar(0)] + [DigitChar(0)];
  }

  lemma {:induction false} TenfoldQuotient(x: real, p: real)
    requires p > 0.0
    ensures (10.0 * x) / (10.0 * p) == x / p
  {
  }

  lemma {:induction false} StrippingKeepsTheValue(d: Decimal)
    ensures Stripped(d).Value() == d.Value()
    ensures Stripped(d).scale == 0 || Stripped(d).scaled % 10 != 0
    decreases d.scale
  {
    if d.scale != 0 && d.scaled % 10 == 0 {
      var shorter := Decimal(d.scaled / 10, d.scale - 1);
      StrippingKeepsTheValue(shorter);
      TenfoldQuotient(shorter.scaled as real, Pow10(shorter.scale) as real);
    }
  }

  lemma {:induction false} MultipleOfTen(x: int, n: int, p: nat)
    requires p > 0 && x as real / (10 * p) as real == n as real
    ensures x % 10 == 0
  {
    assert x as real == n as real * (10 * p) as real;
    assert x == n * (10 * p) == 10 * (n * p);
  }

  /** A number is whole exactly when its shortest form has no point. */
  lemma {:induction false} WholeExactlyWithoutPoint(d: Decimal)
    requires d.scale == 0 || d.scaled % 10 != 0
    ensures IsWhole(d.Value()) <==> d.scale == 0
  {
    if d.scale == 0 {
      assert d.Value() == d.scaled as real;
    } else if IsWhole(d.Value()) {
      MultipleOfTen(d.scaled, d.Value().Floor, Pow10(d.scale - 1));
    }
  }

  lemma {:induction false} ChargedDecimal(total: Decimal)
    ensures var d := Stripped(total);
            ChargedAmount(total) == Some(Decimal(100 * d.scaled, if d.scale == 0 then 0 else d.scale + 2))
  {
    var d := Stripped(total);
    if d.scaled < 0 {
      ZerosAppended(-d.scaled, d.scale);
      assert (PrintNumber(total) + "00")[1..] == PrintUnsigned(-d.scaled, d.scale) + "00";
    } else {
      ZerosAppended(d.scaled, d.scale);
    }
  }

  /**
   * The gateway is asked for a hundred times the total exactly when the total is
   * whole; a total with a fraction, which fractional credits can leave, is sent as it is.
   */
  lemma {:induction false} ChargedIsHundredfold(total: Decimal)
    ensures ChargedAmount(total).Some?
    ensures ChargedAmount(total).value.Value() == (if IsWhole(total.Value()) then 100.0 else 1.0) * total.Value()
    ensures ChargedAmount(total).value.Value() == 100.0 * total.Value() <==> IsWhole(total.Value())
  {
    var d := Stripped(total);
    ChargedDecimal(total);
    StrippingKeepsTheValue(total);
    WholeExactlyWithoutPoint(d);
    if d.scale > 0 {
      var p := Pow10(d.scale);
      assert Pow10(d.scale + 2) == 10 * (10 * p);
      TenfoldQuotient(10.0 * d.scaled as real, 10.0 * p as real);
      TenfoldQuotient(d.scaled as real, p as real);
    }
  }

  /**
   * In terms of the request: the gateway is asked for a hundred times the total
   * exactly when the applied credits are whole.
   */
  lemma {:induction false} HundredfoldExactlyForWholeCredits(
    price: int, nights: int, cautionFee: Option<int>, credits: Decimal)
    ensures var total := QuoteFor(price, nights, cautionFee, credits).Total();
            && ChargedAmount(total).Some?
            && (ChargedAmount(total).value.Value() == 100.0 * total.Value() <==> IsWhole(credits.Value()))
  {
    ChargedIsHundredfold(QuoteFor(price, nights, cautionFee, credits).Total());
    WholeExactlyWithWholeCredits(price, nights, cautionFee, credits);
  }

  /** Asking for minus half a credit adds half a naira to the total, and the gateway gets the total itself. */
  lemma {:induction false} FractionsAreSentAsTheyAre()
    ensures var total := QuoteFor(100000, 1, None, Decimal(-5, 1)).Total();
            ChargedAmount(total).Some? && total.Value() == ChargedAmount(total).value.Value() == 117500.5
  {
    var quote := QuoteFor(100000, 1, None, Decimal(-5, 1));
    assert quote == Quote(100000, 10000, 7500, 0, Decimal(-5, 1));
    assert Pow10(1) == 10 * Pow10(0);
    assert quote.credits.Value() == -0.5;
    var total := Minus(117500, quote.credits);
    assert total.Value().Floor == 117500;
    ChargedIsHundredfold(total);
  }

  /** What the card gateway is asked to charge for a total, in hundredths. */
  method AmountToSend(total: Decimal) returns (sent: Decimal)
    ensures sent.Value() == (if IsWhole(total.Value()) then 100.0 else 1.0) * total.Value()
  {
    ChargedIsHundredfold(total);
    sent := ParseNumber(PrintNumber(total) + "00").value;
  }
}
