/**
 * Prices as decimal strings and as on-chain integers (pkg/price/price.go), and the choice of amount and payment token
 * by currency (internal/price/price.go).
 */
module Price {
  import opened Types
  import opened Decimals

  const NATIVE_TOKEN_DECIMALS: Int32 := 18
  const ISO_DECIMALS: Int32 := 6

  function Pow10(n: nat): nat {
    if n == 0 then 1 else 10 * Pow10(n - 1)
  }

  function Zeros(n: nat): string {
    if n == 0 then "" else Zeros(n - 1) + "0"
  }

  // ---------- Scaling ----------

  /** Subtraction of two values of Go's int32 type. */
  function SubInt32(a: Int32, b: Int32): Int32 {
    var d: int := a - b;
    if d >= 0x8000_0000 then d - 0x1_0000_0000 else if d < -0x8000_0000 then d + 0x1_0000_0000 else d
  }

  /** big.Int's Exp without a modulus: the result is 1 for exponents that are not positive. */
  function Exp10(y: int): nat {
    if y <= 0 then 1 else Pow10(y)
  }

  /** None is the error return: more decimals than the total, or a string that is not a number. */
  function ToBigInt(value: string, decimals: Int32, totalDecimals: Int32): Option<int> {
    if decimals > totalDecimals then None
    else
      var v := ParseBigInt(value);
      if v.None? then None else Some(v.value * Exp10(SubInt32(totalDecimals, decimals)))
  }

  lemma MulAssociates(a: int, b: int, c: int)
    ensures (a * b) * c == a * (b * c)
  {
  }

  lemma {:induction false} Pow10Positive(n: nat)
    ensures Pow10(n) >= 1 && (n > 0 ==> Pow10(n) >= 10)
  {
    if n > 0 {
      Pow10Positive(n - 1);
    }
  }

  lemma {:induction false} Pow10Sum(m: nat, n: nat)
    ensures Pow10(m + n) == Pow10(m) * Pow10(n)
  {
    if m > 0 {
      Pow10Sum(m - 1, n);
      MulAssociates(10, Pow10(m - 1), Pow10(n));
    }
  }

  lemma DigitsAppendZero(digits: string)
    requires IsDigits(digits)
    ensures IsDigits(digits + "0") && DigitsValue(digits + "0") == DigitsValue(digits) * 10
  {
  }

  lemma {:induction false} DigitsValueOfZeros(digits: string, n: nat)
    requires IsDigits(digits)
    ensures IsDigits(digits + Zeros(n)) && DigitsValue(digits + Zeros(n)) == DigitsValue(digits) * Pow10(n)
  {
    if n == 0 {
      assert digits + Zeros(0) == digits;
    } else {
      var shorter := digits + Zeros(n - 1);
      DigitsValueOfZeros(digits, n - 1);
      assert digits + Zeros(n) == shorter + "0";
      DigitsAppendZero(shorter);
      MulAssociates(DigitsValue(digits), Pow10(n - 1), 10);
    }
  }

  /**
   * Scaling is exact: for 0 <= decimals <= total the result is the number written with (total - decimals) zeros
   * appended to its digits.
   */
  lemma ScalingAppendsZeros(value: string, decimals: Int32, totalDecimals: Int32)
    requires 0 <= decimals <= totalDecimals
    ensures ParseBigInt(value).None? <==> ToBigInt(value, decimals, totalDecimals).None?
    ensures ParseBigInt(value).Some? ==>
              ToBigInt(value, decimals, totalDecimals) == ParseBigInt(value + Zeros(totalDecimals - decimals))
  {
    if ParseBigInt(value).Some? {
      ParseWithZeros(value, totalDecimals - decimals);
    }
  }

  lemma ParseWithZeros(value: string, n: nat)
    requires ParseBigInt(value).Some?
    ensures ParseBigInt(value + Zeros(n)) == Some(ParseBigInt(value).value * Pow10(n))
  {
    UnsignedAppend(value, Zeros(n));
    DigitsValueOfZeros(Unsigned(value), n);
    SignedScale(Negative(value), DigitsValue(Unsigned(value)), Pow10(n));
  }

  lemma UnsignedAppend(value: string, tail: string)
    requires Unsigned(value) != ""
    ensures Unsigned(value + tail) == Unsigned(value) + tail && Negative(value + tail) == Negative(value)
  {
  }

  lemma SignedScale(negative: bool, n: nat, p: nat)
    ensures n * p >= 0 && Signed(negative, n * p) == Signed(negative, n) * p
  {
  }

  /**
   * With negative decimals, which version 3 prices can carry, the difference to the total may leave the int32 range.
   * For a nonzero value the result is value * 10^(total - decimals) iff it does not.
   */
  lemma ScalingExactIffNoOverflow(value: string, decimals: Int32, totalDecimals: Int32)
    requires decimals <= totalDecimals && ParseBigInt(value).Some? && ParseBigInt(value).value != 0
    ensures var exponent: nat := totalDecimals - decimals;
            ToBigInt(value, decimals, totalDecimals) == Some(ParseBigInt(value).value * Pow10(exponent))
            <==> exponent < 0x8000_0000
  {
    var exponent: nat := totalDecimals - decimals;
    var v := ParseBigInt(value).value;
    Pow10Positive(exponent);
    if exponent >= 0x8000_0000 {
      assert SubInt32(totalDecimals, decimals) < 0;
      MulOneOnly(v, Pow10(exponent));
    }
  }

  lemma MulOneOnly(v: int, p: nat)
    requires v != 0 && p >= 10
    ensures v * p != v
  {
  }

  /** Version 3 prices carry int32 decimals. At the smallest of them one unit scales to one unit: the shift wraps. */
  lemma NegativeDecimalsOverflow()
    ensures ToBigInt("1", -0x8000_0000, NATIVE_TOKEN_DECIMALS) == Some(1)
    ensures GetPriceAndTokenV3(Some(PriceV3("1", -0x8000_0000, NativeToken)), Tokens(_ => None, _ => 0))
            == Ok(Amount(1, NATIVE_PAYMENT_TOKEN, 0))
  {
    assert Unsigned("1") == "1";
    ParseDigits("1");
    assert DigitsValue("1") == 1 by {
      assert "1"[..0] == "";
    }
    assert SubInt32(NATIVE_TOKEN_DECIMALS, -0x8000_0000) < 0;
  }

  lemma {:induction false} Pow10Monotone(m: nat, n: nat)
    requires m < n
    ensures Pow10(m) < Pow10(n)
  {
    if m + 1 < n {
      Pow10Monotone(m, n - 1);
    } else {
      Pow10Positive(m);
    }
    Pow10Positive(n - 1);
  }

  lemma CancelFactor(a: int, b: int, c: int)
    requires c > 0
    ensures a * c == b * c <==> a == b
  {
  }

  /** Scaling a price and then multiplying out the decimals of both prices. */
  lemma ShiftedTo(v: int, d: nat, other: nat, t: nat)
    requires d <= t
    ensures v * Pow10(t - d) * Pow10(d + other) == v * Pow10(other) * Pow10(t)
  {
    Pow10Sum(t - d, d + other);
    Pow10Sum(other, t);
    assert t - d + (d + other) == other + t;
    MulAssociates(v, Pow10(t - d), Pow10(d + other));
    MulAssociates(v, Pow10(other), Pow10(t));
  }

  /** Scaling is canonical: two prices scale to the same integer iff they denote the same amount. */
  lemma SameScaledIffSameAmount(value1: string, decimals1: Int32, value2: string, decimals2: Int32, total: Int32)
    requires 0 <= decimals1 <= total && 0 <= decimals2 <= total
    requires ParseBigInt(value1).Some? && ParseBigInt(value2).Some?
    ensures ToBigInt(value1, decimals1, total) == ToBigInt(value2, decimals2, total)
            <==> ParseBigInt(value1).value * Pow10(decimals2) == ParseBigInt(value2).value * Pow10(decimals1)
  {
    var v1, v2 := ParseBigInt(value1).value, ParseBigInt(value2).value;
    assert ToBigInt(value1, decimals1, total) == Some(v1 * Pow10(total - decimals1));
    assert ToBigInt(value2, decimals2, total) == Some(v2 * Pow10(total - decimals2));
    SameShiftedIff(v1, decimals1, v2, decimals2, total);
  }

  lemma SameShiftedIff(v1: int, d1: nat, v2: int, d2: nat, t: nat)
    requires d1 <= t && d2 <= t
    ensures v1 * Pow10(t - d1) == v2 * Pow10(t - d2) <==> v1 * Pow10(d2) == v2 * Pow10(d1)
  {
    ShiftedTo(v1, d1, d2, t);
    ShiftedTo(v2, d2, d1, t);
    assert d2 + d1 == d1 + d2;
    Pow10Positive(d1 + d2);
    Pow10Positive(t);
    CancelFactor(v1 * Pow10(t - d1), v2 * Pow10(t - d2), Pow10(d1 + d2));
    CancelFactor(v1 * Pow10(d2), v2 * Pow10(d1), Pow10(t));
  }

  // ---------- Currencies ----------

  const NATIVE_PAYMENT_TOKEN: Address := 0
  const ISO_PAYMENT_TOKEN: Address := 1

  datatype Currency = NativeToken | TokenCurrency(contract: string) | IsoCurrency(code: int) | Unset

  /** Version 3 carries int32 decimals, versions 4 and 5 uint32. */
  datatype PriceV3 = PriceV3(value: string, decimals: Int32, currency: Currency)
  datatype PriceV4 = PriceV4(value: string, decimals: UInt32, currency: Currency)
  datatype PriceV5 = PriceV5(value: string, decimals: UInt32, currency: Currency)

  datatype Amount = Amount(price: int, paymentToken: Address, isoCurrency: int)

  datatype PriceError = MissingPrice | UnknownCurrency | DecimalsUnavailable | BadAmount | Panic

  datatype PriceResult = Ok(amount: Amount) | Err(error: PriceError)

  /** The chain as the handler sees it: each token's decimals, and how contract addresses are read. */
  datatype Tokens = Tokens(decimalsOf: Address -> Option<Int32>, fromHex: string -> Address)

  function Converted(value: string, decimals: Int32, total: Int32, token: Address, iso: int): PriceResult {
    match ToBigInt(value, decimals, total)
    case None => Err(BadAmount)
    case Some(price) => Ok(Amount(price, token, iso))
  }

  function GetPriceAndTokenV3(p: Option<PriceV3>, t: Tokens): PriceResult {
    if p.None? then Err(MissingPrice) else
    var price := p.value;
    match price.currency
    case NativeToken => Converted(price.value, price.decimals, NATIVE_TOKEN_DECIMALS, NATIVE_PAYMENT_TOKEN, 0)
    case TokenCurrency(contract) =>
      var address := t.fromHex(contract);
      if t.decimalsOf(address).None? then Err(DecimalsUnavailable)
      else Converted(price.value, price.decimals, t.decimalsOf(address).value, address, 0)
    case IsoCurrency(code) => Converted(price.value, price.decimals, ISO_DECIMALS, ISO_PAYMENT_TOKEN, code)
    case Unset => Err(UnknownCurrency)
  }

  /** MustUInt32ToInt32 panics above the int32 range. */
  function ConvertedUnsigned(value: string, decimals: UInt32, total: Int32, token: Address, iso: int): PriceResult {
    if decimals >= 0x8000_0000 then Err(Panic) else Converted(value, decimals, total, token, iso)
  }

  function GetPriceAndTokenV4(p: Option<PriceV4>, t: Tokens): PriceResult {
    if p.None? then Err(MissingPrice) else
    var PriceV4(value, decimals, currency) := p.value;
    match currency
    case NativeToken => ConvertedUnsigned(value, decimals, NATIVE_TOKEN_DECIMALS, NATIVE_PAYMENT_TOKEN, 0)
    case TokenCurrency(contract) =>
      var address := t.fromHex(contract);
      if t.decimalsOf(address).None? then Err(DecimalsUnavailable)
      else ConvertedUnsigned(value, decimals, t.decimalsOf(address).value, address, 0)
    case IsoCurrency(code) => ConvertedUnsigned(value, decimals, ISO_DECIMALS, ISO_PAYMENT_TOKEN, code)
    case Unset => Err(UnknownCurrency)
  }

  function GetPriceAndTokenV5(p: Option<PriceV5>, t: Tokens): PriceResult {
    if p.None? then Err(MissingPrice) else
    var PriceV5(value, decimals, currency) := p.value;
    match currency
    case NativeToken => ConvertedUnsigned(value, decimals, NATIVE_TOKEN_DECIMALS, NATIVE_PAYMENT_TOKEN, 0)
    case TokenCurrency(contract) =>
      var address := t.fromHex(contract);
      if t.decimalsOf(address).None? then Err(DecimalsUnavailable)
      else ConvertedUnsigned(value, decimals, t.decimalsOf(address).value, address, 0)
    case IsoCurrency(code) => ConvertedUnsigned(value, decimals, ISO_DECIMALS, ISO_PAYMENT_TOKEN, code)
    case Unset => Err(UnknownCurrency)
  }

  /** How many decimals the payment token of a currency has. */
  function TotalDecimals(c: Currency, t: Tokens): Option<Int32> {
    match c
    case NativeToken => Some(18)
    case TokenCurrency(contract) => t.decimalsOf(t.fromHex(contract))
    case IsoCurrency(_) => Some(6)
    case Unset => None
  }

  /** The address of the payment token of a currency. */
  function PaymentToken(c: Currency, t: Tokens): Address {
    match c
    case TokenCurrency(contract) => t.fromHex(contract)
    case IsoCurrency(_) => 1
    case _ => 0
  }

  /** The price has a number for its value, a currency of known decimals, and no more decimals than that. */
  predicate Convertible(value: string, decimals: int, c: Currency, t: Tokens) {
    TotalDecimals(c, t).Some? && decimals <= TotalDecimals(c, t).value && ParseBigInt(value).Some?
  }

  /**
   * The handlers of all versions compute one function: a successful result is the value scaled to the decimals of the
   * payment token, and corresponding prices give the same result in every version.
   */
  lemma VersionsAgree(value: string, decimals: Int32, c: Currency, t: Tokens)
    requires decimals >= 0
    ensures GetPriceAndTokenV3(Some(PriceV3(value, decimals, c)), t)
            == GetPriceAndTokenV4(Some(PriceV4(value, decimals, c)), t)
            == GetPriceAndTokenV5(Some(PriceV5(value, decimals, c)), t)
    ensures var r := GetPriceAndTokenV5(Some(PriceV5(value, decimals, c)), t);
            && (r.Ok? <==> Convertible(value, decimals, c, t))
            && (r.Ok? ==>
                  && Some(r.amount.price) == ParseBigInt(value + Zeros(TotalDecimals(c, t).value - decimals))
                  && r.amount.paymentToken == PaymentToken(c, t)
                  && r.amount.isoCurrency == if c.IsoCurrency? then c.code else 0)
  {
    var total := TotalDecimals(c, t);
    if total.Some? && decimals <= total.value {
      ScalingAppendsZeros(value, decimals, total.value);
    }
  }

  /** Decimals beyond int32 panic, once the currency and its decimals are known. */
  lemma PanicsIff(value: string, decimals: UInt32, c: Currency, t: Tokens)
    ensures GetPriceAndTokenV5(Some(PriceV5(value, decimals, c)), t) == Err(Panic)
            <==> decimals >= 0x8000_0000 && TotalDecimals(c, t).Some?
    ensures GetPriceAndTokenV4(Some(PriceV4(value, decimals, c)), t)
            == GetPriceAndTokenV5(Some(PriceV5(value, decimals, c)), t)
  {
  }

  /**
   * Two parties that read a contract's address alike but may be told different decimals: both get the same payment
   * token, and the same amount iff the decimals agree or the value is zero.
   */
  lemma SameAmountIffSameDecimals(p: PriceV5, t1: Tokens, t2: Tokens)
    requires forall contract :: t1.fromHex(contract) == t2.fromHex(contract)
    requires GetPriceAndTokenV5(Some(p), t1).Ok? && GetPriceAndTokenV5(Some(p), t2).Ok?
    ensures var a1, a2 := GetPriceAndTokenV5(Some(p), t1).amount, GetPriceAndTokenV5(Some(p), t2).amount;
            && a1.paymentToken == a2.paymentToken
            && (a1.price == a2.price <==>
                  TotalDecimals(p.currency, t1) == TotalDecimals(p.currency, t2)
                  || ParseBigInt(p.value) == Some(0))
  {
    var v := ParseBigInt(p.value).value;
    var d1: nat, d2: nat := TotalDecimals(p.currency, t1).value - p.decimals,
                            TotalDecimals(p.currency, t2).value - p.decimals;
    assert GetPriceAndTokenV5(Some(p), t1).amount.price == v * Pow10(d1);
    assert GetPriceAndTokenV5(Some(p), t2).amount.price == v * Pow10(d2);
    if d1 < d2 {
      Pow10Monotone(d1, d2);
    } else if d2 < d1 {
      Pow10Monotone(d2, d1);
    }
    SameProductIff(v, Pow10(d1), Pow10(d2));
  }

  lemma SameProductIff(v: int, p: int, q: int)
    ensures v * p == v * q <==> v == 0 || p == q
  {
    if v * p == v * q {
      assert v * (p - q) == 0;
    }
  }
}
