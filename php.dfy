/**
 * The two pieces of PHP semantics that `extractAttribute` relies on when it
 * reads `$attributes[$name][$index]` inside `empty()`: how a string array key
 * is turned into an integer key, and which string values `empty()` accepts.
 */
module Php {
  import opened Wrappers
  import opened Ascii

  /** PHP_INT_MAX on a 64-bit platform. */
  const IntMax: nat := 0x7FFF_FFFF_FFFF_FFFF

  /** `empty($v)` for a string `$v`: only the empty string and "0" are empty. */
  predicate IsEmpty(v: string) {
    v == "" || v == "0"
  }

  /** The number a string of decimal digits spells, most significant digit first. */
  function DecimalValue(ds: string): nat
    requires IsDigits(ds)
    decreases |ds|
  {
    if ds == [] then 0 else 10 * DecimalValue(ds[..|ds| - 1]) + DigitValue(ds[|ds| - 1])
  }

  /** The decimal spelling of `n`, without leading zeros. */
  function DecimalString(n: nat): (ds: string)
    ensures |ds| > 0 && IsDigits(ds)
  {
    if n < 10 then [DigitChar(n)] else DecimalString(n / 10) + [DigitChar(n % 10)]
  }

  /** "0", or a non-empty run of digits that does not start with '0'. */
  predicate IsCanonicalDecimal(key: string) {
    |key| > 0 && IsDigits(key) && (key[0] != '0' || key == "0")
  }

  /**
   * The position in a list that the string array key `key` reaches. PHP turns a
   * string key into an integer key only when it is the canonical decimal
   * spelling of an integer that fits the platform integer; every other string
   * stays a string key, which no list holds. A negative integer key ("-1")
   * reaches no position either.
   */
  function ListIndex(key: string): (r: Option<nat>)
    ensures r.Some? ==> r.value <= IntMax && key == DecimalString(r.value)
    ensures r.None? ==> forall n: nat :: n <= IntMax ==> key != DecimalString(n)
  {
    if IsCanonicalDecimal(key) && DecimalValue(key) <= IntMax then
      CanonicalRoundTrip(key);
      Some(DecimalValue(key))
    else
      NotASpelling(key);
      None
  }

  /**
   * `$list[$key]` read where a missing key gives no value: the element at
   * the position whose decimal spelling the key is, if the list has one.
   */
  function ListElement(list: seq<string>, key: string): (r: Option<string>)
    ensures r.Some? <==> exists n: nat :: n < |list| && n <= IntMax && key == DecimalString(n)
    ensures forall n: nat :: n < |list| && n <= IntMax && key == DecimalString(n) ==> r == Some(list[n])
  {
    SpellingsReachTheirPosition(key);
    match ListIndex(key)
    case Some(n) =>
      if n < |list| then
        assert n <= IntMax && key == DecimalString(n);
        Some(list[n])
      else
        None
    case None => None
  }

  lemma {:induction false} DecimalValueOfString(n: nat)
    ensures DecimalValue(DecimalString(n)) == n
  {
    var ds := DecimalString(n);
    if n < 10 {
      assert ds[..|ds| - 1] == [];
    } else {
      assert ds[..|ds| - 1] == DecimalString(n / 10);
      DecimalValueOfString(n / 10);
    }
  }

  lemma {:induction false} DecimalStringIsCanonical(n: nat)
    ensures IsCanonicalDecimal(DecimalString(n))
    ensures n > 0 ==> DecimalString(n)[0] != '0'
  {
    if n >= 10 {
      DecimalStringIsCanonical(n / 10);
    }
  }

  lemma {:induction false} LeadingDigitNonZero(ds: string)
    requires IsCanonicalDecimal(ds) && ds != "0"
    ensures DecimalValue(ds) > 0
  {
    if |ds| > 1 {
      var prefix := ds[..|ds| - 1];
      assert prefix[0] == ds[0];
      LeadingDigitNonZero(prefix);
    }
  }

  lemma {:induction false} CanonicalRoundTrip(key: string)
    requires IsCanonicalDecimal(key)
    ensures DecimalString(DecimalValue(key)) == key
  {
    var last := key[|key| - 1];
    DigitCharOfValue(last);
    if |key| == 1 {
      assert key[..0] == [];
    } else {
      var prefix := key[..|key| - 1];
      assert prefix[0] == key[0];
      LeadingDigitNonZero(prefix);
      CanonicalRoundTrip(prefix);
      var v := DecimalValue(key);
      assert v / 10 == DecimalValue(prefix) && v % 10 == DigitValue(last);
      assert key == prefix + [last];
    }
  }

  /** A key that is not a canonical decimal within the integer range spells no position. */
  lemma NotASpelling(key: string)
    requires !(IsCanonicalDecimal(key) && DecimalValue(key) <= IntMax)
    ensures forall n: nat :: n <= IntMax ==> key != DecimalString(n)
  {
    forall n: nat | n <= IntMax ensures key != DecimalString(n) {
      DecimalStringIsCanonical(n);
      DecimalValueOfString(n);
    }
  }

  lemma SpellingsReachTheirPosition(key: string)
    ensures forall n: nat :: n <= IntMax && key == DecimalString(n) ==> ListIndex(key) == Some(n)
  {
    forall n: nat | n <= IntMax && key == DecimalString(n) ensures ListIndex(key) == Some(n) {
      DecimalValueOfString(n);
    }
  }

  /** The only key that reaches list position `n` is the decimal spelling of `n`. */
  lemma ListIndexSpelling(key: string, n: nat)
    ensures ListIndex(key) == Some(n) <==> n <= IntMax && key == DecimalString(n)
  {
    if ListIndex(key) == Some(n) {
      CanonicalRoundTrip(key);
    }
    if n <= IntMax && key == DecimalString(n) {
      DecimalStringIsCanonical(n);
      DecimalValueOfString(n);
    }
  }

  /** A digit string whose value is past the end of a list reaches no element of it, canonical or not. */
  lemma ListElementPastEnd(list: seq<string>, key: string)
    requires IsDigits(key) && DecimalValue(key) >= |list|
    ensures ListElement(list, key) == None
  {
  }

  /** A digit string with a leading zero, such as "01", stays a string key and misses every list. */
  lemma ListElementLeadingZero(list: seq<string>, key: string)
    requires |key| > 1 && key[0] == '0'
    ensures ListElement(list, key) == None
  {
  }
}
