/** Amounts of money as text: `price2str`, `str2price`, and what the database reads from the same text. */
module Prices {
  import opened Base

  predicate IsDigit(c: Code) {
    DIGIT_ZERO <= c <= 57
  }

  predicate Digits(s: Text) {
    forall i :: 0 <= i < |s| ==> IsDigit(s[i])
  }

  /** The number a digit string denotes. */
  function Value(s: Text): int {
    if s == [] then 0 else 10 * Value(s[..|s| - 1]) + (s[|s| - 1] - DIGIT_ZERO)
  }

  /** `sprintf("%ld")` of a non-negative number. */
  function NatText(n: nat): Text {
    if n < 10 then [(DIGIT_ZERO + n) as Code] else NatText(n / 10) + [(DIGIT_ZERO + n % 10) as Code]
  }

  /** `sprintf("%ld")`. */
  function LongText(n: int): Text {
    if n < 0 then [MINUS] + NatText(-n) else NatText(n)
  }

  /** `price2str`: dollars, a point, and the cents, padded with a zero when they are below ten. */
  function PriceText(price: int): Text {
    var dollars := CDiv(price, 100);
    var cents := price - dollars * 100;
    if cents < 10 then LongText(dollars) + [POINT, DIGIT_ZERO] + LongText(cents)
    else LongText(dollars) + [POINT] + LongText(cents)
  }

  // ----- The grammar of accepted amounts -----

  /** Where `str2price` takes the point to be: second from the end if there is one, else third. */
  function PointAt(s: Text): int
    requires |s| >= 3
  {
    if s[|s| - 2] == POINT then |s| - 2 else |s| - 3
  }

  /** Digits, a point, and one or two digits, four characters or more in all. */
  predicate Decimal(s: Text) {
    |s| >= 4 && var k := PointAt(s); s[k] == POINT && Digits(s[..k]) && Digits(s[k + 1..])
  }

  /** The three-character texts that the short branch takes, whatever their outer characters are. */
  predicate Short(s: Text) {
    |s| == 3 && s[1] == POINT
  }

  /** What `str2price` returns for a text; -1 is its failure. */
  function Price(s: Text): int {
    if Short(s) then (s[0] - DIGIT_ZERO) * 100 + (s[2] - DIGIT_ZERO)
    else if Decimal(s) then Value(s[..PointAt(s)]) * 100 + Value(s[PointAt(s) + 1..])
    else -1
  }

  /** The number of cents a `numeric(15,2)` column reads from the text: one decimal counts tenths. */
  function SqlCents(s: Text): Option<int> {
    if (Short(s) && Digits([s[0], s[2]])) || Decimal(s) then
      var k := PointAt(s);
      Some(Value(s[..k]) * 100 + Value(s[k + 1..]) * (if k == |s| - 2 then 10 else 1))
    else
      None
  }

  // ----- str2price -----

  /** Reading one more digit. */
  lemma OneMore(s: Text, i: nat)
    requires i < |s| && Digits(s[..i]) && IsDigit(s[i])
    ensures Digits(s[..i + 1]) && Value(s[..i + 1]) == 10 * Value(s[..i]) + (s[i] - DIGIT_ZERO)
  {
    assert s[..i + 1][..i] == s[..i];
    assert forall j :: 0 <= j < i ==> s[..i + 1][j] == s[..i][j];
  }

  /**
   * The part of `str2price` after the length is known.  The transaction server takes the length with
   * `strlen`, the load balancer as the index of the first comma; the rest of the two functions is the same.
   */
  method ParseChars(s: Text) returns (price: int)
    ensures price == Price(s)
  {
    var dollars: int, cents: int, i: int, dec: int := 0, 0, 0, 3;
    if |s| == 3 && (s[0] > 48 || s[0] < 57) && (s[2] > 48 || s[2] < 57) && s[1] == POINT {
      return (s[0] as int - 48) * 100 + (s[2] as int - 48);
    } else if |s| < 4 {
      return -1;
    }
    if s[|s| - 2] == POINT {
      dec := 2;
    } else if s[|s| - 3] != POINT {
      return -1;
    }
    ghost var k := PointAt(s);
    ghost var whole, part := s[..k], s[k + 1..];
    while i < |s| - dec
      invariant 0 <= i <= k == |s| - dec
      invariant Digits(whole[..i]) && dollars == Value(whole[..i])
    {
      assert whole[i] == s[i];
      if s[i] < 48 || s[i] > 57 { return -1; }
      OneMore(whole, i);
      dollars := 10 * dollars + s[i] as int - 48;
      i := i + 1;
    }
    assert whole[..i] == whole;
    i := i + 1;
    ghost var m := 0;
    while i < |s|
      invariant i == k + 1 + m && 0 <= m <= |part|
      invariant Digits(part[..m]) && cents == Value(part[..m])
    {
      assert part[m] == s[i];
      if s[i] < 48 || s[i] > 57 { return -1; }
      OneMore(part, m);
      cents := 10 * cents + s[i] as int - 48;
      i, m := i + 1, m + 1;
    }
    assert part[..m] == part;
    return dollars * 100 + cents;
  }

  /** `str2price` of the transaction server; `None` is the NULL pointer. */
  method ParsePrice(str: Option<Text>) returns (price: int)
    ensures price == if str.None? then -1 else Price(str.value)
  {
    if str.None? { return -1; }
    price := ParseChars(str.value);
  }

  /** The text before the first comma. */
  function BeforeComma(s: Text): (r: Text)
    requires COMMA in s
    ensures COMMA !in r && r + [COMMA] <= s
  {
    if s[0] == COMMA then [] else [s[0]] + BeforeComma(s[1..])
  }

  /** The load balancer's `str2price`: the same grammar over the field that ends at the first comma. */
  method ParseQuoteField(s: Text) returns (price: int)
    requires COMMA in s
    ensures price == Price(BeforeComma(s))
  {
    ghost var field := BeforeComma(s);
    assert forall j :: 0 <= j < |field| ==> s[j] == (field + [COMMA])[j] && field[j] in field;
    var i := 0;
    while s[i] != COMMA
      invariant 0 <= i <= |field|
      decreases |field| - i
    {
      assert s[i] == (field + [COMMA])[i];
      i := i + 1;
    }
    assert s[..i] == field;
    price := ParseChars(s[..i]);
  }

  // ----- Printing and parsing are inverse -----

  lemma {:induction false} NatTextValue(n: nat)
    ensures NatText(n) != [] && Digits(NatText(n)) && Value(NatText(n)) == n
  {
    if n < 10 {
      assert NatText(n)[..0] == [];
    } else {
      NatTextValue(n / 10);
      assert NatText(n)[..|NatText(n)| - 1] == NatText(n / 10);
    }
  }

  /** The two digits that follow the point. */
  lemma CentsText(c: nat)
    requires c < 100
    ensures c < 10 ==> NatText(c) == [(DIGIT_ZERO + c) as Code]
    ensures c >= 10 ==> NatText(c) == [(DIGIT_ZERO + c / 10) as Code, (DIGIT_ZERO + c % 10) as Code]
  {
  }

  /** A printed amount is the dollar digits, a point, and exactly two digits. */
  lemma PriceTextShape(p: nat)
    ensures var c := p % 100;
      PriceText(p) == NatText(p / 100) + [POINT, (DIGIT_ZERO + c / 10) as Code, (DIGIT_ZERO + c % 10) as Code]
  {
    CentsText(p % 100);
  }

  lemma ValueOfTwo(a: Code, b: Code)
    ensures Value([a, b]) == 10 * (a - DIGIT_ZERO) + (b - DIGIT_ZERO)
  {
    assert [a, b][..1] == [a] && [a][..0] == [];
    assert Value([a]) == 10 * Value([]) + (a - DIGIT_ZERO);
  }

  /** Every non-negative amount survives printing and parsing, in memory and in the database. */
  lemma PriceRoundTrip(p: nat)
    ensures Decimal(PriceText(p)) && Price(PriceText(p)) == p
    ensures SqlCents(PriceText(p)) == Some(p)
  {
    PriceTextShape(p);
    NatTextValue(p / 100);
    var s, d, c := PriceText(p), NatText(p / 100), p % 100;
    var tens, ones := (DIGIT_ZERO + c / 10) as Code, (DIGIT_ZERO + c % 10) as Code;
    assert s == d + [POINT, tens, ones];
    assert s[|s| - 2] == tens && s[|s| - 3] == POINT;
    assert PointAt(s) == |d| && s[..|d|] == d && s[|d| + 1..] == [tens, ones];
    ValueOfTwo(tens, ones);
  }

  /** Dollar digits without a superfluous leading zero. */
  predicate Canonical(s: Text) {
    Decimal(s) && PointAt(s) == |s| - 3 && (s[0] == DIGIT_ZERO ==> |s| == 4)
  }

  lemma {:induction false} ValueNonNegative(s: Text)
    requires Digits(s)
    ensures Value(s) >= 0
    ensures s != [] && s[0] != DIGIT_ZERO ==> Value(s) >= 1
  {
    if s != [] {
      ValueNonNegative(s[..|s| - 1]);
    }
  }

  lemma {:induction false} NatTextOfValue(s: Text)
    requires Digits(s) && s != [] && (s[0] == DIGIT_ZERO ==> |s| == 1)
    ensures Value(s) >= 0 && NatText(Value(s)) == s
  {
    ValueNonNegative(s);
    var init, last := s[..|s| - 1], s[|s| - 1];
    if init == [] {
      assert Value(s) == last - DIGIT_ZERO;
      assert s == [last];
    } else {
      NatTextOfValue(init);
      ValueNonNegative(init);
      assert Value(s) / 10 == Value(init) && Value(s) % 10 == last - DIGIT_ZERO;
      assert s == init + [last];
    }
  }

  /** Printing what was parsed gives back a canonical two-decimal text. */
  lemma CanonicalRoundTrip(s: Text)
    requires Canonical(s)
    ensures Price(s) >= 0 && PriceText(Price(s)) == s
  {
    var k := |s| - 3;
    var d, tens, ones := s[..k], s[k + 1], s[k + 2];
    assert s[k + 1..] == [tens, ones] && s == d + [POINT, tens, ones];
    assert IsDigit(s[k + 1..][0]) && IsDigit(s[k + 1..][1]);
    ValueOfTwo(tens, ones);
    NatTextOfValue(d);
    var p := Price(s);
    assert p / 100 == Value(d) && p % 100 == Value([tens, ones]);
    PriceTextShape(p);
  }

  // ----- Exactly which texts are accepted -----

  /** From four characters on, failure is exactly "not a decimal", and an accepted amount is not negative. */
  lemma LongTextsFollowGrammar(s: Text)
    requires |s| != 3
    ensures Price(s) == -1 <==> !Decimal(s)
    ensures Decimal(s) ==> Price(s) >= 0
  {
    if Decimal(s) {
      ValueNonNegative(s[..PointAt(s)]);
      ValueNonNegative(s[PointAt(s) + 1..]);
    }
  }

  /**
   * The short branch joins its digit tests with "or", so they never fail: of all three-character
   * texts with a point in the middle only "0./" and "1.\313" are rejected, because their value happens
   * to be -1.  "/.0" is accepted as minus one dollar.
   */
  lemma ShortTextsAlmostAllAccepted(s: Text)
    requires Short(s)
    ensures Price(s) == -1 <==> s == [48, 46, 47] || s == [49, 46, -53]
    ensures Digits([s[0], s[2]]) ==> 0 <= Price(s) <= 909
    ensures Price([47, 46, 48]) == -100
  {
    assert s == [s[0], POINT, s[2]];
    if Digits([s[0], s[2]]) {
      assert IsDigit([s[0], s[2]][0]) && IsDigit([s[0], s[2]][1]);
    }
  }

  /**
   * The texts that are read as less than the failure value: three characters around a point, the first below '0',
   * or '0' with a third below '/', or '1' with a third far below it.
   */
  predicate ReadsNegative(s: Text) {
    Short(s) && (s[0] < 48 || (s[0] == 48 && s[2] < 47) || (s[0] == 49 && s[2] < -53))
  }

  lemma NegativeExactly(s: Text)
    ensures Price(s) < -1 <==> ReadsNegative(s)
  {
    if |s| != 3 { LongTextsFollowGrammar(s); }
  }

  /**
   * The database and the server agree on an accepted amount exactly when it has two decimals or its
   * single decimal is zero: the server reads "12.5" as twelve dollars and five cents.
   */
  lemma SqlAgreement(s: Text)
    requires SqlCents(s).Some?
    ensures SqlCents(s).value == Price(s) <==> (PointAt(s) == |s| - 3 || s[|s| - 1] == DIGIT_ZERO)
  {
    var k := PointAt(s);
    if k == |s| - 2 {
      assert s[k + 1..] == [s[|s| - 1]];
      assert [s[|s| - 1]][..0] == [];
      assert Value(s[k + 1..]) == s[|s| - 1] - DIGIT_ZERO;
      if Short(s) {
        assert s[..k] == [s[0]] && [s[0]][..0] == [];
        assert Value(s[..k]) == s[0] - DIGIT_ZERO;
      }
    }
  }

  // ----- The twenty-byte buffers -----

  function Pow10(k: nat): nat {
    if k == 0 then 1 else 10 * Pow10(k - 1)
  }

  lemma {:induction false} NatTextLength(n: nat, k: nat)
    requires k >= 1
    ensures |NatText(n)| <= k <==> n < Pow10(k)
    decreases n
  {
    if n < 10 {
      PowAtLeastTen(k);
    } else {
      NatTextLength(n / 10, if k > 1 then k - 1 else 1);
      if k > 1 {
        assert n < 10 * Pow10(k - 1) <==> n / 10 < Pow10(k - 1);
      } else {
        assert Pow10(1) == 10;
        assert |NatText(n / 10)| >= 1;
      }
    }
  }

  lemma {:induction false} PowAtLeastTen(k: nat)
    requires k >= 1
    ensures Pow10(k) >= 10
  {
    if k > 1 { PowAtLeastTen(k - 1); }
  }

  /** A printed amount and its NUL fit the twenty-byte buffers exactly below ten to the eighteenth cents. */
  lemma PriceTextFits(p: nat)
    ensures |PriceText(p)| <= 19 <==> p < Pow10(18)
  {
    PriceTextShape(p);
    NatTextLength(p / 100, 16);
    assert Pow10(18) == 10 * Pow10(17) && Pow10(17) == 10 * Pow10(16);
    assert p / 100 < Pow10(16) <==> p < 100 * Pow10(16);
  }
}
