/** Vocabulary shared by every part of the model: optional values, C text and C arithmetic. */
module Base {

  datatype Option<+T> = None | Some(value: T)

  /** A non-NUL `char` of a C string, with the signed range it has on the servers. */
  type Code = c: int | -128 <= c < 128 && c != 0 witness 48

  /** The characters of a C string before its terminating NUL. */
  type Text = seq<Code>

  /** No element occurs twice. */
  predicate AllDifferent<T(==)>(s: seq<T>) {
    forall i, j :: 0 <= i < j < |s| ==> s[i] != s[j]
  }

  const SPACE: Code := 32
  const COMMA: Code := 44
  const MINUS: Code := 45
  const POINT: Code := 46
  const DIGIT_ZERO: Code := 48
  const BAR: Code := 124

  /** C integer division truncates toward zero. */
  function CDiv(a: int, b: int): int
    requires b > 0
  {
    if a >= 0 then a / b else -((-a) / b)
  }

  /** Dividing a non-negative amount by a positive price gives the largest affordable count. */
  lemma DivBounds(a: int, b: int)
    requires a >= 0 && b > 0
    ensures CDiv(a, b) >= 0
    ensures b * CDiv(a, b) <= a < b * (CDiv(a, b) + 1)
  {
    assert a == b * (a / b) + a % b;
  }

  /** A quotient is negative exactly when the dividend is at most minus the divisor. */
  lemma DivSign(a: int, b: int)
    requires b > 0
    ensures CDiv(a, b) < 0 <==> a <= -b
    ensures CDiv(a, b) > 0 <==> a >= b
  {
    if a < 0 {
      DivBounds(-a, b);
      if -a >= b { assert CDiv(-a, b) >= 1; }
    } else {
      DivBounds(a, b);
      if a >= b { assert CDiv(a, b) >= 1; }
    }
  }

  /** A multiple of `n` is a multiple of `n`; a positive multiple is at least `n`. */
  lemma MultipleOf(p: int, n: int)
    requires p >= 1 && n >= 1
    ensures p * n >= n && (p * n) % n == 0
  {
    ModOfMultiple(p, n);
    assert p * n == (p - 1) * n + n;
    assert (p - 1) * n >= 0;
  }

  lemma NoMultipleBetween(d: int, n: int)
    requires n >= 1
    ensures d * n <= -n || d * n == 0 || d * n >= n
  {
    if d >= 1 {
      assert d * n == (d - 1) * n + n;
    } else if d <= -1 {
      assert d * n == (d + 1) * n - n;
    }
  }

  lemma ModOfMultiple(p: nat, n: int)
    requires n >= 1
    ensures (p * n) % n == 0
  {
    var q, r := (p * n) / n, (p * n) % n;
    assert p * n == q * n + r && 0 <= r < n;
    assert r == (p - q) * n;
    NoMultipleBetween(p - q, n);
  }
}
