/**
 * The two inline order id formats of the checkout handlers.
 * - `EE-<year>-<last 6 characters of Date.now()>` (server.js and controllers/orderController.js);
 * - `EE-<year>-<random 0..9999, zero-padded to 4>` (routes/orderRoutes.js).
 * The clock and the random draw are inputs.
 */
module InlineOrderIds {
  import opened Wrappers
  import opened JsText

  /** The instant a handler runs: `Date.now()` and the local `getFullYear()`. */
  datatype Clock = Clock(ms: nat, year: nat)

  /** `EE-${year}-${Date.now().toString().slice(-6)}`. */
  function TimestampOrderId(year: nat, ms: nat): string {
    "EE-" + NatToString(year) + "-" + SliceLast(NatToString(ms), 6)
  }

  /** `EE-${year}-${String(random).padStart(4, '0')}` for a draw `Math.floor(Math.random() * 10000)`. */
  function RandomOrderId(year: nat, r: nat): string
    requires r < 10000
  {
    "EE-" + NatToString(year) + "-" + PadStart(NatToString(r), 4, '0')
  }

  /** The k low-order decimal digits of n, most significant first (zeros included). */
  function FixedDigits(n: nat, k: nat): (s: string)
    ensures |s| == k && AllDigits(s)
  {
    if k == 0 then [] else FixedDigits(n / 10, k - 1) + [DigitChar(n % 10)]
  }

  /** The last k characters of `String(n)` are its k low-order digits. */
  lemma {:induction false} LastDigitsAreFixed(n: nat, k: nat)
    requires 1 <= k <= |NatToString(n)|
    ensures SliceLast(NatToString(n), k) == FixedDigits(n, k)
    decreases k
  {
    var s := NatToString(n);
    if n < 10 {
      assert FixedDigits(n / 10, 0) == [];
    } else {
      var high := NatToString(n / 10);
      assert s == high + [DigitChar(n % 10)];
      if k == 1 {
        assert FixedDigits(n / 10, 0) == [];
        assert SliceLast(s, 1) == [DigitChar(n % 10)];
      } else {
        LastDigitsAreFixed(n / 10, k - 1);
        SliceLastSnoc(high, DigitChar(n % 10), k);
      }
    }
  }

  /** The last k characters of a string with one more at its end. */
  lemma SliceLastSnoc(high: string, c: char, k: nat)
    requires 2 <= k <= |high| + 1
    ensures SliceLast(high + [c], k) == SliceLast(high, k - 1) + [c]
  {
    var s := high + [c];
    assert s[|s| - k..] == high[|high| - (k - 1)..] + [c];
  }

  /** Adding 10^k leaves the k low-order digits unchanged. */
  lemma {:induction false} FixedDigitsPeriodic(n: nat, k: nat)
    ensures FixedDigits(n + Pow10(k), k) == FixedDigits(n, k)
  {
    if k > 0 {
      var p := Pow10(k - 1);
      assert (n + 10 * p) / 10 == n / 10 + p;
      assert (n + 10 * p) % 10 == n % 10;
      FixedDigitsPeriodic(n / 10, k - 1);
    }
  }

  lemma {:induction false} MulAtLeast(m: nat, x: nat)
    requires x >= 1
    ensures m * x >= m
  {
    if x > 1 {
      MulAtLeast(m, x - 1);
      assert m * x == m * (x - 1) + m;
    }
  }

  /** Division with remainder is unique. */
  lemma ModUnique(n: nat, m: nat, a: nat, b: nat)
    requires m > 0 && b < m && n == m * a + b
    ensures n % m == b
  {
    var q := n / m;
    var r := n % m;
    assert n == m * q + r;
    if a > q {
      MulAtLeast(m, a - q);
    } else if a < q {
      MulAtLeast(m, q - a);
    }
  }

  /** The quotient is unique too. */
  lemma DivUnique(n: nat, m: nat, a: nat, b: nat)
    requires m > 0 && b < m && n == m * a + b
    ensures n / m == a
  {
    var q := n / m;
    var r := n % m;
    assert n == m * q + r;
    if a > q {
      MulAtLeast(m, a - q);
    } else if a < q {
      MulAtLeast(m, q - a);
    }
  }

  /** n modulo 10p, from n / 10 modulo p and the last digit. */
  lemma ModStep(n: nat, p: nat)
    requires p >= 1
    ensures n % (10 * p) == 10 * ((n / 10) % p) + n % 10
  {
    var q := n / 10;
    var b := q % p;
    var a := q / p;
    assert q == p * a + b;
    assert n == 10 * q + n % 10;
    assert 10 * q == (10 * p) * a + 10 * b;
    ModUnique(n, 10 * p, a, 10 * b + n % 10);
  }

  /** The k fixed digits of n denote n modulo 10^k. */
  lemma {:induction false} FixedDigitsValue(n: nat, k: nat)
    ensures DigitsValue(FixedDigits(n, k)) == n % Pow10(k)
  {
    if k > 0 {
      var high := FixedDigits(n / 10, k - 1);
      var s := FixedDigits(n, k);
      assert s[..|s| - 1] == high;
      assert DigitValue(s[|s| - 1]) == n % 10;
      assert DigitsValue(s) == 10 * DigitsValue(high) + n % 10;
      FixedDigitsValue(n / 10, k - 1);
      ModStep(n, Pow10(k - 1));
    }
  }

  // ---------------------------------------------------------------- timestamp ids

  /**
   * From 100000 ms on, a timestamp id is "EE-", the year, "-" and exactly six digits that
   * read as the timestamp modulo 10^6.
   */
  lemma TimestampShape(year: nat, ms: nat)
    requires ms >= 100000
    ensures var id := TimestampOrderId(year, ms);
      && id == "EE-" + NatToString(year) + "-" + FixedDigits(ms, 6)
      && |id| == |NatToString(year)| + 10
      && ParseInt(id[|id| - 6..]) == Some(ms % 1000000)
  {
    TimestampSuffix(year, ms);
    var id := TimestampOrderId(year, ms);
    assert id[|id| - 6..] == FixedDigits(ms, 6);
    FixedDigitsValue(ms, 6);
    assert Pow10(6) == 1000000;
    ParseIntDigits(FixedDigits(ms, 6));
  }

  /**
   * The suffix keeps only six digits, so two orders placed 10^6 ms (about 16.7 minutes)
   * apart in the same year receive the same id; the unique index then refuses the second.
   */
  lemma TimestampIdsRepeat(year: nat, ms: nat)
    requires ms >= 100000
    ensures TimestampOrderId(year, ms + 1000000) == TimestampOrderId(year, ms)
  {
    TimestampSuffix(year, ms);
    TimestampSuffix(year, ms + 1000000);
    assert Pow10(6) == 1000000;
    FixedDigitsPeriodic(ms, 6);
  }

  /** From 100000 ms on, the last six characters of the timestamp are its six low-order digits. */
  lemma TimestampSuffix(year: nat, ms: nat)
    requires ms >= 100000
    ensures TimestampOrderId(year, ms) == "EE-" + NatToString(year) + "-" + FixedDigits(ms, 6)
  {
    NatToStringLength(ms, 5);
    assert Pow10(5) == 100000;
    LastDigitsAreFixed(ms, 6);
  }

  // ---------------------------------------------------------------- random ids

  /** A random id is "EE-", the year, "-" and exactly four digits that read back as the draw. */
  lemma RandomShape(year: nat, r: nat)
    requires r < 10000
    ensures var id := RandomOrderId(year, r);
      && |id| == |NatToString(year)| + 8
      && StartsWith(id, "EE-" + NatToString(year) + "-")
      && AllDigits(id[|id| - 4..])
      && ParseInt(id[|id| - 4..]) == Some(r)
  {
    var digits := NatToString(r);
    NatToStringLength(r, 4);
    assert Pow10(4) == 10000;
    var suffix := PadStart(digits, 4, '0');
    var prefix := "EE-" + NatToString(year) + "-";
    var id := RandomOrderId(year, r);
    assert id == prefix + suffix;
    assert id[..|prefix|] == prefix;
    assert id[|id| - 4..] == suffix;
    if |digits| < 4 {
      assert suffix == Repeat('0', 4 - |digits|) + digits;
      LeadingZerosValue(4 - |digits|, digits);
    } else {
      assert suffix == digits;
    }
    NatToStringValue(r);
    ParseIntDigits(suffix);
  }

  /** Distinct draws give distinct ids within a year. */
  lemma RandomIdsInjective(year: nat, r1: nat, r2: nat)
    requires r1 < 10000 && r2 < 10000
    requires RandomOrderId(year, r1) == RandomOrderId(year, r2)
    ensures r1 == r2
  {
    RandomShape(year, r1);
    RandomShape(year, r2);
  }
}
