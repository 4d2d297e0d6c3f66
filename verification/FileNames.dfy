/** Migration file names: "%04d_title", listed in string order. */
module FileNames {
  import opened Decimals
  import opened StringOrder

  function Zeros(n: nat): string { if n == 0 then "" else Zeros(n - 1) + "0" }

  /** `"%0wd" % n`. */
  function Padded(w: nat, n: nat): string {
    var d := Decimal(n);
    if |d| >= w then d else Zeros(w - |d|) + d
  }

  function Stem(n: nat, title: string): string { Padded(4, n) + "_" + title }

  // ---------------------------------------------------------------- numbers compare as padded names

  /** The last `w` digits of `n`. */
  function Digits(w: nat, n: nat): (s: string)
    ensures |s| == w
  {
    if w == 0 then "" else Digits(w - 1, n / 10) + [DIGITS[n % 10]]
  }

  predicate FitsIn(w: nat, n: nat) { if w == 0 then n == 0 else FitsIn(w - 1, n / 10) }

  lemma {:induction false} ZeroDigits(w: nat)
    ensures Digits(w, 0) == Zeros(w)
  {
    if w > 0 { ZeroDigits(w - 1); }
  }

  lemma {:induction false} PaddedDigits(w: nat, n: nat)
    requires w > 0 && FitsIn(w, n)
    ensures |Decimal(n)| <= w && Padded(w, n) == Digits(w, n)
  {
    if n < 10 {
      ZeroDigits(w - 1);
    } else {
      assert w > 1;
      PaddedDigits(w - 1, n / 10);
    }
  }

  /** Of two numbers with the same number of digits, the smaller has the smaller digit where they first differ. */
  lemma {:induction false} DigitsDiffer(w: nat, n: nat, m: nat) returns (k: nat)
    requires n < m && FitsIn(w, m)
    ensures k < w && Digits(w, n)[k] < Digits(w, m)[k] && forall i :: 0 <= i < k ==> Digits(w, n)[i] == Digits(w, m)[i]
  {
    if n / 10 < m / 10 {
      k := DigitsDiffer(w - 1, n / 10, m / 10);
    } else {
      k := w - 1;
    }
  }

  lemma {:induction false} FitsDownward(w: nat, n: nat, m: nat)
    requires n <= m && FitsIn(w, m)
    ensures FitsIn(w, n)
  {
    if w > 0 { FitsDownward(w - 1, n / 10, m / 10); }
  }

  lemma FourDigits(n: nat)
    requires n <= 9999
    ensures Padded(4, n) == Digits(4, n) && FitsIn(4, n)
  {
    assert FitsIn(4, 9999);
    FitsDownward(4, n, 9999);
    PaddedDigits(4, n);
  }

  /** Names of numbers up to 9999 sort as the numbers, whatever their titles. */
  lemma NamesInOrder(n: nat, m: nat, a: string, b: string)
    requires n < m <= 9999
    ensures Before(Stem(n, a), Stem(m, b))
  {
    FourDigits(n);
    FourDigits(m);
    var k := DigitsDiffer(4, n, m);
    DecidedAt(Stem(n, a), Stem(m, b), k);
  }

  /** The names of the numbers up to `k` sort as the numbers, whatever their titles. */
  ghost predicate NumericUpTo(k: nat) {
    forall n: nat, m: nat, a: string, b: string :: n < m <= k ==> Before(Stem(n, a), Stem(m, b))
  }

  /** The four digits are enough for 9999 files and not for one more. */
  lemma NumericExactlyUpTo9999(k: nat)
    ensures NumericUpTo(k) <==> k <= 9999
  {
    if k <= 9999 {
      forall n: nat, m: nat, a: string, b: string | n < m <= k ensures Before(Stem(n, a), Stem(m, b)) {
        NamesInOrder(n, m, a, b);
      }
    } else {
      var x, y := Stem(9999, ""), Stem(10000, "");
      FourDigits(9999);
      DecidedAt(y, x, 0);
      BeforeIsStrict(x, y);
    }
  }

}
