/** Buffers, and the numerals written into them. */
module Bytes {

  type Byte = b: int | 0 <= b < 256

  type Buffer = seq<Byte>

  const NUL: Byte := 0
  const NEWLINE: Byte := 10
  const SPACE: Byte := 32
  const ZERO: Byte := 48
  const EQUALS: Byte := 61

  function Zeros(n: nat): (z: Buffer)
    ensures |z| == n && forall i | 0 <= i < n :: z[i] == 0
  {
    seq(n, _ => 0)
  }

  function Sum(s: Buffer): (total: nat)
    ensures total <= 255 * |s|
  {
    if s == [] then 0 else Sum(s[..|s| - 1]) + s[|s| - 1]
  }

  lemma {:induction false} SumConcat(s: Buffer, t: Buffer)
    ensures Sum(s + t) == Sum(s) + Sum(t)
  {
    if t == [] {
      assert s + t == s;
    } else {
      SumConcat(s, t[..|t| - 1]);
      assert (s + t)[..|s + t| - 1] == s + t[..|t| - 1];
    }
  }

  /** Changing one byte changes the sum by as much. */
  lemma {:induction false} SumChanges(s: Buffer, i: nat, b: Byte)
    requires i < |s|
    ensures Sum(s[i := b]) == Sum(s) - s[i] + b && Sum(Zeros(|s|)) == 0
    decreases |s|
  {
    var n := |s| - 1;
    if i < n {
      assert s[i := b][..n] == s[..n][i := b];
      SumChanges(s[..n], i, b);
    } else {
      assert s[i := b][..n] == s[..n];
    }
    ZerosSumToNothing(|s|);
  }

  lemma {:induction false} ZerosSumToNothing(n: nat)
    ensures Sum(Zeros(n)) == 0
  {
    if n > 0 {
      assert Zeros(n)[..n - 1] == Zeros(n - 1);
      ZerosSumToNothing(n - 1);
    }
  }

  /** The number of bases used: octal in headers, decimal in extended records. */
  predicate IsBase(base: nat) {
    base == 8 || base == 10
  }

  /** `toString(base)`: most significant digit first, "0" for zero. */
  function Digits(base: nat, n: nat): (s: Buffer)
    requires IsBase(base)
    ensures s != []
  {
    if n < base then [ZERO + n] else Digits(base, n / base) + [ZERO + n % base]
  }

  predicate IsDigit(base: nat, b: Byte) {
    ZERO <= b < ZERO + base
  }

  predicate AllDigits(base: nat, s: Buffer) {
    forall i | 0 <= i < |s| :: IsDigit(base, s[i])
  }

  function Value(base: nat, s: Buffer): nat
    requires IsBase(base) && AllDigits(base, s)
  {
    if s == [] then 0
    else
      var tens := Value(base, s[..|s| - 1]);
      (if base == 8 then tens * 8 else tens * 10) + (s[|s| - 1] - ZERO)
  }

  lemma {:induction false} DigitsReadBack(base: nat, n: nat)
    requires IsBase(base)
    ensures AllDigits(base, Digits(base, n)) && Value(base, Digits(base, n)) == n
    ensures n > 0 ==> Digits(base, n)[0] != ZERO
    decreases n
  {
    if n >= base {
      DigitsReadBack(base, n / base);
      assert Digits(base, n)[..|Digits(base, n)| - 1] == Digits(base, n / base);
    } else {
      assert Digits(base, n)[..0] == [];
    }
  }

  /** And a numeral without leading zeros is the one written for its value. */
  lemma {:induction false} DigitsOfValue(base: nat, s: Buffer)
    requires IsBase(base) && s != [] && AllDigits(base, s) && (s[0] != ZERO || |s| == 1)
    ensures Digits(base, Value(base, s)) == s
    decreases |s|
  {
    var n := |s| - 1;
    var tens := s[..n];
    if n == 0 {
      assert Value(base, tens) == 0;
    } else {
      DigitsOfValue(base, tens);
      var d := s[n] - ZERO;
      assert Value(base, tens) > 0;
      assert Value(base, s) / base == Value(base, tens) && Value(base, s) % base == d by {
        if base == 8 { } else { assert base == 10; }
      }
      assert s == tens + [s[n]];
    }
  }

  function Pow(base: nat, k: nat): (p: nat)
    requires IsBase(base)
    ensures p >= 1
  {
    if k == 0 then 1 else if base == 8 then 8 * Pow(base, k - 1) else 10 * Pow(base, k - 1)
  }

  /** A number has at most `k` digits exactly when it is below the k-th power. */
  lemma {:induction false} DigitCount(base: nat, n: nat, k: nat)
    requires IsBase(base) && k > 0
    ensures |Digits(base, n)| <= k <==> n < Pow(base, k)
    decreases n
  {
    if n >= base {
      if k == 1 {
        assert Pow(base, 0) == 1;
        assert |Digits(base, n)| > 1;
      } else {
        DigitCount(base, n / base, k - 1);
      }
    } else {
      assert Pow(base, k) >= base by { assert Pow(base, k - 1) >= 1; }
    }
  }

  lemma {:induction false} DigitsGrow(base: nat, m: nat, n: nat)
    requires IsBase(base) && m <= n
    ensures |Digits(base, m)| <= |Digits(base, n)|
    decreases n
  {
    if m >= base { DigitsGrow(base, m / base, n / base); }
  }

  /** `padStart(width, '0')`. */
  function PadStart(s: Buffer, width: nat): (r: Buffer)
    ensures |r| == if |s| < width then width else |s|
  {
    if |s| >= width then s else seq(width - |s|, _ => ZERO) + s
  }

  lemma {:induction false} LeadingZeros(base: nat, zeros: nat, s: Buffer)
    requires IsBase(base) && AllDigits(base, s)
    ensures AllDigits(base, seq(zeros, _ => ZERO) + s) && Value(base, seq(zeros, _ => ZERO) + s) == Value(base, s)
    decreases zeros + |s|
  {
    var padded: Buffer := seq(zeros, _ => ZERO) + s;
    if s != [] {
      assert padded[..|padded| - 1] == seq(zeros, _ => ZERO) + s[..|s| - 1];
      LeadingZeros(base, zeros, s[..|s| - 1]);
    } else if zeros > 0 {
      assert padded[..|padded| - 1] == seq(zeros - 1, _ => ZERO) + s;
      LeadingZeros(base, zeros - 1, s);
    } else {
      assert padded == s;
    }
  }

  lemma PaddedReadsBack(base: nat, n: nat, width: nat)
    requires IsBase(base)
    ensures AllDigits(base, PadStart(Digits(base, n), width)) && Value(base, PadStart(Digits(base, n), width)) == n
  {
    DigitsReadBack(base, n);
    if |Digits(base, n)| < width { LeadingZeros(base, width - |Digits(base, n)|, Digits(base, n)); }
  }

  /** `indexOf(b, from)`. */
  function IndexOf(s: Buffer, b: Byte, from: nat): (k: int)
    ensures -1 <= k < |s|
    ensures k == -1 ==> forall i | from <= i < |s| :: s[i] != b
    ensures k != -1 ==> from <= k && s[k] == b && forall i | from <= i < k :: s[i] != b
    decreases |s| - from
  {
    if from >= |s| then -1 else if s[from] == b then from else IndexOf(s, b, from + 1)
  }
}
