/**
 * The few QString operations the daemon's helpers are built from, with the
 * semantics Qt 5 gives them: lastIndexOf, left and mid with their index edge
 * cases, toUInt in base 10, and QString::number as the decimal rendering that
 * callers use to build connection keys.
 */
module QtString {
  import opened Wrappers

  /** The largest value of a 32-bit `uint`, the result type of toUInt. */
  const UIntMax: nat := 0xFFFF_FFFF

  /** QString::lastIndexOf(c): the position of the last `c`, or -1 when there is none. */
  function LastIndexOf(s: string, c: char): (r: int)
    ensures -1 <= r < |s|
    ensures r == -1 <==> c !in s
    ensures 0 <= r ==> s[r] == c && forall k :: r < k < |s| ==> s[k] != c
    decreases |s|
  {
    if |s| == 0 then -1
    else if s[|s| - 1] == c then |s| - 1
    else
      assert s == s[..|s| - 1] + [s[|s| - 1]];
      LastIndexOf(s[..|s| - 1], c)
  }

  /** In r + [c] + d with no `c` in d, the last `c` is the one after r. */
  lemma {:induction false} LastIndexOfSplit(r: string, c: char, d: string)
    requires c !in d
    ensures LastIndexOf(r + [c] + d, c) == |r|
    decreases |d|
  {
    var s := r + [c] + d;
    if d != [] {
      var d' := d[..|d| - 1];
      assert s[|s| - 1] == d[|d| - 1];
      assert s[..|s| - 1] == r + [c] + d';
      assert forall x :: x in d' ==> x in d;
      LastIndexOfSplit(r, c, d');
    }
  }

  /** The position of the first `c`, or -1 when there is none. */
  function IndexOf(s: string, c: char): (r: int)
    ensures -1 <= r < |s|
    ensures r == -1 <==> c !in s
    ensures 0 <= r ==> s[r] == c && forall k :: 0 <= k < r ==> s[k] != c
    decreases |s|
  {
    if |s| == 0 then -1
    else if s[0] == c then 0
    else
      assert s == [s[0]] + s[1..];
      var r := IndexOf(s[1..], c);
      if r < 0 then -1 else r + 1
  }

  /** In a + [c] + d with no `c` in a, the first `c` is the one after a. */
  lemma {:induction false} IndexOfSplit(a: string, c: char, d: string)
    requires c !in a
    ensures IndexOf(a + [c] + d, c) == |a|
    decreases |a|
  {
    var s := a + [c] + d;
    if a != [] {
      assert s[0] == a[0];
      assert s[1..] == a[1..] + [c] + d;
      assert forall x :: x in a[1..] ==> x in a;
      IndexOfSplit(a[1..], c, d);
    }
  }

  /** A `c` at position i with none before it is the first one. */
  lemma {:induction false} IndexOfAt(s: string, c: char, i: nat)
    requires i < |s| && s[i] == c && c !in s[..i]
    ensures IndexOf(s, c) == i
    decreases i
  {
    if i > 0 {
      assert s[0] == s[..i][0];
      assert s[1..][..i - 1] == s[..i][1..];
      assert forall x :: x in s[..i][1..] ==> x in s[..i];
      IndexOfAt(s[1..], c, i - 1);
    }
  }

  /** QString::left(n): the first `n` characters; a negative `n` or one past the end gives the whole string. */
  function Left(s: string, n: int): (r: string)
    ensures |r| == (if 0 <= n < |s| then n else |s|) && r == s[..|r|]
  {
    if n < 0 || n >= |s| then s else s[..n]
  }

  /** QString::mid(pos): the characters from `pos` on; past the end gives "", a negative `pos` the whole string. */
  function Mid(s: string, pos: int): (r: string)
    ensures |r| == (if pos > |s| then 0 else if pos < 0 then |s| else |s| - pos)
    ensures r == s[|s| - |r|..]
  {
    if pos > |s| then [] else if pos < 0 then s else s[pos..]
  }

  predicate IsDigit(c: char) { '0' <= c <= '9' }

  function DigitValue(c: char): nat
    requires IsDigit(c)
  {
    (c as int) - ('0' as int)
  }

  function DigitChar(d: nat): char
    requires d < 10
  {
    (('0' as int) + d) as char
  }

  predicate AllDigits(s: string)
  {
    forall i :: 0 <= i < |s| ==> IsDigit(s[i])
  }

  /**
   * Strict base-10 parsing: the value of a non-empty string of decimal digits
   * (leading zeros allowed, no bound), None for anything else.
   */
  function ParseDecimal(s: string): (r: Option<nat>)
    ensures r.Some? <==> |s| > 0 && AllDigits(s)
    decreases |s|
  {
    if |s| == 0 || !IsDigit(s[|s| - 1]) then None
    else if |s| == 1 then Some(DigitValue(s[0]))
    else
      match ParseDecimal(s[..|s| - 1])
      case None => None
      case Some(v) => Some(10 * v + DigitValue(s[|s| - 1]))
  }

  /**
   * QString::toUInt() in base 10: the value of a decimal string when it fits
   * in 32 bits; an empty string, a non-digit or an overflow gives 0.
   */
  function ToUInt(s: string): (r: nat)
    ensures r <= UIntMax
    ensures !AllDigits(s) ==> r == 0
  {
    match ParseDecimal(s)
    case Some(v) => if v <= UIntMax then v else 0
    case None => 0
  }

  /** A decimal string is canonical when it has no leading zero, "0" itself aside. */
  predicate Canonical(s: string)
  {
    |s| > 0 && (s[0] == '0' ==> |s| == 1)
  }

  /** QString::number(n): the canonical decimal rendering of `n`. */
  function Number(n: nat): (r: string)
    ensures AllDigits(r) && Canonical(r)
    ensures r[0] == '0' <==> n == 0
    ensures '/' !in r
  {
    if n < 10 then [DigitChar(n)]
    else Number(n / 10) + [DigitChar(n % 10)]
  }

  /** Parsing undoes rendering. */
  lemma {:induction false} ParseNumber(n: nat)
    ensures ParseDecimal(Number(n)) == Some(n)
  {
    if n >= 10 {
      ParseNumber(n / 10);
      var s := Number(n);
      assert s[..|s| - 1] == Number(n / 10);
    }
  }

  /** A parsed value is at least the value of its leading digit. */
  lemma {:induction false} ParseDecimalLeading(s: string)
    requires ParseDecimal(s).Some?
    ensures ParseDecimal(s).value >= DigitValue(s[0])
    decreases |s|
  {
    if |s| > 1 {
      ParseDecimalLeading(s[..|s| - 1]);
    }
  }

  /** Rendering undoes parsing on canonical strings: the two are inverse bijections. */
  lemma {:induction false} NumberParse(s: string)
    requires ParseDecimal(s).Some? && Canonical(s)
    ensures Number(ParseDecimal(s).value) == s
    decreases |s|
  {
    if |s| == 1 {
      assert Number(DigitValue(s[0])) == [s[0]];
    } else {
      var p := s[..|s| - 1];
      var d := DigitValue(s[|s| - 1]);
      ParseDecimalLeading(p);
      NumberParse(p);
      var v := ParseDecimal(p).value;
      assert v >= 1;
      assert ParseDecimal(s).value == 10 * v + d;
      assert (10 * v + d) / 10 == v && (10 * v + d) % 10 == d;
      assert DigitChar(d) == s[|s| - 1];
      assert s == p + [s[|s| - 1]];
    }
  }

  /** A run of `z` zero digits. */
  function Zeros(z: nat): (r: string)
    ensures |r| == z && AllDigits(r)
  {
    seq(z, _ => '0')
  }

  /** A leading zero does not change the value of a digit string. */
  lemma {:induction false} ParseLeadingZero(s: string)
    requires |s| > 0 && AllDigits(s)
    ensures ParseDecimal(['0'] + s) == ParseDecimal(s)
    decreases |s|
  {
    var t := ['0'] + s;
    if |s| > 1 {
      assert t[..|t| - 1] == ['0'] + s[..|s| - 1];
      ParseLeadingZero(s[..|s| - 1]);
      assert t[|t| - 1] == s[|s| - 1];
    }
  }

  /** Any number of leading zeros before a rendering leaves its value unchanged. */
  lemma {:induction false} ParseZerosNumber(z: nat, n: nat)
    ensures ParseDecimal(Zeros(z) + Number(n)) == Some(n)
    decreases z
  {
    if z == 0 {
      assert Zeros(0) + Number(n) == Number(n);
      ParseNumber(n);
    } else {
      assert Zeros(z) + Number(n) == ['0'] + (Zeros(z - 1) + Number(n));
      ParseZerosNumber(z - 1, n);
      ParseLeadingZero(Zeros(z - 1) + Number(n));
    }
  }

  /**
   * Every non-empty digit string is some zeros followed by the canonical
   * rendering of its value.
   */
  lemma {:induction false} DigitsDecompose(s: string)
    requires |s| > 0 && AllDigits(s)
    ensures var v := ParseDecimal(s).value;
      |Number(v)| <= |s| && s == Zeros(|s| - |Number(v)|) + Number(v)
    decreases |s|
  {
    if s[0] == '0' && |s| > 1 {
      var t := s[1..];
      assert s == ['0'] + t;
      ParseLeadingZero(t);
      DigitsDecompose(t);
      var v := ParseDecimal(t).value;
      assert Zeros(|s| - |Number(v)|) == ['0'] + Zeros(|t| - |Number(v)|);
    } else {
      NumberParse(s);
      assert Zeros(0) + s == s;
    }
  }

  /**
   * toUInt of any digit string, leading zeros allowed: its value when that
   * fits in 32 bits, and 0 when it does not.
   */
  lemma ToUIntZeros(z: nat, n: nat)
    ensures ToUInt(Zeros(z) + Number(n)) == (if n <= UIntMax then n else 0)
  {
    ParseZerosNumber(z, n);
  }

  /** "007" reads as 7. */
  lemma ToUIntLeadingZeroExample()
    ensures ToUInt("007") == 7
  {
    assert "007" == Zeros(2) + Number(7);
    ToUIntZeros(2, 7);
  }

  /** toUInt reads back every 32-bit value that QString::number wrote. */
  lemma ToUIntNumber(n: nat)
    requires n <= UIntMax
    ensures ToUInt(Number(n)) == n
  {
    ParseNumber(n);
  }

  /** toUInt gives 0 for a decimal string whose value does not fit in 32 bits. */
  lemma ToUIntOverflow(n: nat)
    requires n > UIntMax
    ensures ToUInt(Number(n)) == 0
  {
    ParseNumber(n);
  }

  /** toUInt of the empty string is 0. */
  lemma ToUIntEmpty()
    ensures ToUInt("") == 0
  {
  }
}
