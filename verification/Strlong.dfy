/** Printing a long in decimal: cpr_strlong and cpr_reverse of src/strchar.c. */
module Strlong {
  import opened Sequences

  /** A char; the reversal works on its bits. */
  type char8 = bv8

  const NUL: char8 := 0
  const ZERO: char8 := 48
  const MINUS: char8 := 45
  const MAX_LONG := 0x7fff_ffff_ffff_ffff

  /** (char)(d + '0') */
  function Digit(d: nat): char8
    requires d < 10
  {
    (d + 48) as bv8
  }

  predicate IsDigit(c: char8) {
    ZERO <= c <= 57
  }

  function Value(c: char8): int {
    c as int - 48
  }

  lemma DigitValue(d: nat)
    requires d < 10
    ensures IsDigit(Digit(d)) && Value(Digit(d)) == d
    ensures Digit(d) == ZERO <==> d == 0
  {
  }

  lemma ValueDigit(c: char8)
    requires IsDigit(c)
    ensures 0 <= Value(c) < 10 && Digit(Value(c)) == c
    ensures Value(c) == 0 <==> c == ZERO
  {
  }

  /** The decimal digits of a number, most significant first; none for zero. */
  function Digits(n: nat): seq<char8> {
    if n == 0 then [] else Digits(n / 10) + [Digit(n % 10)]
  }

  /** The canonical numeral of a number: no sign but a minus, no leading zero but "0". */
  function Numeral(v: int): seq<char8> {
    if v == 0 then [ZERO] else if v < 0 then [MINUS] + Digits(-v) else Digits(v)
  }

  /** What a string of digits denotes. */
  function ParseDigits(s: seq<char8>): int {
    if s == [] then 0 else 10 * ParseDigits(s[..|s| - 1]) + Value(s[|s| - 1])
  }

  function Parse(s: seq<char8>): int {
    if s != [] && s[0] == MINUS then -ParseDigits(s[1..]) else ParseDigits(s)
  }

  lemma {:induction false} DigitsParse(n: nat)
    ensures ParseDigits(Digits(n)) == n
    ensures forall i :: 0 <= i < |Digits(n)| ==> IsDigit(Digits(n)[i])
    ensures n > 0 ==> Digits(n) != [] && Digits(n)[0] != ZERO
  {
    if n > 0 {
      DigitsParse(n / 10);
      DigitValue(n % 10);
      var s := Digits(n);
      assert s[..|s| - 1] == Digits(n / 10);
    }
  }

  /** A number's numeral reads back as the number. */
  lemma NumeralParses(v: int)
    ensures Parse(Numeral(v)) == v
  {
    DigitsParse(if v < 0 then -v else v);
    if v < 0 {
      assert ([MINUS] + Digits(-v))[1..] == Digits(-v);
    } else if v == 0 {
      assert ParseDigits([]) == 0 && [ZERO][..0] == [];
    }
  }

  predicate CanonicalDigits(s: seq<char8>) {
    (forall i :: 0 <= i < |s| ==> IsDigit(s[i])) && (s != [] ==> s[0] != ZERO)
  }

  lemma {:induction false} DigitsAreTheOnlyOnes(s: seq<char8>)
    requires CanonicalDigits(s)
    ensures ParseDigits(s) >= 0 && Digits(ParseDigits(s)) == s
    ensures s != [] ==> ParseDigits(s) > 0
  {
    if s != [] {
      var front, last := s[..|s| - 1], s[|s| - 1];
      DigitsAreTheOnlyOnes(front);
      ValueDigit(last);
      assert ParseDigits(s) == 10 * ParseDigits(front) + Value(last);
      assert ParseDigits(s) > 0 by {
        if front == [] {
          assert last == s[0];
        }
      }
      assert ParseDigits(s) / 10 == ParseDigits(front) && ParseDigits(s) % 10 == Value(last);
      assert s == front + [last];
    }
  }

  /** A canonical numeral: "0", or digits without a leading zero behind at most a minus. */
  predicate Canonical(s: seq<char8>) {
    || s == [ZERO]
    || (s != [] && CanonicalDigits(s))
    || (|s| > 1 && s[0] == MINUS && CanonicalDigits(s[1..]))
  }

  lemma NumeralIsCanonical(v: int)
    ensures Canonical(Numeral(v))
  {
    DigitsParse(if v < 0 then -v else v);
    if v < 0 {
      assert Numeral(v)[1..] == Digits(-v);
    }
  }

  lemma Reads(v: int, s: seq<char8>)
    requires s == Numeral(v)
    ensures Canonical(s) && Parse(s) == v
  {
    NumeralIsCanonical(v);
    NumeralParses(v);
  }

  lemma MinusIsNoDigit()
    ensures !IsDigit(MINUS)
  {
  }

  /** Every number has exactly one canonical numeral. */
  lemma NumeralIsTheOnlyOne(s: seq<char8>)
    requires Canonical(s)
    ensures s == Numeral(Parse(s))
  {
    MinusIsNoDigit();
    if s == [ZERO] {
      NumeralParses(0);
    } else if s[0] == MINUS {
      DigitsAreTheOnlyOnes(s[1..]);
      assert s == [MINUS] + s[1..];
    } else {
      DigitsAreTheOnlyOnes(s);
    }
  }

  // Reversal in place

  /** src/strchar.c:165-178 between two positions: the three exclusive-ors swap. */
  method Reverse(a: array<char8>, lo: nat, hi: nat)
    requires lo <= hi <= a.Length
    modifies a
    ensures forall k :: lo <= k < hi ==> a[k] == old(a[lo + hi - 1 - k])
    ensures forall k :: 0 <= k < lo || hi <= k < a.Length ==> a[k] == old(a[k])
  {
    if lo == hi {
      return;
    }
    var p1, p2 := lo, hi - 1;
    while p2 > p1
      invariant lo <= p1 <= p2 + 1 <= hi && p1 + p2 == lo + hi - 1
      invariant forall k :: lo <= k < p1 || p2 < k < hi ==> a[k] == old(a[lo + hi - 1 - k])
      invariant forall k :: p1 <= k <= p2 ==> a[k] == old(a[k])
      invariant forall k :: 0 <= k < lo || hi <= k < a.Length ==> a[k] == old(a[k])
    {
      a[p1] := a[p1] ^ a[p2];
      a[p2] := a[p2] ^ a[p1];
      a[p1] := a[p1] ^ a[p2];
      p1 := p1 + 1;
      p2 := p2 - 1;
    }
  }

  function Reversed(s: seq<char8>): (r: seq<char8>)
    ensures |r| == |s| && forall i :: 0 <= i < |s| ==> r[i] == s[|s| - 1 - i]
  {
    seq(|s|, i requires 0 <= i < |s| => s[|s| - 1 - i])
  }

  lemma ReversedAppend(s: seq<char8>, c: char8)
    ensures Reversed(s + [c]) == [c] + Reversed(s)
  {
  }

  lemma ReversedPrefix(n: nat)
    requires n > 0
    ensures Reversed(Digits(n)) == [Digit(n % 10)] + Reversed(Digits(n / 10))
  {
    ReversedAppend(Digits(n / 10), Digit(n % 10));
  }

  /** src/strchar.c:198-202: digits, least significant first, while there is room before `e`. */
  method WriteDigits(v: nat, p: array<char8>, from: nat, e: nat) returns (r: nat)
    requires v > 0 && from <= e <= p.Length
    modifies p
    ensures from <= r <= e
    ensures r == e <==> |Digits(v)| >= e - from
    ensures r < e ==> p[from..r] == Reversed(Digits(v))
    ensures forall k :: 0 <= k < from ==> p[k] == old(p[k])
  {
    r := from;
    var n := v;
    while n > 0 && r < e
      invariant from <= r <= e
      invariant |Digits(n)| + (r - from) == |Digits(v)|
      invariant p[from..r] + Reversed(Digits(n)) == Reversed(Digits(v))
      invariant forall k :: 0 <= k < from ==> p[k] == old(p[k])
      decreases n
    {
      ReversedPrefix(n);
      ghost var done := p[from..r];
      p[r] := Digit(n % 10);
      r := r + 1;
      assert p[from..r] == done + [Digit(n % 10)];
      Associative(done, [Digit(n % 10)], Reversed(Digits(n / 10)));
      n := n / 10;
    }
  }

  /** src/strchar.c:198-207 */
  method PrintMagnitude(n: nat, p: array<char8>, from: nat, e: nat) returns (ok: bool)
    requires n > 0 && from <= e < p.Length
    modifies p
    ensures ok <==> |Digits(n)| < e - from
    ensures ok ==> p[from..from + |Digits(n)|] == Digits(n) && p[from + |Digits(n)|] == NUL
    ensures forall k :: 0 <= k < from ==> p[k] == old(p[k])
  {
    var r := WriteDigits(n, p, from, e);
    if r == e {
      return false;
    }
    ghost var digits := p[from..r];
    assert |digits| == |Digits(n)|;
    p[r] := NUL;
    Reverse(p, from, r);
    forall k | from <= k < r
      ensures p[k] == Digits(n)[k - from]
    {
      assert p[k] == digits[r - 1 - k];
    }
    ok := true;
  }

  /** src/strchar.c:180-209 with a buffer of `s` bytes at the start of `p`. The answer is NULL exactly
      when the buffer is below two bytes, or the number is not zero and its numeral needs all but one
      byte of the buffer or more; otherwise the buffer holds the numeral and a NUL: canonical, and
      reading back as the number. */
  method Print(v: int, p: array<char8>, s: nat) returns (ok: bool)
    requires -MAX_LONG <= v <= MAX_LONG && s <= p.Length
    modifies p
    ensures ok <==> s >= 2 && (v == 0 || |Numeral(v)| < s - 1)
    ensures ok ==> |Numeral(v)| < s && p[..|Numeral(v)|] == Numeral(v) && p[|Numeral(v)|] == NUL
    ensures ok ==> Canonical(p[..|Numeral(v)|]) && Parse(p[..|Numeral(v)|]) == v
  {
    if s < 2 {
      return false;
    }
    var e := s - 1;
    if v == 0 {
      p[0] := ZERO;
      p[1] := NUL;
      Reads(v, p[..1]);
      return true;
    }
    var from, n := 0, v;
    if v < 0 {
      p[0] := MINUS;
      from := 1;
      n := -v;
    }
    ok := PrintMagnitude(n, p, from, e);
    ghost var m := |Digits(n)|;
    if ok {
      assert p[..from + m] == p[..from] + p[from..from + m];
      Reads(v, p[..from + m]);
    }
  }
}
