// itoa and strlen of libc.c: the decimal text of an integer, written into a buffer in place.
module Itoa {

  const NUL := '\0'

  function Digit(d: nat): (c: char)
    requires d < 10
  {
    ('0' as int + d) as char
  }

  predicate IsDigit(c: char) {
    '0' <= c <= '9'
  }

  // The number a string of digits stands for.
  function Value(s: string): (v: nat)
    requires forall c :: c in s ==> IsDigit(c)
  {
    if s == [] then 0
    else
      assert IsDigit(s[|s| - 1]);
      Value(s[..|s| - 1]) * 10 + (s[|s| - 1] as int - '0' as int)
  }

  // The decimal text of a.
  function Digits(a: nat): (s: string) {
    if a < 10 then [Digit(a)] else Digits(a / 10) + [Digit(a % 10)]
  }

  // What itoa writes before the terminator; nothing at all for a negative number.
  function Text(a: int): (s: string) {
    if a < 0 then "" else Digits(a)
  }

  predicate Decimal(s: string) {
    && s != [] && (forall c :: c in s ==> IsDigit(c))
    && (|s| > 1 ==> s[0] != '0')
  }

  // Reading the text back gives the number; there is no leading zero and no terminator inside.
  lemma {:induction false} ReadBack(a: nat)
    ensures Decimal(Digits(a)) && Value(Digits(a)) == a && NUL !in Digits(a)
    ensures a > 0 ==> Digits(a)[0] != '0'
  {
    if a >= 10 {
      ReadBack(a / 10);
      var s := Digits(a);
      assert s[..|s| - 1] == Digits(a / 10);
    }
  }

  // There is no text exactly for a negative number.
  lemma NoTextExactly(a: int)
    ensures Text(a) == "" <==> a < 0
    ensures a >= 0 ==> Decimal(Text(a)) && Value(Text(a)) == a
  {
    if a >= 0 { ReadBack(a); }
  }

  // And it is the only such text.
  lemma {:induction false} OnlyText(s: string)
    requires Decimal(s)
    ensures s == Digits(Value(s))
    decreases |s|
  {
    var t := s[..|s| - 1];
    var d := s[|s| - 1] as int - '0' as int;
    assert IsDigit(s[|s| - 1]);
    assert s == t + [Digit(d)];
    if t != [] {
      DecimalPrefix(s);
      OnlyText(t);
      assert Value(t) > 0 by {
        assert Digits(0) == ['0'];
      }
      hide Value;
      OneDigitMore(Value(t), d);
    }
  }

  lemma DecimalPrefix(s: string)
    requires Decimal(s) && |s| > 1
    ensures Decimal(s[..|s| - 1]) && s[..|s| - 1][0] != '0'
    ensures Value(s) == Value(s[..|s| - 1]) * 10 + (s[|s| - 1] as int - '0' as int)
  {
  }

  lemma OneDigitMore(v: nat, d: nat)
    requires v > 0 && d < 10
    ensures Digits(v * 10 + d) == Digits(v) + [Digit(d)]
  {
    assert (v * 10 + d) / 10 == v && (v * 10 + d) % 10 == d;
  }

  function Pow10(k: nat): (p: nat)
    ensures p >= 1
  {
    if k == 0 then 1 else 10 * Pow10(k - 1)
  }

  lemma {:induction false} DigitCount(a: nat, k: nat)
    requires k > 0
    ensures |Digits(a)| <= k <==> a < Pow10(k)
  {
    if k == 1 {
      assert Pow10(1) == 10;
      if a >= 10 { NonEmpty(a / 10); }
    } else if a >= 10 {
      DigitCount(a / 10, k - 1);
    } else {
      assert Pow10(k) == 10 * Pow10(k - 1);
    }
  }

  lemma NonEmpty(a: nat)
    ensures |Digits(a)| > 0
  {
  }

  // A buffer of n cells holds the text and its terminator exactly when a has fewer than n digits.
  lemma FitsExactly(a: int, n: nat)
    requires n > 1
    ensures |Text(a)| < n <==> a < Pow10(n - 1)
  {
    if a >= 0 { DigitCount(a, n - 1); }
  }

  // printnum's ten cells hold every a below 10^9 and perror's three every a below 100, and no other.
  lemma BuffersOfCallers(a: int)
    ensures |Text(a)| < 10 <==> a < 1_000_000_000
    ensures |Text(a)| < 3 <==> a < 100
  {
    FitsExactly(a, 10);
    FitsExactly(a, 3);
    assert Pow10(2) == 100;
    assert Pow10(5) == 1000 * Pow10(2);
    assert Pow10(9) == 10000 * Pow10(5);
  }

  // The digits in the order the first loop finds them.
  function Backwards(a: nat): (s: string) {
    if a == 0 then "" else [Digit(a % 10)] + Backwards(a / 10)
  }

  lemma {:induction false} BackwardsOfDigits(a: nat)
    requires a > 0
    ensures |Backwards(a)| == |Digits(a)|
    ensures forall k :: 0 <= k < |Digits(a)| ==> Digits(a)[k] == Backwards(a)[|Digits(a)| - 1 - k]
  {
    if a >= 10 {
      BackwardsOfDigits(a / 10);
    } else {
      assert Backwards(a / 10) == "";
    }
  }

  // The remainder loop.
  method WriteBackwards(a: nat, b: array<char>) returns (i: nat)
    requires |Backwards(a)| <= b.Length
    modifies b
    ensures i == |Backwards(a)|
    ensures b[..] == Backwards(a) + old(b[i..])
  {
    i := 0;
    var n := a;
    while n > 0
      invariant i <= b.Length && Backwards(a) == b[..i] + Backwards(n)
      invariant b[i..] == old(b[i..])
    {
      assert old(b[i..])[1..] == old(b[i + 1..]);
      b[i] := Digit(n % 10);
      n := n / 10;
      i := i + 1;
    }
    assert b[..] == b[..i] + b[i..];
  }

  // The swapping loop, over the first i cells.
  method ReverseInPlace(b: array<char>, i: nat)
    requires i <= b.Length
    modifies b
    ensures forall k :: 0 <= k < i ==> b[k] == old(b[i - 1 - k])
    ensures forall k :: i <= k < b.Length ==> b[k] == old(b[k])
  {
    var i1 := 0;
    while i1 < i / 2
      invariant 0 <= i1 <= i / 2
      invariant forall k :: 0 <= k < i1 ==> b[k] == old(b[i - 1 - k]) && b[i - 1 - k] == old(b[k])
      invariant forall k :: i1 <= k < i - i1 ==> b[k] == old(b[k])
      invariant forall k :: i <= k < b.Length ==> b[k] == old(b[k])
    {
      var c := b[i1];
      b[i1] := b[i - i1 - 1];
      b[i - i1 - 1] := c;
      i1 := i1 + 1;
    }
  }

  // The last statement of itoa.
  method Terminate(b: array<char>, i: nat)
    requires i < b.Length
    modifies b
    ensures b[..] == old(b[..i]) + [NUL] + old(b[i + 1..])
  {
    b[i] := NUL;
    assert b[..] == b[..i] + [b[i]] + b[i + 1..];
  }

  // itoa for a > 0: the two loops.
  method WriteDigits(a: nat, b: array<char>) returns (i: nat)
    requires a > 0 && |Digits(a)| <= b.Length
    modifies b
    ensures i == |Digits(a)| && b[..i] == Digits(a) && b[i..] == old(b[i..])
  {
    hide Digits, Backwards;
    BackwardsOfDigits(a);
    i := WriteBackwards(a, b);
    ReverseInPlace(b, i);
  }

  method Itoa(a: int, b: array<char>)
    requires |Text(a)| < b.Length
    modifies b
    ensures b[..] == Text(a) + [NUL] + old(b[|Text(a)| + 1..])
  {
    if a == 0 {
      b[0] := '0';
      Terminate(b, 1);
      return;
    }
    hide Digits;
    var i := 0;
    if a > 0 { i := WriteDigits(a, b); }
    assert b[i..][1..] == b[i + 1..];
    assert old(b[i..])[1..] == old(b[i + 1..]);
    Terminate(b, i);
  }

  method Strlen(a: array<char>) returns (i: nat)
    requires NUL in a[..]
    ensures i < a.Length && a[i] == NUL && NUL !in a[..i]
  {
    i := 0;
    while a[i] != NUL
      invariant i <= a.Length && NUL in a[i..] && NUL !in a[..i]
      decreases a.Length - i
    {
      assert a[i..] == [a[i]] + a[i + 1..];
      i := i + 1;
    }
  }
}
