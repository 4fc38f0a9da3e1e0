/** Character-level string helpers shared by the three stages: Python's
    `str.strip(chars)`, single-character `str.replace`, and decimal digit
    strings. */
module Text {

  predicate IsDigit(c: char) { '0' <= c <= '9' }

  predicate AllDigits(s: string) { forall i :: 0 <= i < |s| ==> IsDigit(s[i]) }

  /** Every character of `s` is drawn from `chars`. */
  predicate AllIn(s: string, chars: set<char>) { forall i :: 0 <= i < |s| ==> s[i] in chars }

  /** `r` is `s` with a maximal run of `chars` removed from each end:
      `s == s[..a] + r + s[a + |r|..]`, both removed parts consist of `chars`,
      and `r` neither starts nor ends with one of them. */
  predicate Trimmed(s: string, r: string, chars: set<char>)
  {
    exists a :: 0 <= a <= |s| - |r| && r == s[a..a + |r|] &&
      AllIn(s[..a], chars) && AllIn(s[a + |r|..], chars) &&
      (r == [] || (r[0] !in chars && r[|r| - 1] !in chars))
  }

  function StripLeft(s: string, chars: set<char>): string
  {
    if s != [] && s[0] in chars then StripLeft(s[1..], chars) else s
  }

  function StripRight(s: string, chars: set<char>): string
  {
    if s != [] && s[|s| - 1] in chars then StripRight(s[..|s| - 1], chars) else s
  }

  /** Python's `s.strip(chars)`. */
  function Strip(s: string, chars: set<char>): string
  {
    StripRight(StripLeft(s, chars), chars)
  }

  /** `StripLeft` removes exactly the longest prefix drawn from `chars`. */
  lemma {:induction false} StripLeftSpec(s: string, chars: set<char>)
    ensures var r := StripLeft(s, chars);
      && |r| <= |s| && r == s[|s| - |r|..]
      && AllIn(s[..|s| - |r|], chars)
      && (r == [] || r[0] !in chars)
  {
    if s != [] && s[0] in chars {
      var t := s[1..];
      var r := StripLeft(t, chars);
      StripLeftSpec(t, chars);
      assert t[|t| - |r|..] == s[|s| - |r|..];
      var cut := |s| - |r|;
      forall i | 0 <= i < cut ensures s[..cut][i] in chars {
        if i > 0 {
          assert s[..cut][i] == t[..|t| - |r|][i - 1];
        }
      }
    }
  }

  /** `StripRight` removes exactly the longest suffix drawn from `chars`. */
  lemma {:induction false} StripRightSpec(s: string, chars: set<char>)
    ensures var r := StripRight(s, chars);
      && |r| <= |s| && r == s[..|r|]
      && AllIn(s[|r|..], chars)
      && (r == [] || r[|r| - 1] !in chars)
  {
    if s != [] && s[|s| - 1] in chars {
      var t := s[..|s| - 1];
      var r := StripRight(t, chars);
      StripRightSpec(t, chars);
      assert t[..|r|] == s[..|r|];
      forall i | 0 <= i < |s| - |r| ensures s[|r|..][i] in chars {
        if i < |t| - |r| {
          assert s[|r|..][i] == t[|r|..][i];
        }
      }
    }
  }

  /** `Strip` removes a maximal run of `chars` from each end and nothing else. */
  lemma StripSpec(s: string, chars: set<char>)
    ensures Trimmed(s, Strip(s, chars), chars)
  {
    var left := StripLeft(s, chars);
    StripLeftSpec(s, chars);
    var r := StripRight(left, chars);
    StripRightSpec(left, chars);
    var a := |s| - |left|;
    assert r == s[a..a + |r|];
    assert s[a + |r|..] == left[|r|..];
    assert r != [] ==> r[0] == left[0];
  }

  /** Python's `s.replace(old, new)` for one-character `old` and `new`. */
  function ReplaceChar(s: string, from: char, to: char): (r: string)
    ensures |r| == |s|
  {
    if s == [] then [] else [if s[0] == from then to else s[0]] + ReplaceChar(s[1..], from, to)
  }

  /** Each `from` becomes `to`; every other character stays. */
  lemma {:induction false} ReplaceCharAt(s: string, from: char, to: char, i: nat)
    requires i < |s|
    ensures ReplaceChar(s, from, to)[i] == if s[i] == from then to else s[i]
  {
    if i > 0 {
      ReplaceCharAt(s[1..], from, to, i - 1);
    }
  }

  lemma {:induction false} ReplaceCharAppend(a: string, b: string, from: char, to: char)
    ensures ReplaceChar(a + b, from, to) == ReplaceChar(a, from, to) + ReplaceChar(b, from, to)
  {
    if a == [] {
      assert a + b == b;
    } else {
      assert (a + b)[0] == a[0];
      assert (a + b)[1..] == a[1..] + b;
      ReplaceCharAppend(a[1..], b, from, to);
    }
  }

  /** Replacing a character that does not occur changes nothing. */
  lemma {:induction false} ReplaceAbsent(s: string, from: char, to: char)
    requires forall i :: 0 <= i < |s| ==> s[i] != from
    ensures ReplaceChar(s, from, to) == s
  {
    if s != [] {
      assert forall i :: 0 <= i < |s| - 1 ==> s[1..][i] == s[i + 1];
      ReplaceAbsent(s[1..], from, to);
    }
  }

  /** The index of the first `c` in `s`, or `|s|` when there is none. */
  function Find(s: string, c: char): (k: nat)
    ensures k <= |s|
    ensures forall i :: 0 <= i < k ==> s[i] != c
    ensures k < |s| ==> s[k] == c
  {
    if s == [] || s[0] == c then 0 else 1 + Find(s[1..], c)
  }

  /** The value of a decimal digit character (other characters count as 0). */
  function DigitValue(c: char): nat
  {
    if IsDigit(c) then c as int - '0' as int else 0
  }

  function DigitChar(d: nat): (c: char)
    requires d < 10
    ensures IsDigit(c) && DigitValue(c) == d
  {
    ('0' as int + d) as char
  }

  function Pow10(n: nat): (r: nat)
    ensures r >= 1
  {
    if n == 0 then 1 else 10 * Pow10(n - 1)
  }

  /** The number a string of decimal digits denotes, most significant first. */
  function DigitsToNat(s: string): nat
  {
    if s == [] then 0 else DigitsToNat(s[..|s| - 1]) * 10 + DigitValue(s[|s| - 1])
  }

  /** The shortest decimal numeral of `n` ("0" for zero). */
  function NatToDigits(n: nat): (r: string)
    ensures AllDigits(r) && |r| >= 1
    ensures r[0] == '0' ==> n == 0 && |r| == 1
    decreases n
  {
    if n < 10 then [DigitChar(n)] else NatToDigits(n / 10) + [DigitChar(n % 10)]
  }

  /** Reading back the numeral of `n` gives `n`. */
  lemma {:induction false} NatToDigitsValue(n: nat)
    ensures DigitsToNat(NatToDigits(n)) == n
    decreases n
  {
    if n >= 10 {
      NatToDigitsValue(n / 10);
      DigitsToNatSnoc(NatToDigits(n / 10), DigitChar(n % 10));
    }
  }

  /** A number below `10^k` has a numeral of at most `k` digits. */
  lemma {:induction false} NatToDigitsLength(n: nat, k: nat)
    requires k >= 1 && n < Pow10(k)
    ensures |NatToDigits(n)| <= k
    decreases n
  {
    if n >= 10 {
      assert k >= 2;
      NatToDigitsLength(n / 10, k - 1);
    }
  }

  /** `s` padded on the left with '0' up to `width` characters. */
  function ZeroPad(s: string, width: nat): (r: string)
    ensures |r| == if |s| < width then width else |s|
    ensures r == Zeros(|r| - |s|) + s
  {
    if |s| < width then Zeros(width - |s|) + s else s
  }

  function Zeros(n: nat): (r: string)
    ensures |r| == n && AllIn(r, {'0'})
  {
    if n == 0 then [] else Zeros(n - 1) + ['0']
  }

  lemma AllDigitsAppend(a: string, b: string)
    requires AllDigits(a) && AllDigits(b)
    ensures AllDigits(a + b)
  {
    var ab := a + b;
    forall i | 0 <= i < |ab| ensures IsDigit(ab[i]) {
      if i < |a| { assert ab[i] == a[i]; } else { assert ab[i] == b[i - |a|]; }
    }
  }

  /** Appending one digit multiplies the value by ten and adds the digit. */
  lemma DigitsToNatSnoc(s: string, c: char)
    ensures DigitsToNat(s + [c]) == DigitsToNat(s) * 10 + DigitValue(c)
  {
    assert (s + [c])[..|s|] == s;
  }

  /** The digits of `a + b` denote `a`'s value shifted left by `|b|` places plus `b`'s. */
  lemma {:induction false} DigitsToNatAppend(a: string, b: string)
    ensures DigitsToNat(a + b) == DigitsToNat(a) * Pow10(|b|) + DigitsToNat(b)
  {
    if b == [] {
      assert a + b == a;
    } else {
      var b', c := b[..|b| - 1], b[|b| - 1];
      assert b == b' + [c];
      assert a + b == (a + b') + [c];
      DigitsToNatAppend(a, b');
      DigitsToNatSnoc(a + b', c);
      DigitsToNatSnoc(b', c);
      ShiftDigit(DigitsToNat(a), Pow10(|b'|), DigitsToNat(b'), DigitValue(c));
    }
  }

  lemma ShiftDigit(x: int, p: int, y: int, d: int)
    ensures (x * p + y) * 10 + d == x * (p * 10) + (y * 10 + d)
  {}

  lemma ZeroPadDigits(s: string, width: nat)
    requires AllDigits(s)
    ensures AllDigits(ZeroPad(s, width))
  {
    var z := Zeros(|ZeroPad(s, width)| - |s|);
    ZerosDigits(|z|);
    AllDigitsAppend(z, s);
  }

  lemma ZerosDigits(n: nat)
    ensures AllDigits(Zeros(n))
  {
    var z := Zeros(n);
    assert forall i :: 0 <= i < |z| ==> z[i] in {'0'};
  }

  /** Proof step: splitting a string and joining the parts gives it back. */
  lemma SplitJoin(s: string, cut: nat)
    requires cut <= |s|
    ensures s[..cut] + s[cut..] == s
  {
  }

  /** Both parts of a digit string are digit strings. */
  lemma AllDigitsSlices(s: string, cut: nat)
    requires AllDigits(s) && cut <= |s|
    ensures AllDigits(s[..cut]) && AllDigits(s[cut..])
  {
    assert forall i :: 0 <= i < cut ==> s[..cut][i] == s[i];
    assert forall i :: 0 <= i < |s| - cut ==> s[cut..][i] == s[cut + i];
  }

  /** Leading zeros do not change the value of a numeral. */
  lemma ZeroPadValue(s: string, width: nat)
    ensures DigitsToNat(ZeroPad(s, width)) == DigitsToNat(s)
  {
    var r := ZeroPad(s, width);
    var z := Zeros(|r| - |s|);
    assert r == z + s;
    ZerosValue(|z|);
    DigitsToNatAppend(z, s);
    var q := Pow10(|s|);
    assert DigitsToNat(z + s) == 0 * q + DigitsToNat(s);
  }

  lemma {:induction false} ZerosValue(n: nat)
    ensures DigitsToNat(Zeros(n)) == 0
  {
    if n > 0 {
      ZerosValue(n - 1);
      assert Zeros(n)[..n - 1] == Zeros(n - 1);
    }
  }

  /** A zero-padded numeral of `n` has value `n`. */
  lemma PaddedNumeral(n: nat, width: nat)
    ensures AllDigits(ZeroPad(NatToDigits(n), width))
    ensures DigitsToNat(ZeroPad(NatToDigits(n), width)) == n
  {
    ZeroPadDigits(NatToDigits(n), width);
    ZeroPadValue(NatToDigits(n), width);
    NatToDigitsValue(n);
  }
}
