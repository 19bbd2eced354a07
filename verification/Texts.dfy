/** Text the way the programs read it: white space, decimal numerals, and
    stripping of fixed prefixes and suffixes. */
module Texts {
  import opened Wrappers

  /** The characters `str::trim` removes (Unicode White_Space). */
  predicate IsSpace(c: char)
  {
    '\t' <= c <= '\r' || c == ' ' || c == '\U{0085}' || c == '\U{00A0}' || c == '\U{1680}'
    || '\U{2000}' <= c <= '\U{200A}' || c == '\U{2028}' || c == '\U{2029}' || c == '\U{202F}'
    || c == '\U{205F}' || c == '\U{3000}'
  }

  /** Nothing is left after trimming. */
  predicate Blank(s: string)
  {
    forall i :: 0 <= i < |s| ==> IsSpace(s[i])
  }

  // -------------------------------------------------------------------- trimming

  function TrimStart(s: string): string
  {
    if s != "" && IsSpace(s[0]) then TrimStart(s[1..]) else s
  }

  function TrimEnd(s: string): string
  {
    if s != "" && IsSpace(s[|s| - 1]) then TrimEnd(s[..|s| - 1]) else s
  }

  function Trim(s: string): string
  {
    TrimEnd(TrimStart(s))
  }

  /** White space by code point. */
  lemma SpacesExactly(c: char)
    ensures IsSpace(c) <==>
      var n := c as int;
      9 <= n <= 13 || n in {32, 133, 160, 5760, 8232, 8233, 8239, 8287, 12288} || 8192 <= n <= 8202
  {
  }

  lemma {:induction false} TrimStartSkips(a: string, s: string)
    requires forall i :: 0 <= i < |a| ==> IsSpace(a[i])
    ensures TrimStart(a + s) == TrimStart(s)
  {
    if a == "" {
      assert a + s == s;
    } else {
      assert (a + s)[1..] == a[1..] + s;
      TrimStartSkips(a[1..], s);
    }
  }

  lemma {:induction false} TrimEndSkips(s: string, b: string)
    requires forall i :: 0 <= i < |b| ==> IsSpace(b[i])
    ensures TrimEnd(s + b) == TrimEnd(s)
    decreases |b|
  {
    if b == "" {
      assert s + b == s;
    } else {
      var n := |b| - 1;
      assert (s + b)[..|s + b| - 1] == s + b[..n];
      TrimEndSkips(s, b[..n]);
    }
  }

  /** Trimming takes off white space at both ends and nothing else. */
  lemma TrimExactly(a: string, s: string, b: string)
    requires forall i :: 0 <= i < |a| ==> IsSpace(a[i])
    requires forall i :: 0 <= i < |b| ==> IsSpace(b[i])
    requires s != "" ==> !IsSpace(s[0]) && !IsSpace(s[|s| - 1])
    ensures Trim(a + s + b) == s
  {
    assert a + s + b == a + (s + b);
    TrimStartSkips(a, s + b);
    if s == "" {
      assert s + b == b && b + s == b;
      TrimStartSkips(b, s);
    } else {
      TrimEndSkips(s, b);
    }
  }

  // ------------------------------------------------------------ cutting at a character

  /** The place of the first `c`, or the length. */
  function Find(s: string, c: char): (i: nat)
    ensures i <= |s| && (i < |s| ==> s[i] == c)
    ensures forall j :: 0 <= j < i ==> s[j] != c
  {
    if s == "" || s[0] == c then 0 else 1 + Find(s[1..], c)
  }

  lemma FindAt(a: string, c: char, b: string)
    requires c !in a
    ensures Find(a + [c] + b, c) == |a|
  {
    var s := a + [c] + b;
    assert s[|a|] == c;
    forall i | 0 <= i < |a| ensures s[i] != c { assert s[i] in a; }
  }

  lemma FindNone(s: string, c: char)
    requires c !in s
    ensures Find(s, c) == |s|
  {
    forall i | 0 <= i < |s| ensures s[i] != c { assert s[i] in s; }
  }

  // ------------------------------------------------------------------ decimal numerals

  predicate IsDigit(c: char)
  {
    '0' <= c <= '9'
  }

  predicate AllDigits(s: string)
  {
    forall i :: 0 <= i < |s| ==> IsDigit(s[i])
  }

  /** The numeral of `n`, without leading zeros. */
  function Dec(n: nat): (s: string)
    ensures s != "" && AllDigits(s)
  {
    if n < 10 then [('0' as int + n) as char] else Dec(n / 10) + [('0' as int + n % 10) as char]
  }

  function DigitsValue(s: string): nat
    requires AllDigits(s)
  {
    if s == "" then 0 else 10 * DigitsValue(s[..|s| - 1]) + (s[|s| - 1] as int - '0' as int)
  }

  /** Reading an unsigned integer no larger than `max`: digits, with at most a plus
      sign before them. */
  function ParseUInt(s: string, max: nat): Option<nat>
  {
    var digits := if s != "" && s[0] == '+' then s[1..] else s;
    if digits != "" && AllDigits(digits) && DigitsValue(digits) <= max then Some(DigitsValue(digits)) else None
  }

  lemma {:induction false} ValueOfDec(n: nat)
    ensures DigitsValue(Dec(n)) == n
  {
    if n < 10 {
      assert Dec(n)[..0] == "";
    } else {
      ValueOfDec(n / 10);
      assert Dec(n)[..|Dec(n)| - 1] == Dec(n / 10);
    }
  }

  /** Reading back a numeral in range gives the number. */
  lemma ParseDec(n: nat, max: nat)
    requires n <= max
    ensures ParseUInt(Dec(n), max) == Some(n)
  {
    ValueOfDec(n);
    assert IsDigit(Dec(n)[0]);
  }

  lemma NoCharInDigits(s: string, c: char)
    requires AllDigits(s) && !IsDigit(c)
    ensures c !in s
  {
  }

  /** Numerals are spelled in the ten digits, the last one being the remainder by ten. */
  lemma DecSpells(n: nat, d: nat)
    requires d < 10
    ensures d < |"0123456789"| && Dec(d) == ["0123456789"[d]]
    ensures n > 0 ==> Dec(10 * n + d) == Dec(n) + Dec(d)
  {
  }

  function Zeros(k: nat): (z: string)
    ensures |z| == k && forall i :: 0 <= i < k ==> z[i] == '0'
  {
    seq(k, i => '0')
  }

  lemma {:induction false} ValueAppend(s: string, c: char)
    requires AllDigits(s) && IsDigit(c)
    ensures AllDigits(s + [c]) && DigitsValue(s + [c]) == 10 * DigitsValue(s) + (c as int - '0' as int)
  {
    assert (s + [c])[..|s + [c]| - 1] == s;
  }

  /** A text of digits is zeros before the numeral of its value. */
  lemma {:induction false} DigitsAreZerosAndNumeral(s: string) returns (k: nat)
    requires s != "" && AllDigits(s)
    ensures s == Zeros(k) + Dec(DigitsValue(s))
    decreases |s|
  {
    var front, c := s[..|s| - 1], s[|s| - 1];
    assert s == front + [c];
    ValueAppend(front, c);
    var d: nat := c as int - '0' as int;
    DecSpells(DigitsValue(front), d);
    assert Dec(d) == [c];
    if front == "" {
      k := 0;
      assert Zeros(0) + Dec(d) == s;
    } else {
      k := DigitsAreZerosAndNumeral(front);
      if DigitsValue(front) == 0 {
        DecSpells(0, 0);
        assert front == Zeros(k + 1);
        k := k + 1;
      } else {
        assert s == Zeros(k) + (Dec(DigitsValue(front)) + [c]);
      }
    }
  }

  lemma {:induction false} ZerosAreZero(k: nat)
    ensures AllDigits(Zeros(k)) && DigitsValue(Zeros(k)) == 0
  {
    if k > 0 {
      ZerosAreZero(k - 1);
      assert Zeros(k) == Zeros(k - 1) + ['0'];
      ValueAppend(Zeros(k - 1), '0');
    }
  }

  lemma {:induction false} ValueOfZeros(k: nat, n: nat)
    ensures AllDigits(Zeros(k) + Dec(n)) && DigitsValue(Zeros(k) + Dec(n)) == n
    decreases n
  {
    var front := if n < 10 then Zeros(k) else Zeros(k) + Dec(n / 10);
    if n < 10 { ZerosAreZero(k); } else { ValueOfZeros(k, n / 10); }
    DecSpells(n / 10, n % 10);
    var c := Dec(n)[|Dec(n)| - 1];
    assert Zeros(k) + Dec(n) == front + [c];
    ValueAppend(front, c);
  }

  /** A numeral after zeros and at most one plus sign reads as its number. */
  lemma ReadsBack(plus: string, k: nat, n: nat, max: nat)
    requires plus == "" || plus == "+"
    ensures ParseUInt(plus + Zeros(k) + Dec(n), max) == if n <= max then Some(n) else None
  {
    ValueOfZeros(k, n);
    var digits := Zeros(k) + Dec(n);
    SignedDigits(plus, digits, plus + Zeros(k) + Dec(n), max);
  }

  lemma SignedDigits(plus: string, digits: string, s: string, max: nat)
    requires (plus == "" || plus == "+") && s == plus + digits && digits != "" && AllDigits(digits)
    ensures ParseUInt(s, max) == if DigitsValue(digits) <= max then Some(DigitsValue(digits)) else None
  {
    assert IsDigit(digits[0]);
    if plus == "" { assert s == digits; } else { assert s[1..] == digits; }
  }

  /** A text is the numeral of a number, after at most one plus sign and any zeros. */
  ghost predicate Spells(s: string, n: nat)
  {
    exists k, plus :: (plus == "" || plus == "+") && s == plus + Zeros(k) + Dec(n)
  }

  /** A text reads as a number exactly when it spells it and the number is in range. */
  lemma ReadsExactly(s: string, max: nat, n: nat)
    ensures ParseUInt(s, max) == Some(n) <==> n <= max && Spells(s, n)
  {
    if ParseUInt(s, max) == Some(n) { WhatWasRead(s, max); }
    if Spells(s, n) {
      var k, plus :| (plus == "" || plus == "+") && s == plus + Zeros(k) + Dec(n);
      ReadsBack(plus, k, n, max);
    }
  }

  lemma WhatWasRead(s: string, max: nat)
    requires ParseUInt(s, max).Some?
    ensures Spells(s, ParseUInt(s, max).value) && ParseUInt(s, max).value <= max
  {
    var plus := if s != "" && s[0] == '+' then "+" else "";
    var digits := s[|plus|..];
    assert s == plus + digits;
    PlusAndDigits(s, plus, digits);
  }

  lemma PlusAndDigits(s: string, plus: string, digits: string)
    requires (plus == "" || plus == "+") && s == plus + digits && digits != "" && AllDigits(digits)
    ensures Spells(s, DigitsValue(digits))
  {
    var k := DigitsAreZerosAndNumeral(digits);
    assert s == plus + Zeros(k) + Dec(DigitsValue(digits));
  }
}
