/**
 * Integers as text, printed by str and read by int, and bounds.
 *
 * Main results: `PrintedExactly`, `ReadsSpelled` with `SpelledAsRead`, and
 * `NumberingDistinguishes`.
 */
module Numerals {
  import opened Wrappers

  // max(lo, min(value, hi)).
  function Clamp(value: int, lo: nat, hi: nat): (r: nat)
    requires lo <= hi
    ensures lo <= value <= hi ==> r == value
    ensures (value < lo ==> r == lo) && (value > hi ==> r == hi)
  {
    if value < lo then lo else if value > hi then hi else value
  }

  function Larger(a: nat, b: nat): (m: nat)
    ensures m >= a && m >= b && (m == a || m == b)
  {
    if a >= b then a else b
  }

  function HexDigit(n: nat): char
    requires n < 16
  {
    if n < 10 then (48 + n) as char else (87 + n) as char
  }

  function Decimal(n: nat): string {
    if n < 10 then [(48 + n) as char] else Decimal(n / 10) + [(48 + n % 10) as char]
  }

  // str of an integer.
  function Printed(n: int): string {
    if n < 0 then "-" + Decimal(-n) else Decimal(n)
  }

  predicate IsDigit(c: char) {
    '0' <= c <= '9'
  }

  // ASCII characters str.strip() removes.
  predicate IsSpace(c: char) {
    c == ' ' || 9 <= c as int <= 13 || 28 <= c as int <= 31
  }

  function StripLeft(s: string): string {
    if s != [] && IsSpace(s[0]) then StripLeft(s[1..]) else s
  }

  function StripRight(s: string): string {
    if s != [] && IsSpace(s[|s| - 1]) then StripRight(s[..|s| - 1]) else s
  }

  // Digits, single underscores allowed between them, after a number already read.
  function ReadDigits(s: string, acc: int): Option<int>
    decreases |s|
  {
    if s == [] || !IsDigit(s[0]) then None
    else
      var value := acc * 10 + (s[0] as int - 48);
      if |s| == 1 then Some(value)
      else if s[1] == '_' then ReadDigits(s[2..], value)
      else ReadDigits(s[1..], value)
  }

  function ReadInt(text: string): Option<int> {
    var s := StripRight(StripLeft(text));
    if s != [] && s[0] == '-' then
      var digits := ReadDigits(s[1..], 0);
      if digits.None? then None else Some(0 - digits.value)
    else if s != [] && s[0] == '+' then ReadDigits(s[1..], 0)
    else ReadDigits(s, 0)
  }

  predicate AllDigits(s: string) {
    s != [] && forall i :: 0 <= i < |s| ==> IsDigit(s[i])
  }

  lemma {:induction false} DecimalDigits(n: nat)
    ensures AllDigits(Decimal(n))
  {
    if n >= 10 { DecimalDigits(n / 10); }
  }

  lemma {:induction false} ReadSnoc(s: string, acc: int, d: nat)
    requires AllDigits(s) && d < 10
    ensures ReadDigits(s, acc).Some?
    ensures ReadDigits(s + [(48 + d) as char], acc) == Some(ReadDigits(s, acc).value * 10 + d)
    decreases |s|
  {
    var c := (48 + d) as char;
    var value := acc * 10 + (s[0] as int - 48);
    if |s| == 1 {
      assert (s + [c])[1..] == [c];
      assert ReadDigits([c], value) == Some(value * 10 + d);
    } else {
      assert (s + [c])[1..] == s[1..] + [c];
      assert (s + [c])[1] == s[1] && s[1] != '_' by { assert IsDigit(s[1]); }
      ReadSnoc(s[1..], value, d);
    }
  }

  lemma {:induction false} ReadDecimal(n: nat)
    ensures ReadDigits(Decimal(n), 0) == Some(n)
  {
    if n >= 10 {
      ReadDecimal(n / 10);
      DecimalDigits(n / 10);
      ReadSnoc(Decimal(n / 10), 0, n % 10);
    }
  }

  /** int(str(n)) is n. */
  lemma {:induction false} DecimalRoundTrip(n: nat)
    ensures ReadInt(Decimal(n)) == Some(n) && '$' !in Decimal(n)
  {
    hide Decimal, ReadDigits;
    var s := Decimal(n);
    DecimalDigits(n);
    ReadDecimal(n);
    assert IsDigit(s[0]) && IsDigit(s[|s| - 1]);
    assert StripLeft(s) == s && StripRight(s) == s;
  }

  // ----- Texts that integers print as -----

  // Digits without a superfluous zero in front.
  predicate Plain(s: string) {
    AllDigits(s) && (|s| > 1 ==> s[0] != '0')
  }

  // A numeral as str writes it: no plus sign, blank, underscore, superfluous zero or negative zero.
  predicate Numeral(s: string) {
    Plain(s) || (s != [] && s[0] == '-' && Plain(s[1..]) && s[1] != '0')
  }

  lemma {:induction false} DecimalPlain(n: nat)
    ensures Plain(Decimal(n)) && (n > 0 ==> Decimal(n)[0] != '0')
  {
    DecimalDigits(n);
    if n >= 10 { DecimalPlain(n / 10); }
  }

  lemma {:induction false} NotZero(n: nat)
    requires Decimal(n) != [] && Decimal(n)[0] != '0'
    ensures n > 0
  {
  }

  lemma {:induction false} PlainIsDecimal(s: string) returns (n: nat)
    requires Plain(s)
    ensures s == Decimal(n)
  {
    var init, d := s[..|s| - 1], s[|s| - 1] as int - 48;
    assert IsDigit(s[|s| - 1]);
    if |s| == 1 {
      n := d;
    } else {
      assert forall i :: 0 <= i < |init| ==> init[i] == s[i];
      var m := PlainIsDecimal(init);
      NotZero(m);
      n := m * 10 + d;
      assert n / 10 == m && n % 10 == d;
    }
  }

  // Only negative numbers print with a sign, and int() reads the sign back.
  lemma {:induction false} PrintedReads(n: int)
    ensures Numeral(Printed(n)) && ReadInt(Printed(n)) == Some(n)
  {
    hide ReadDigits, Decimal;
    if n >= 0 {
      DecimalPlain(n);
      DecimalRoundTrip(n);
    } else {
      var digits := Decimal(-n);
      DecimalPlain(-n);
      ReadDecimal(-n);
      var s := Printed(n);
      assert s[1..] == digits && s[0] == '-' && s[|s| - 1] == digits[|digits| - 1];
      assert StripLeft(s) == s && StripRight(s) == s by { assert IsDigit(digits[|digits| - 1]); }
    }
  }

  /** A text is what an integer prints as exactly when it is a numeral that int() reads as that integer. */
  lemma {:induction false} PrintedExactly(n: int, s: string)
    ensures Printed(n) == s <==> Numeral(s) && ReadInt(s) == Some(n)
  {
    hide ReadInt, Decimal;
    PrintedReads(n);
    if Numeral(s) && ReadInt(s) == Some(n) {
      if Plain(s) {
        var m := PlainIsDecimal(s);
        PrintedReads(m);
      } else {
        var m: int := PlainIsDecimal(s[1..]);
        NotZero(m);
        assert s == "-" + s[1..];
        PrintedReads(-m);
      }
    }
  }

  // ----- The prefix that numbers a file name -----

  function Zeros(n: nat): string {
    if n == 0 then [] else ['0'] + Zeros(n - 1)
  }

  // f"{n:04d}_"
  function Numbering(n: nat): string {
    Zeros(if |Decimal(n)| < 4 then 4 - |Decimal(n)| else 0) + Decimal(n) + ['_']
  }

  lemma {:induction false} ReadZeros(k: nat, s: string)
    requires AllDigits(s)
    ensures AllDigits(Zeros(k) + s) && ReadDigits(Zeros(k) + s, 0) == ReadDigits(s, 0)
  {
    if k == 0 {
      assert Zeros(0) + s == s;
    } else {
      ReadZeros(k - 1, s);
      var rest := Zeros(k - 1) + s;
      assert Zeros(k) + s == ['0'] + rest;
      assert (['0'] + rest)[1..] == rest;
      assert rest[0] != '_' by { assert IsDigit(rest[0]); }
    }
  }

  // Digits, then one underscore.
  predicate Numbered(p: string) {
    |p| > 1 && p[|p| - 1] == '_' && forall i :: 0 <= i < |p| - 1 ==> IsDigit(p[i])
  }

  lemma {:induction false} NumberingDigits(n: nat)
    ensures var p := Numbering(n);
            Numbered(p) && ReadDigits(p[..|p| - 1], 0) == Some(n)
  {
    hide Decimal, ReadDigits, Zeros;
    DecimalDigits(n);
    ReadDecimal(n);
    var k := if |Decimal(n)| < 4 then 4 - |Decimal(n)| else 0;
    ReadZeros(k, Decimal(n));
    assert Numbering(n)[..|Numbering(n)| - 1] == Zeros(k) + Decimal(n);
  }

  lemma {:induction false} NumberedPrefix(p: string, q: string, name: string)
    requires Numbered(p) && Numbered(q) && p <= name && q <= name
    ensures p == q
  {
    assert p == name[..|p|] && q == name[..|q|];
    assert name[|p| - 1] == '_' && name[|q| - 1] == '_';
    assert forall i :: 0 <= i < |p| - 1 ==> IsDigit(name[i]);
    assert forall i :: 0 <= i < |q| - 1 ==> IsDigit(name[i]);
  }

  /** Names with different numbers differ, whatever follows the number. */
  lemma {:induction false} NumberingDistinguishes(m: nat, n: nat, name: string)
    requires Numbering(m) <= name && Numbering(n) <= name
    ensures m == n
  {
    hide Numbering, ReadDigits, Numbered;
    NumberingDigits(m);
    NumberingDigits(n);
    NumberedPrefix(Numbering(m), Numbering(n), name);
  }

  // ----- The texts int() reads -----

  // Digits, with single underscores between them.
  predicate Grouped(s: string) {
    && s != [] && IsDigit(s[0]) && IsDigit(s[|s| - 1])
    && (forall i :: 0 <= i < |s| ==> IsDigit(s[i]) || s[i] == '_')
    && forall i :: 0 <= i < |s| - 1 ==> IsDigit(s[i]) || IsDigit(s[i + 1])
  }

  function Bare(s: string): string {
    if s == [] then [] else (if s[0] == '_' then [] else [s[0]]) + Bare(s[1..])
  }

  predicate Blank(s: string) {
    forall i :: 0 <= i < |s| ==> IsSpace(s[i])
  }

  lemma {:induction false} GroupedExactly(s: string, acc: int)
    ensures ReadDigits(s, acc).Some? <==> Grouped(s)
    ensures Grouped(s) ==> AllDigits(Bare(s)) && ReadDigits(s, acc) == ReadDigits(Bare(s), acc)
    decreases |s|
  {
    if s != [] && IsDigit(s[0]) {
      var value := acc * 10 + (s[0] as int - 48);
      if |s| == 1 {
        assert Bare(s) == s;
      } else {
        var k := if s[1] == '_' then 2 else 1;
        var rest := s[k..];
        GroupedExactly(rest, value);
        GroupedRest(s, k);
        assert s[1..][1..] == s[2..];
        assert Bare(s) == [s[0]] + Bare(rest);
        if Grouped(s) {
          assert Bare(s)[1..] == Bare(rest) && Bare(s)[1] != '_' by { assert IsDigit(Bare(rest)[0]); }
        }
      }
    }
  }

  lemma {:induction false} GroupedRest(s: string, k: nat)
    requires |s| > 1 && IsDigit(s[0]) && k == if s[1] == '_' then 2 else 1
    ensures Grouped(s) <==> Grouped(s[k..])
  {
    var rest := s[k..];
    assert forall i :: 0 <= i < |rest| ==> rest[i] == s[k + i];
    if Grouped(rest) {
      forall i | 0 <= i < |s| ensures IsDigit(s[i]) || s[i] == '_' {
        if i >= k { assert rest[i - k] == s[i]; }
      }
      forall i | 0 <= i < |s| - 1 ensures IsDigit(s[i]) || IsDigit(s[i + 1]) {
        if i >= k { assert rest[i - k] == s[i] && rest[i + 1 - k] == s[i + 1]; }
        if i + 1 == k { assert rest[0] == s[k]; }
      }
      assert rest[|rest| - 1] == s[|s| - 1];
    }
    if Grouped(s) {
      assert k < |s|;
      if k == 2 { assert !IsDigit(s[1]); }
    }
  }

  lemma {:induction false} StripsLeft(left: string, s: string)
    requires Blank(left) && s != [] && !IsSpace(s[0])
    ensures StripLeft(left + s) == s
  {
    if left == [] {
      assert left + s == s;
    } else {
      assert (left + s)[1..] == left[1..] + s;
      StripsLeft(left[1..], s);
    }
  }

  lemma {:induction false} StripsRight(s: string, right: string)
    requires Blank(right) && s != [] && !IsSpace(s[|s| - 1])
    ensures StripRight(s + right) == s
  {
    if right == [] {
      assert s + right == s;
    } else {
      assert (s + right)[..|s + right| - 1] == s + right[..|right| - 1];
      assert (s + right)[|s + right| - 1] == right[|right| - 1];
      StripsRight(s, right[..|right| - 1]);
    }
  }

  lemma {:induction false} LeftBlanks(s: string) returns (left: string)
    ensures Blank(left) && s == left + StripLeft(s)
  {
    if s != [] && IsSpace(s[0]) {
      var rest := LeftBlanks(s[1..]);
      left := [s[0]] + rest;
    } else {
      left := "";
    }
  }

  lemma {:induction false} RightBlanks(s: string) returns (right: string)
    ensures Blank(right) && s == StripRight(s) + right
  {
    if s != [] && IsSpace(s[|s| - 1]) {
      var rest := RightBlanks(s[..|s| - 1]);
      right := rest + [s[|s| - 1]];
    } else {
      right := "";
    }
  }

  predicate IsSign(s: string) {
    s == "" || s == "+" || s == "-"
  }

  /** Blanks around, a sign and grouped digits, zeros in front included, are read as the number. */
  lemma {:induction false} ReadsSpelled(left: string, sign: string, digits: string, right: string, k: nat, n: nat)
    requires Blank(left) && IsSign(sign) && Grouped(digits) && Blank(right)
    requires Bare(digits) == Zeros(k) + Decimal(n)
    ensures var r := ReadInt(left + (sign + digits + right));
            r.Some? && r.value == (if sign == "-" then -1 else 1) * n
  {
    hide ReadDigits, Decimal, Zeros, Bare, StripLeft, StripRight;
    var s := sign + digits;
    assert !IsSpace(s[0]) && !IsSpace(s[|s| - 1]) && (sign + digits + right)[0] == s[0];
    StripsLeft(left, s + right);
    StripsRight(s, right);
    GroupedExactly(digits, 0);
    DecimalDigits(n);
    ReadZeros(k, Decimal(n));
    ReadDecimal(n);
    assert s[|sign|..] == digits;
  }

  lemma {:induction false} LeadingZeros(s: string) returns (k: nat, n: nat)
    requires AllDigits(s)
    ensures s == Zeros(k) + Decimal(n)
  {
    if |s| > 1 && s[0] == '0' {
      var zeros, m := LeadingZeros(s[1..]);
      k, n := zeros + 1, m;
    } else {
      n := PlainIsDecimal(s);
      k := 0;
    }
  }

  /** No other text is read. */
  lemma {:induction false} SpelledAsRead(text: string)
    returns (left: string, sign: string, digits: string, right: string, k: nat, n: nat)
    requires ReadInt(text).Some?
    ensures Blank(left) && IsSign(sign) && Grouped(digits) && Blank(right)
    ensures Bare(digits) == Zeros(k) + Decimal(n)
    ensures text == left + (sign + digits + right)
  {
    hide ReadDigits, StripLeft, StripRight, Grouped, Blank, IsSpace;
    var body := StripLeft(text);
    var s := StripRight(body);
    left := LeftBlanks(text);
    right := RightBlanks(body);
    sign := if s != [] && (s[0] == '-' || s[0] == '+') then [s[0]] else "";
    digits := s[|sign|..];
    assert s == sign + digits;
    GroupedExactly(digits, 0);
    k, n := LeadingZeros(Bare(digits));
  }
}
