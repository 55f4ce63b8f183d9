/**
 * The compact JSON text that the audit chain hashes: a list of
 * [column, value] string pairs, with the escapes of section 7 of RFC 8259
 * that `json.dumps(..., ensure_ascii=False)` emits.
 *
 * Main results: `DumpsInjective`, the text determines the list, and
 * `EscapeReadsBack`, a JSON reader gives back every escaped text.
 */
module CanonicalJson {
  import opened Numerals
  import opened Wrappers

  type Pair = (string, string)

  function EscapeChar(c: char): string {
    if c == '\"' then "\\\""
    else if c == '\\' then "\\\\"
    else if c == '\n' then "\\n"
    else if c == '\r' then "\\r"
    else if c == '\t' then "\\t"
    else if c as int == 8 then "\\b"
    else if c as int == 12 then "\\f"
    else if c as int < 0x20 then "\\u00" + [HexDigit(c as int / 16), HexDigit(c as int % 16)]
    else [c]
  }

  function Escape(s: string): string {
    if s == [] then [] else EscapeChar(s[0]) + Escape(s[1..])
  }

  function Quote(s: string): string {
    "\"" + Escape(s) + "\""
  }

  function EncodePair(p: Pair): string {
    "[" + (Quote(p.0) + ("," + (Quote(p.1) + "]")))
  }

  function EncodeItems(ps: seq<Pair>): string {
    if ps == [] then ""
    else EncodePair(ps[0]) + (if |ps| == 1 then "" else "," + EncodeItems(ps[1..]))
  }

  function Dumps(ps: seq<Pair>): string {
    "[" + EncodeItems(ps) + "]"
  }

  // ----- The escapes form a prefix code -----

  lemma {:induction false} CutEqual(a: string, s: string, b: string, t: string)
    requires a + s == b + t
    requires |a| == |b|
    ensures a == b && s == t
  {
    assert a == (a + s)[..|a|] == (b + t)[..|b|] == b;
    assert s == (a + s)[|a|..] == (b + t)[|b|..] == t;
  }

  // Two characters below 0x20 without a short escape are told apart by their two hex digits.
  lemma {:induction false} HexDistinct(m: nat, n: nat)
    requires m < 32 && n < 32
    requires HexDigit(m / 16) == HexDigit(n / 16) && HexDigit(m % 16) == HexDigit(n % 16)
    ensures m == n
  {
  }

  // The length of an escape is readable off its first two characters.
  lemma {:induction false} EscapeCharSameLength(c: char, s: string, d: char, t: string)
    requires EscapeChar(c) + s == EscapeChar(d) + t
    ensures |EscapeChar(c)| == |EscapeChar(d)|
  {
    var u, v := EscapeChar(c), EscapeChar(d);
    assert u[0] == (u + s)[0] == (v + t)[0] == v[0];
    if u[0] == '\\' {
      assert u[1] == (u + s)[1] == (v + t)[1] == v[1];
    }
  }

  lemma {:induction false} EscapeCharPrefixFree(c: char, s: string, d: char, t: string)
    requires EscapeChar(c) + s == EscapeChar(d) + t
    ensures c == d && s == t
  {
    EscapeCharSameLength(c, s, d, t);
    CutEqual(EscapeChar(c), s, EscapeChar(d), t);
    var u, v := EscapeChar(c), EscapeChar(d);
    if |u| == 6 {
      assert u[4] == v[4] && u[5] == v[5];
      HexDistinct(c as int, d as int);
    } else {
      assert u[0] == v[0] && (|u| == 2 ==> u[1] == v[1]);
    }
  }

  // The escaped text of `x`, its closing quote, and whatever follows.
  function Closed(x: string, s: string): string {
    if x == [] then ['\"'] + s else EscapeChar(x[0]) + Closed(x[1..], s)
  }

  lemma {:induction false} ClosedIsEscape(x: string, s: string)
    ensures Closed(x, s) == Escape(x) + ['\"'] + s
  {
    if x != [] {
      ClosedIsEscape(x[1..], s);
      assert EscapeChar(x[0]) + (Escape(x[1..]) + ['\"'] + s) == (EscapeChar(x[0]) + Escape(x[1..])) + ['\"'] + s;
    }
  }

  lemma {:induction false} EscapeCharNeverQuote(c: char, s: string)
    ensures (EscapeChar(c) + s)[0] != '\"'
  {
    assert (EscapeChar(c) + s)[0] == EscapeChar(c)[0];
  }

  /** The closing quote of an escaped string can be found: no escape contains a bare quote. */
  lemma {:induction false} ClosedInjective(x: string, s: string, y: string, t: string)
    requires Closed(x, s) == Closed(y, t)
    ensures x == y && s == t
    decreases |x| + |y|
  {
    if x == [] && y == [] {
      CutEqual(['\"'], s, ['\"'], t);
    } else if x == [] {
      EscapeCharNeverQuote(y[0], Closed(y[1..], t));
    } else if y == [] {
      EscapeCharNeverQuote(x[0], Closed(x[1..], s));
    } else {
      EscapeCharPrefixFree(x[0], Closed(x[1..], s), y[0], Closed(y[1..], t));
      ClosedInjective(x[1..], s, y[1..], t);
    }
  }

  lemma {:induction false} QuoteAsClosed(x: string, s: string)
    ensures Quote(x) + s == "\"" + Closed(x, s)
  {
    hide Closed, Escape;
    ClosedIsEscape(x, s);
    var e := Escape(x);
    assert ("\"" + e + "\"") + s == "\"" + (e + ['\"'] + s);
  }

  // An encoded pair and what follows it, as nested closed strings.
  lemma {:induction false} PairAsClosed(p: Pair, s: string)
    ensures EncodePair(p) + s == "[" + ("\"" + Closed(p.0, "," + ("\"" + Closed(p.1, "]" + s))))
  {
    var q0, q1 := Quote(p.0), Quote(p.1);
    calc {
      EncodePair(p) + s;
      { Assoc("[", q0 + ("," + (q1 + "]")), s); }
      "[" + ((q0 + ("," + (q1 + "]"))) + s);
      { Assoc(q0, "," + (q1 + "]"), s); }
      "[" + (q0 + (("," + (q1 + "]")) + s));
      { Assoc(",", q1 + "]", s); }
      "[" + (q0 + ("," + ((q1 + "]") + s)));
      { Assoc(q1, "]", s); }
      "[" + (q0 + ("," + (q1 + ("]" + s))));
      { QuoteAsClosed(p.1, "]" + s); }
      "[" + (q0 + ("," + ("\"" + Closed(p.1, "]" + s))));
      { QuoteAsClosed(p.0, "," + ("\"" + Closed(p.1, "]" + s))); }
      "[" + ("\"" + Closed(p.0, "," + ("\"" + Closed(p.1, "]" + s))));
    }
  }

  lemma {:induction false} PairPrefixFree(p: Pair, s: string, q: Pair, t: string)
    requires EncodePair(p) + s == EncodePair(q) + t
    ensures p == q && s == t
  {
    var p1, q1 := Closed(p.1, "]" + s), Closed(q.1, "]" + t);
    var p0, q0 := Closed(p.0, "," + ("\"" + p1)), Closed(q.0, "," + ("\"" + q1));
    PairAsClosed(p, s);
    PairAsClosed(q, t);
    CutEqual("[", "\"" + p0, "[", "\"" + q0);
    CutEqual("\"", p0, "\"", q0);
    ClosedInjective(p.0, "," + ("\"" + p1), q.0, "," + ("\"" + q1));
    CutEqual(",", "\"" + p1, ",", "\"" + q1);
    CutEqual("\"", p1, "\"", q1);
    ClosedInjective(p.1, "]" + s, q.1, "]" + t);
    CutEqual("]", s, "]", t);
  }

  // What follows the first pair: the closing bracket, or a comma and the rest.
  function Tail(ps: seq<Pair>): string
    requires ps != []
  {
    if |ps| == 1 then "]" else "," + (EncodeItems(ps[1..]) + "]")
  }

  lemma {:induction false} ItemsSplit(ps: seq<Pair>)
    ensures ps == [] ==> EncodeItems(ps) + "]" == "]"
    ensures ps != [] ==> EncodeItems(ps) + "]" == EncodePair(ps[0]) + Tail(ps) && |EncodeItems(ps)| > 1
  {
    if |ps| == 1 {
      assert EncodePair(ps[0]) + "" == EncodePair(ps[0]);
    } else if |ps| > 1 {
      Assoc(EncodePair(ps[0]), "," + EncodeItems(ps[1..]), "]");
      Assoc(",", EncodeItems(ps[1..]), "]");
    }
  }

  lemma {:induction false} TailSplit(ps: seq<Pair>, qs: seq<Pair>)
    requires ps != [] && qs != [] && Tail(ps) == Tail(qs)
    ensures |ps| == 1 <==> |qs| == 1
    ensures |ps| > 1 ==> EncodeItems(ps[1..]) + "]" == EncodeItems(qs[1..]) + "]"
  {
    assert Tail(ps)[0] == if |ps| == 1 then ']' else ',';
    assert Tail(qs)[0] == if |qs| == 1 then ']' else ',';
    if |ps| > 1 {
      CutEqual(",", EncodeItems(ps[1..]) + "]", ",", EncodeItems(qs[1..]) + "]");
    }
  }

  lemma {:induction false} ItemsInjective(ps: seq<Pair>, qs: seq<Pair>)
    requires EncodeItems(ps) + "]" == EncodeItems(qs) + "]"
    ensures ps == qs
  {
    hide EncodePair, EncodeItems, Tail;
    ItemsSplit(ps);
    ItemsSplit(qs);
    if ps != [] && qs != [] {
      PairPrefixFree(ps[0], Tail(ps), qs[0], Tail(qs));
      TailSplit(ps, qs);
      if |ps| > 1 {
        ItemsInjective(ps[1..], qs[1..]);
      }
      assert ps == [ps[0]] + ps[1..] && qs == [qs[0]] + qs[1..];
    }
  }

  /** Two pair lists with the same text are the same list, whatever characters they hold. */
  lemma {:induction false} DumpsInjective(ps: seq<Pair>, qs: seq<Pair>)
    ensures Dumps(ps) == Dumps(qs) <==> ps == qs
  {
    if Dumps(ps) == Dumps(qs) {
      assert Dumps(ps) == "[" + (EncodeItems(ps) + "]");
      assert Dumps(qs) == "[" + (EncodeItems(qs) + "]");
      CutEqual("[", EncodeItems(ps) + "]", "[", EncodeItems(qs) + "]");
      ItemsInjective(ps, qs);
    }
  }

  // ----- What the escapes mean -----

  function HexValue(c: char): Option<nat> {
    if '0' <= c <= '9' then Some(c as int - 48)
    else if 'a' <= c <= 'f' then Some(c as int - 87)
    else if 'A' <= c <= 'F' then Some(c as int - 55)
    else None
  }

  function FourHex(s: string): Option<nat>
    requires |s| >= 4
  {
    var a, b, c, d := HexValue(s[0]), HexValue(s[1]), HexValue(s[2]), HexValue(s[3]);
    if a.None? || b.None? || c.None? || d.None? then None
    else Some(((a.value * 16 + b.value) * 16 + c.value) * 16 + d.value)
  }

  // The character of a two-character escape of section 7 of RFC 8259.
  function ShortEscape(c: char): Option<char> {
    match c
    case '\"' => Some('\"')
    case '\\' => Some('\\')
    case '/' => Some('/')
    case 'b' => Some(8 as char)
    case 'f' => Some(12 as char)
    case 'n' => Some('\n')
    case 'r' => Some('\r')
    case 't' => Some('\t')
    case _ => None
  }

  // A reader of the inside of a JSON string; surrogates are left out.
  function Unescape(s: string): Option<string>
    decreases |s|
  {
    if s == [] then Some([])
    else if s[0] == '\"' || s[0] as int < 0x20 then None
    else if s[0] != '\\' then Prepend(s[0], Unescape(s[1..]))
    else if |s| < 2 then None
    else if s[1] == 'u' then
      if |s| < 6 then None
      else
        var code := FourHex(s[2..]);
        if code.None? || code.value >= 0xD800 then None else Prepend(code.value as char, Unescape(s[6..]))
    else
      var c := ShortEscape(s[1]);
      if c.None? then None else Prepend(c.value, Unescape(s[2..]))
  }

  function Prepend(c: char, rest: Option<string>): Option<string> {
    if rest.None? then None else Some([c] + rest.value)
  }

  /** A JSON reader gives back every escaped text. */
  lemma {:induction false} EscapeReadsBack(s: string)
    ensures Unescape(Escape(s)) == Some(s)
  {
    if s != [] {
      hide Unescape;
      EscapeReadsBack(s[1..]);
      EscapeCharReads(s[0], Escape(s[1..]));
      assert [s[0]] + s[1..] == s;
    }
  }

  lemma {:induction false} EscapeCharReads(c: char, rest: string)
    ensures Unescape(EscapeChar(c) + rest) == Prepend(c, Unescape(rest))
  {
    var e := EscapeChar(c);
    var all := e + rest;
    assert all[|e|..] == rest && forall i :: 0 <= i < |e| ==> all[i] == e[i];
    if |e| == 6 {
      HexRead(c as int / 16);
      HexRead(c as int % 16);
      HexRead(0);
      assert all[2..][0] == '0' && all[2..][1] == '0' && all[2..][2] == e[4] && all[2..][3] == e[5];
    }
  }

  lemma {:induction false} HexRead(n: nat)
    requires n < 16
    ensures HexValue(HexDigit(n)) == Some(n)
  {
  }
}
