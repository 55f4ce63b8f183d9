/**
 * The character scanner that bounds container nesting before a JSON text is
 * decoded, against the grammar of section 2 and section 7 of RFC 8259.
 *
 * Main results: `ScannerExact`, on every well-formed text the scanner accepts
 * exactly when the containers nest at most MAX_JSON_DEPTH deep, and
 * `LimitsMeetScanner`, when a text whose value is within the parsed limits
 * passes the scanner.
 */
module JsonNesting {
  import opened JsonBounds
  import opened Numerals

  // ----- The scanner -----

  datatype State = State(depth: int, inString: bool, escaped: bool)
  datatype Outcome = Running(s: State) | TooDeep

  function Next(o: Outcome, c: char): Outcome {
    match o
    case TooDeep => TooDeep
    case Running(s) =>
      if s.inString then
        if s.escaped then Running(s.(escaped := false))
        else if c == '\\' then Running(s.(escaped := true))
        else if c == '\"' then Running(s.(inString := false))
        else o
      else if c == '\"' then Running(s.(inString := true))
      else if c == '[' || c == '{' then
        if s.depth + 1 > MAX_JSON_DEPTH then TooDeep else Running(s.(depth := s.depth + 1))
      else if c == ']' || c == '}' then Running(s.(depth := s.depth - 1))
      else o
  }

  function Scan(o: Outcome, text: string): Outcome
    decreases |text|
  {
    if text == [] then o else Scan(Next(o, text[0]), text[1..])
  }

  const START := Running(State(0, false, false))

  /** The loop over the characters, keeping depth, string and escape state; false is the depth error. */
  method ValidateJsonNesting(text: string) returns (accepted: bool)
    ensures accepted <==> Scan(START, text).Running?
  {
    var depth, inString, escaped := 0, false, false;
    for i := 0 to |text|
      invariant Scan(START, text) == Scan(Running(State(depth, inString, escaped)), text[i..])
    {
      var character := text[i];
      assert text[i..][0] == character && text[i..][1..] == text[i + 1..];
      if inString {
        if escaped {
          escaped := false;
        } else if character == '\\' {
          escaped := true;
        } else if character == '\"' {
          inString := false;
        }
        continue;
      }
      if character == '\"' {
        inString := true;
      } else if character == '[' || character == '{' {
        depth := depth + 1;
        if depth > MAX_JSON_DEPTH {
          DeepStays(text[i + 1..]);
          return false;
        }
      } else if character == ']' || character == '}' {
        depth := depth - 1;
      }
    }
    return true;
  }

  lemma {:induction false} DeepStays(text: string)
    ensures Scan(TooDeep, text) == TooDeep
  {
    if text != [] { DeepStays(text[1..]); }
  }

  // ----- Well-formed texts, as syntax trees -----

  // One character of a string literal.
  datatype StringItem =
    | Plain(c: char)                 // unescaped
    | Escape(c: char)                // a backslash and one character
    | Unicode(hex: string)           // a backslash, u, and four hex digits

  predicate IsHex(c: char) {
    '0' <= c <= '9' || 'a' <= c <= 'f' || 'A' <= c <= 'F'
  }

  predicate ItemOk(it: StringItem) {
    match it
    case Plain(c) => c != '\"' && c != '\\' && c as int >= 0x20
    case Escape(c) => c in "\"\\/bfnrt"
    case Unicode(hex) => |hex| == 4 && forall i :: 0 <= i < 4 ==> IsHex(hex[i])
  }

  predicate Blank(ws: string) {
    forall i :: 0 <= i < |ws| ==> ws[i] == ' ' || ws[i] == '\t' || ws[i] == '\n' || ws[i] == '\r'
  }

  // Letters, digits, signs and the point: numbers, true, false, null, and the NaN and Infinity json.loads also takes.
  predicate ScalarChar(c: char) {
    '0' <= c <= '9' || 'a' <= c <= 'z' || 'A' <= c <= 'Z' || c == '+' || c == '-' || c == '.'
  }

  predicate IsScalar(lexeme: string) {
    lexeme != [] && forall i :: 0 <= i < |lexeme| ==> ScalarChar(lexeme[i])
  }

  datatype Text =
    | Scalar(lexeme: string)
    | Str(chars: seq<StringItem>)
    | Array(before: string, elements: Elements)
    | Object(before: string, members: Members)

  // Each value or name with the blanks around it.
  datatype Elements = NoElement | Element(left: string, value: Text, right: string, rest: Elements)
  datatype Members =
    | NoMember
    | Member(left: string, name: seq<StringItem>, colon: string, gap: string, value: Text, right: string, rest: Members)

  predicate StringOk(chars: seq<StringItem>) {
    forall i :: 0 <= i < |chars| ==> ItemOk(chars[i])
  }

  predicate WellFormed(t: Text) {
    match t
    case Scalar(lexeme) => IsScalar(lexeme)
    case Str(chars) => StringOk(chars)
    case Array(ws, es) => Blank(ws) && ElementsOk(es)
    case Object(ws, ms) => Blank(ws) && MembersOk(ms)
  }

  predicate ElementsOk(es: Elements) {
    es.NoElement? || (Blank(es.left) && WellFormed(es.value) && Blank(es.right) && ElementsOk(es.rest))
  }

  predicate MembersOk(ms: Members) {
    ms.NoMember? ||
    (Blank(ms.left) && StringOk(ms.name) && Blank(ms.colon) && Blank(ms.gap) && WellFormed(ms.value) && Blank(ms.right)
     && MembersOk(ms.rest))
  }

  // ----- Their characters -----

  function RenderItem(it: StringItem): string {
    match it
    case Plain(c) => [c]
    case Escape(c) => ['\\', c]
    case Unicode(hex) => ['\\', 'u'] + hex
  }

  function RenderItems(chars: seq<StringItem>): string {
    if chars == [] then [] else RenderItem(chars[0]) + RenderItems(chars[1..])
  }

  function RenderString(chars: seq<StringItem>): string {
    ['\"'] + (RenderItems(chars) + ['\"'])
  }

  function Render(t: Text): string {
    match t
    case Scalar(lexeme) => lexeme
    case Str(chars) => RenderString(chars)
    case Array(ws, es) => ['['] + (ws + (RenderElements(es) + [']']))
    case Object(ws, ms) => ['{'] + (ws + (RenderMembers(ms) + ['}']))
  }

  function RenderElements(es: Elements): string {
    match es
    case NoElement => []
    case Element(l, v, r, rest) =>
      l + (Render(v) + (r + ((if rest.NoElement? then [] else [',']) + RenderElements(rest))))
  }

  function RenderMembers(ms: Members): string {
    match ms
    case NoMember => []
    case Member(l, n, c, g, v, r, rest) =>
      l + (RenderString(n) + (c + ([':'] + (g + (Render(v) +
        (r + ((if rest.NoMember? then [] else [',']) + RenderMembers(rest))))))))
  }

  // ----- How deep containers nest -----

  function Nesting(t: Text): nat {
    match t
    case Scalar(_) => 0
    case Str(_) => 0
    case Array(_, es) => 1 + NestingElements(es)
    case Object(_, ms) => 1 + NestingMembers(ms)
  }

  function NestingElements(es: Elements): nat {
    match es
    case NoElement => 0
    case Element(_, v, _, rest) => Larger(Nesting(v), NestingElements(rest))
  }

  function NestingMembers(ms: Members): nat {
    match ms
    case NoMember => 0
    case Member(_, _, _, _, v, _, rest) => Larger(Nesting(v), NestingMembers(rest))
  }

  // ----- The scanner on rendered texts -----

  lemma {:induction false} ScanConcat(o: Outcome, a: string, b: string)
    ensures Scan(o, a + b) == Scan(Scan(o, a), b)
    decreases |a|
  {
    if a == [] {
      assert a + b == b;
    } else {
      assert (a + b)[1..] == a[1..] + b;
      ScanConcat(Next(o, a[0]), a[1..], b);
    }
  }

  function At(depth: int): Outcome {
    Running(State(depth, false, false))
  }

  // What scanning a value that nests `n` deep, from depth `d`, comes to.
  function After(d: int, n: nat): Outcome {
    if d + n > MAX_JSON_DEPTH then TooDeep else At(d)
  }

  predicate Structural(c: char) {
    c == '\"' || c == '[' || c == ']' || c == '{' || c == '}'
  }

  // Characters that mean nothing outside strings.
  predicate Inert(s: string) {
    forall i :: 0 <= i < |s| ==> !Structural(s[i])
  }

  lemma {:induction false} ScanInert(d: int, s: string)
    requires Inert(s)
    ensures Scan(At(d), s) == At(d)
  {
    if s != [] {
      ScanInert(d, s[1..]);
    }
  }

  lemma {:induction false} BlankIsInert(ws: string)
    requires Blank(ws)
    ensures Inert(ws)
  {
  }

  lemma {:induction false} ScalarIsInert(lexeme: string)
    requires IsScalar(lexeme)
    ensures Inert(lexeme)
  {
  }

  // Inside a string, ordinary characters change nothing.
  lemma {:induction false} ScanPlain(d: int, s: string)
    requires forall i :: 0 <= i < |s| ==> s[i] != '\"' && s[i] != '\\'
    ensures Scan(Running(State(d, true, false)), s) == Running(State(d, true, false))
  {
    if s != [] { ScanPlain(d, s[1..]); }
  }

  lemma {:induction false} ScanItem(d: int, it: StringItem)
    requires ItemOk(it)
    ensures Scan(Running(State(d, true, false)), RenderItem(it)) == Running(State(d, true, false))
  {
    var inside := Running(State(d, true, false));
    match it
    case Plain(c) => ScanPlain(d, [c]);
    case Escape(c) => ScanEscaped(d, c);
    case Unicode(hex) =>
      ScanEscaped(d, 'u');
      ScanConcat(inside, ['\\', 'u'], hex);
      ScanPlain(d, hex);
  }

  lemma {:induction false} ScanEscaped(d: int, c: char)
    ensures Scan(Running(State(d, true, false)), ['\\', c]) == Running(State(d, true, false))
  {
    hide Scan;
    var inside := Running(State(d, true, false));
    ScanConcat(inside, ['\\'], [c]);
    assert ['\\'] + [c] == ['\\', c];
    ScanChar(inside, '\\');
    ScanChar(Running(State(d, true, true)), c);
  }

  lemma {:induction false} ScanItems(d: int, chars: seq<StringItem>)
    requires StringOk(chars)
    ensures Scan(Running(State(d, true, false)), RenderItems(chars)) == Running(State(d, true, false))
  {
    if chars != [] {
      ScanConcat(Running(State(d, true, false)), RenderItem(chars[0]), RenderItems(chars[1..]));
      ScanItem(d, chars[0]);
      ScanItems(d, chars[1..]);
    }
  }

  /** A string literal, whatever brackets and escapes it holds, leaves depth and state alone. */
  lemma {:induction false} ScanString(d: int, chars: seq<StringItem>)
    requires StringOk(chars)
    ensures Scan(At(d), RenderString(chars)) == At(d)
  {
    hide RenderItems;
    var inside := Running(State(d, true, false));
    ScanConcat(At(d), ['\"'], RenderItems(chars) + ['\"']);
    ScanChar(At(d), '\"');
    ScanConcat(inside, RenderItems(chars), ['\"']);
    ScanItems(d, chars);
    ScanChar(inside, '\"');
  }

  lemma {:induction false} ScanChar(o: Outcome, c: char)
    ensures Scan(o, [c]) == Next(o, c)
  {
    assert [c][1..] == [];
  }

  // Two pieces in a row, from a depth already within the limit.
  lemma {:induction false} ScanTwo(d: int, a: string, m: nat, b: string, n: nat)
    requires d <= MAX_JSON_DEPTH && Scan(At(d), a) == After(d, m) && Scan(At(d), b) == After(d, n)
    ensures Scan(At(d), a + b) == After(d, Larger(m, n))
  {
    ScanConcat(At(d), a, b);
    DeepStays(b);
  }

  lemma {:induction false} ScanInertThen(d: int, a: string, b: string, n: nat)
    requires d <= MAX_JSON_DEPTH && Inert(a) && Scan(At(d), b) == After(d, n)
    ensures Scan(At(d), a + b) == After(d, n)
  {
    ScanInert(d, a);
    ScanTwo(d, a, 0, b, n);
  }

  // A container whose content nests `n` deep.
  lemma {:induction false} ScanContainer(d: int, open: char, ws: string, body: string, close: char, n: nat)
    requires d <= MAX_JSON_DEPTH && Blank(ws)
    requires (open == '[' && close == ']') || (open == '{' && close == '}')
    requires d + 1 <= MAX_JSON_DEPTH ==> Scan(At(d + 1), body) == After(d + 1, n)
    ensures Scan(At(d), [open] + (ws + (body + [close]))) == After(d, 1 + n)
  {
    ScanConcat(At(d), [open], ws + (body + [close]));
    ScanChar(At(d), open);
    if d + 1 > MAX_JSON_DEPTH {
      DeepStays(ws + (body + [close]));
    } else {
      BlankIsInert(ws);
      ScanInert(d + 1, ws);
      ScanConcat(At(d + 1), ws, body + [close]);
      ScanConcat(At(d + 1), body, [close]);
      ScanChar(At(d + 1), close);
      DeepStays([close]);
    }
  }

  lemma {:induction false} ScanText(d: int, t: Text)
    requires WellFormed(t) && d <= MAX_JSON_DEPTH
    ensures Scan(At(d), Render(t)) == After(d, Nesting(t))
    decreases t
  {
    hide Scan, Inert;
    match t
    case Scalar(lexeme) =>
      ScalarIsInert(lexeme);
      ScanInert(d, lexeme);
    case Str(chars) => ScanString(d, chars);
    case Array(ws, es) =>
      if d + 1 <= MAX_JSON_DEPTH { ScanElements(d + 1, es); }
      ScanContainer(d, '[', ws, RenderElements(es), ']', NestingElements(es));
    case Object(ws, ms) =>
      if d + 1 <= MAX_JSON_DEPTH { ScanMembers(d + 1, ms); }
      ScanContainer(d, '{', ws, RenderMembers(ms), '}', NestingMembers(ms));
  }

  lemma {:induction false} ScanNothing(d: int)
    ensures Scan(At(d), []) == At(d)
  {
  }

  lemma {:induction false} ScanElements(d: int, es: Elements)
    requires ElementsOk(es) && d <= MAX_JSON_DEPTH
    ensures Scan(At(d), RenderElements(es)) == After(d, NestingElements(es))
    decreases es
  {
    hide Scan, Inert, Render, WellFormed;
    match es
    case NoElement => ScanNothing(d);
    case Element(l, v, r, rest) =>
      var comma := if rest.NoElement? then [] else [','];
      ScanElements(d, rest);
      ScanText(d, v);
      CommaInert(rest.NoElement?);
      BlankIsInert(l);
      BlankIsInert(r);
      ScanInertThen(d, comma, RenderElements(rest), NestingElements(rest));
      ScanInertThen(d, r, comma + RenderElements(rest), NestingElements(rest));
      ScanTwo(d, Render(v), Nesting(v), r + (comma + RenderElements(rest)), NestingElements(rest));
      ScanInertThen(d, l, Render(v) + (r + (comma + RenderElements(rest))), NestingElements(es));
  }

  lemma {:induction false} CommaInert(last: bool)
    ensures Inert(if last then [] else [','])
    ensures Inert([':'])
  {
  }

  lemma {:induction false} ScanMembers(d: int, ms: Members)
    requires MembersOk(ms) && d <= MAX_JSON_DEPTH
    ensures Scan(At(d), RenderMembers(ms)) == After(d, NestingMembers(ms))
    decreases ms
  {
    hide Scan, Inert, Render, WellFormed, RenderString;
    match ms
    case NoMember => ScanNothing(d);
    case Member(l, n, c, g, v, r, rest) =>
      var comma := if rest.NoMember? then [] else [','];
      var s0 := comma + RenderMembers(rest);
      var s1 := r + s0;
      var s2 := Render(v) + s1;
      var s3 := [':'] + (g + s2);
      ScanMembers(d, rest);
      ScanText(d, v);
      CommaInert(rest.NoMember?);
      BlankIsInert(l);
      BlankIsInert(c);
      BlankIsInert(g);
      BlankIsInert(r);
      ScanInertThen(d, comma, RenderMembers(rest), NestingMembers(rest));
      ScanInertThen(d, r, s0, NestingMembers(rest));
      ScanTwo(d, Render(v), Nesting(v), s1, NestingMembers(rest));
      ScanInertThen(d, g, s2, NestingMembers(ms));
      ScanInertThen(d, [':'], g + s2, NestingMembers(ms));
      ScanInertThen(d, c, s3, NestingMembers(ms));
      ScanString(d, n);
      ScanTwo(d, RenderString(n), 0, c + s3, NestingMembers(ms));
      ScanInertThen(d, l, RenderString(n) + (c + s3), NestingMembers(ms));
  }

  /** On every well-formed text, blanks around it included, the scanner accepts exactly nesting up to the limit. */
  lemma {:induction false} ScannerExact(left: string, t: Text, right: string)
    requires Blank(left) && WellFormed(t) && Blank(right)
    ensures Scan(START, left + (Render(t) + right)).Running? <==> Nesting(t) <= MAX_JSON_DEPTH
  {
    hide Scan, Inert, Render, WellFormed, Nesting;
    ScanText(0, t);
    BlankIsInert(left);
    BlankIsInert(right);
    ScanInert(0, right);
    ScanTwo(0, Render(t), Nesting(t), right, 0);
    ScanInertThen(0, left, Render(t) + right, Nesting(t));
  }

  // ----- Texts and the values they parse to -----

  function HexValue(c: char): int
    requires IsHex(c)
  {
    if c <= '9' then c as int - 48 else if c <= 'F' then c as int - 55 else c as int - 87
  }

  // The UTF-16 code units a piece of a literal stands for.
  function Units(it: StringItem): seq<int>
    requires ItemOk(it)
  {
    match it
    case Plain(c) =>
      if c as int < 0x10000 then [c as int]
      else [0xD800 + (c as int - 0x10000) / 0x400, 0xDC00 + (c as int - 0x10000) % 0x400]
    case Escape(c) =>
      [match c case 'b' => 8 case 'f' => 12 case 'n' => 10 case 'r' => 13 case 't' => 9 case _ => c as int]
    case Unicode(hex) =>
      [0x1000 * HexValue(hex[0]) + 0x100 * HexValue(hex[1]) + 0x10 * HexValue(hex[2]) + HexValue(hex[3])]
  }

  // A code unit in four lower-case hexadecimal digits.
  function FourHex(n: nat): string
    requires n < 0x10000
  {
    [HexDigit(n / 0x1000), HexDigit(n / 0x100 % 16), HexDigit(n / 16 % 16), HexDigit(n % 16)]
  }

  function Lowered(s: string): string {
    seq(|s|, i requires 0 <= i < |s| => if 'A' <= s[i] <= 'F' then (s[i] as int + 32) as char else s[i])
  }

  lemma {:induction false} HexRead(c: char)
    requires IsHex(c)
    ensures 0 <= HexValue(c) < 16
    ensures HexDigit(HexValue(c)) == if 'A' <= c <= 'F' then (c as int + 32) as char else c
  {
  }

  lemma {:induction false} HexDigits(a: nat, b: nat, c: nat, d: nat)
    requires a < 16 && b < 16 && c < 16 && d < 16
    ensures var n := 0x1000 * a + 0x100 * b + 0x10 * c + d;
            n < 0x10000 && n / 0x1000 == a && n / 0x100 % 16 == b && n / 16 % 16 == c && n % 16 == d
  {
    var n := 0x1000 * a + 0x100 * b + 0x10 * c + d;
    assert n / 0x1000 == a && n / 0x100 == 16 * a + b && n / 16 == 256 * a + 16 * b + c;
  }

  lemma {:induction false} UnicodeReads(hex: string)
    requires ItemOk(Unicode(hex))
    ensures var m := Units(Unicode(hex))[0];
            0 <= m < 0x10000 && Units(Unicode(hex)) == [m] && Lowered(hex) == FourHex(m)
  {
    hide HexValue, HexDigit, IsHex;
    HexRead(hex[0]);
    HexRead(hex[1]);
    HexRead(hex[2]);
    HexRead(hex[3]);
    HexDigits(HexValue(hex[0]), HexValue(hex[1]), HexValue(hex[2]), HexValue(hex[3]));
  }

  lemma {:induction false} Regroup(n: nat)
    requires n < 0x10000
    ensures n == 0x1000 * (n / 0x1000) + 0x100 * (n / 0x100 % 16) + 0x10 * (n / 16 % 16) + n % 16
  {
    var a, b, c := n / 0x1000, n / 0x100, n / 16;
    assert c == 16 * (c / 16) + c % 16 && c / 16 == b;
    assert b == 16 * (b / 16) + b % 16 && b / 16 == a;
  }

  lemma {:induction false} FourHexInjective(m: nat, n: nat)
    requires m < 0x10000 && n < 0x10000 && FourHex(m) == FourHex(n)
    ensures m == n
  {
    hide HexDigit;
    var s, t := FourHex(m), FourHex(n);
    assert s[0] == t[0] && s[1] == t[1] && s[2] == t[2] && s[3] == t[3];
    assert m / 0x1000 < 16 && n / 0x1000 < 16;
    HexDigitInjective(m / 0x1000, n / 0x1000);
    HexDigitInjective(m / 0x100 % 16, n / 0x100 % 16);
    HexDigitInjective(m / 16 % 16, n / 16 % 16);
    HexDigitInjective(m % 16, n % 16);
    Regroup(m);
    Regroup(n);
  }

  /** Four digits mean the code unit they print, in either case of the letters. */
  lemma {:induction false} UnicodeExactly(hex: string, n: nat)
    requires ItemOk(Unicode(hex)) && n < 0x10000
    ensures Units(Unicode(hex)) == [n] <==> Lowered(hex) == FourHex(n)
  {
    hide Units, FourHex, Lowered;
    UnicodeReads(hex);
    var m := Units(Unicode(hex))[0];
    if Lowered(hex) == FourHex(n) { FourHexInjective(m, n); }
  }

  lemma {:induction false} HexDigitInjective(m: nat, n: nat)
    requires m < 16 && n < 16 && HexDigit(m) == HexDigit(n)
    ensures m == n
  {
  }

  // The short escape of each character that has one.
  const SHORT_ESCAPES: map<char, char> := map[
    '\"' := '\"', '\\' := '\\', '/' := '/', 'b' := 8 as char, 'f' := 12 as char, 'n' := '\n', 'r' := '\r', 't' := '\t'
  ]

  /** A short escape, and a character itself up to U+FFFF, mean what their four digits mean; others are a pair. */
  lemma {:induction false} SpelledAlike(c: char)
    requires ItemOk(Plain(c))
    ensures forall e <- SHORT_ESCAPES ::
              ItemOk(Escape(e)) && Units(Escape(e)) == Units(Unicode(FourHex(SHORT_ESCAPES[e] as int)))
    ensures c as int < 0x10000 ==> Units(Plain(c)) == Units(Unicode(FourHex(c as int)))
    ensures c as int >= 0x10000 ==>
              var u := Units(Plain(c));
              && |u| == 2 && 0xD800 <= u[0] < 0xDC00 <= u[1] < 0xE000
              && c as int == 0x10000 + 0x400 * (u[0] - 0xD800) + (u[1] - 0xDC00)
  {
    forall e | e in SHORT_ESCAPES
      ensures ItemOk(Escape(e)) && Units(Escape(e)) == Units(Unicode(FourHex(SHORT_ESCAPES[e] as int)))
    {
      FourRead(SHORT_ESCAPES[e] as int);
    }
    if c as int < 0x10000 { FourRead(c as int); }
  }

  lemma {:induction false} FourRead(n: nat)
    requires n < 0x10000
    ensures ItemOk(Unicode(FourHex(n))) && Units(Unicode(FourHex(n))) == [n]
  {
    assert Lowered(FourHex(n)) == FourHex(n);
    UnicodeExactly(FourHex(n), n);
  }

  // What a literal means; two spellings of one name are the same key.
  function Meaning(chars: seq<StringItem>): seq<int>
    requires StringOk(chars)
  {
    if chars == [] then [] else Units(chars[0]) + Meaning(chars[1..])
  }

  predicate Repeated(name: seq<StringItem>, ms: Members)
    requires StringOk(name) && MembersOk(ms)
  {
    ms.Member? && (Meaning(ms.name) == Meaning(name) || Repeated(name, ms.rest))
  }

  // The value json.loads builds: of members with the same name, only the last stays.
  function Parse(t: Text): Json
    requires WellFormed(t)
  {
    match t
    case Scalar(_) => Atom
    case Str(_) => Atom
    case Array(_, es) => List(ParseElements(es))
    case Object(_, ms) => Dict(ParseValues(ms))
  }

  function ParseElements(es: Elements): seq<Json>
    requires ElementsOk(es)
  {
    match es
    case NoElement => []
    case Element(_, v, _, rest) => [Parse(v)] + ParseElements(rest)
  }

  function ParseValues(ms: Members): seq<Json>
    requires MembersOk(ms)
  {
    match ms
    case NoMember => []
    case Member(_, n, _, _, v, _, rest) =>
      if Repeated(n, rest) then ParseValues(rest) else [Parse(v)] + ParseValues(rest)
  }

  // The values dropped for a later member of the same name fit below depth `d` too.
  predicate DroppedFit(t: Text, d: nat)
    requires WellFormed(t)
  {
    match t
    case Scalar(_) => true
    case Str(_) => true
    case Array(_, es) => DroppedFitElements(es, d + 1)
    case Object(_, ms) => DroppedFitMembers(ms, d + 1)
  }

  predicate DroppedFitElements(es: Elements, d: nat)
    requires ElementsOk(es)
  {
    es.NoElement? || (DroppedFit(es.value, d) && DroppedFitElements(es.rest, d))
  }

  predicate DroppedFitMembers(ms: Members, d: nat)
    requires MembersOk(ms)
  {
    ms.NoMember? ||
    (DroppedFitMembers(ms.rest, d) &&
     if Repeated(ms.name, ms.rest) then d + Nesting(ms.value) <= MAX_JSON_DEPTH else DroppedFit(ms.value, d))
  }

  // Leaves count as a level in `Height` and not in `Nesting`.
  lemma {:induction false} NestingByHeight(t: Text, d: nat)
    requires WellFormed(t)
    requires d + Height(Parse(t)) <= MAX_JSON_DEPTH
    ensures d + Nesting(t) <= MAX_JSON_DEPTH <==> DroppedFit(t, d)
    decreases t
  {
    match t
    case Scalar(_) =>
    case Str(_) =>
    case Array(_, es) => NestingByElements(es, d + 1);
    case Object(_, ms) => NestingByMembers(ms, d + 1);
  }

  lemma {:induction false} NestingByElements(es: Elements, d: nat)
    requires ElementsOk(es) && d <= MAX_JSON_DEPTH
    requires d + HeightAll(ParseElements(es)) <= MAX_JSON_DEPTH
    ensures d + NestingElements(es) <= MAX_JSON_DEPTH <==> DroppedFitElements(es, d)
    decreases es
  {
    match es
    case NoElement =>
    case Element(_, v, _, rest) =>
      assert ParseElements(es)[1..] == ParseElements(rest);
      NestingByHeight(v, d);
      NestingByElements(rest, d);
  }

  lemma {:induction false} NestingByMembers(ms: Members, d: nat)
    requires MembersOk(ms) && d <= MAX_JSON_DEPTH
    requires d + HeightAll(ParseValues(ms)) <= MAX_JSON_DEPTH
    ensures d + NestingMembers(ms) <= MAX_JSON_DEPTH <==> DroppedFitMembers(ms, d)
    decreases ms
  {
    match ms
    case NoMember =>
    case Member(_, n, _, _, v, _, rest) =>
      if Repeated(n, rest) {
        NestingByMembers(rest, d);
      } else {
        assert ParseValues(ms)[1..] == ParseValues(rest);
        NestingByHeight(v, d);
        NestingByMembers(rest, d);
      }
  }

  /**
   * A text whose parsed value is within limits passes the scanner exactly when
   * the values its repeated names shadow nest within the limit as well.
   */
  lemma {:induction false} LimitsMeetScanner(left: string, t: Text, right: string)
    requires Blank(left) && WellFormed(t) && Blank(right)
    requires WithinLimits(Parse(t))
    ensures Scan(START, left + (Render(t) + right)).Running? <==> DroppedFit(t, 0)
  {
    hide Scan, Render, WellFormed, Nesting, Height, Nodes, WidthsOk, Parse, DroppedFit;
    NestingByHeight(t, 0);
    ScannerExact(left, t, right);
  }

  // No object of the text repeats a name.
  predicate DistinctNames(t: Text)
    requires WellFormed(t)
  {
    match t
    case Scalar(_) => true
    case Str(_) => true
    case Array(_, es) => DistinctInElements(es)
    case Object(_, ms) => DistinctInMembers(ms)
  }

  predicate DistinctInElements(es: Elements)
    requires ElementsOk(es)
  {
    es.NoElement? || (DistinctNames(es.value) && DistinctInElements(es.rest))
  }

  predicate DistinctInMembers(ms: Members)
    requires MembersOk(ms)
  {
    ms.NoMember? || (!Repeated(ms.name, ms.rest) && DistinctNames(ms.value) && DistinctInMembers(ms.rest))
  }

  lemma {:induction false} DistinctDropNothing(t: Text, d: nat)
    requires WellFormed(t) && DistinctNames(t)
    ensures DroppedFit(t, d)
    decreases t
  {
    match t
    case Scalar(_) =>
    case Str(_) =>
    case Array(_, es) => DistinctDropNoElements(es, d + 1);
    case Object(_, ms) => DistinctDropNoMembers(ms, d + 1);
  }

  lemma {:induction false} DistinctDropNoElements(es: Elements, d: nat)
    requires ElementsOk(es) && DistinctInElements(es)
    ensures DroppedFitElements(es, d)
    decreases es
  {
    if es.Element? {
      DistinctDropNothing(es.value, d);
      DistinctDropNoElements(es.rest, d);
    }
  }

  lemma {:induction false} DistinctDropNoMembers(ms: Members, d: nat)
    requires MembersOk(ms) && DistinctInMembers(ms)
    ensures DroppedFitMembers(ms, d)
    decreases ms
  {
    if ms.Member? {
      DistinctDropNothing(ms.value, d);
      DistinctDropNoMembers(ms.rest, d);
    }
  }

  lemma {:induction false} NestingParsed(t: Text)
    requires WellFormed(t) && DistinctNames(t)
    ensures Nesting(t) == Containers(Parse(t))
    decreases t
  {
    match t
    case Scalar(_) =>
    case Str(_) =>
    case Array(_, es) => NestingOfElements(es);
    case Object(_, ms) => NestingOfMembers(ms);
  }

  lemma {:induction false} NestingOfElements(es: Elements)
    requires ElementsOk(es) && DistinctInElements(es)
    ensures NestingElements(es) == ContainersAll(ParseElements(es))
    decreases es
  {
    if es.Element? {
      assert ParseElements(es)[1..] == ParseElements(es.rest);
      NestingParsed(es.value);
      NestingOfElements(es.rest);
    }
  }

  lemma {:induction false} NestingOfMembers(ms: Members)
    requires MembersOk(ms) && DistinctInMembers(ms)
    ensures NestingMembers(ms) == ContainersAll(ParseValues(ms))
    decreases ms
  {
    if ms.Member? {
      assert ParseValues(ms)[1..] == ParseValues(ms.rest);
      NestingParsed(ms.value);
      NestingOfMembers(ms.rest);
    }
  }

  /** Without repeated names, the scanner accepts exactly when every list and dictionary of the value lies less deep. */
  lemma {:induction false} ScannerByPlaces(left: string, t: Text, right: string)
    requires Blank(left) && WellFormed(t) && Blank(right) && DistinctNames(t)
    ensures Scan(START, left + (Render(t) + right)).Running? <==>
            forall p :: Place(Parse(t), p).Some? && !Place(Parse(t), p).value.Atom? ==> |p| < MAX_JSON_DEPTH
  {
    hide Scan, Render, WellFormed, Nesting, Parse, DistinctNames, Containers, Place;
    ScannerExact(left, t, right);
    NestingParsed(t);
    ContainersByPlaces(Parse(t), MAX_JSON_DEPTH);
  }

  /** Without repeated names, values within the limits always pass the scanner. */
  lemma {:induction false} LimitsImplyScanner(left: string, t: Text, right: string)
    requires Blank(left) && WellFormed(t) && Blank(right) && DistinctNames(t)
    requires WithinLimits(Parse(t))
    ensures Scan(START, left + (Render(t) + right)).Running?
  {
    hide Scan, Render, WellFormed, Nesting, Height, Nodes, WidthsOk, Parse, DroppedFit, DistinctNames;
    DistinctDropNothing(t, 0);
    LimitsMeetScanner(left, t, right);
  }

  function Nested(n: nat): Text {
    if n == 0 then Scalar("1") else Array("", Element("", Nested(n - 1), "", NoElement))
  }

  lemma {:induction false} NestedFacts(n: nat)
    ensures WellFormed(Nested(n)) && Nesting(Nested(n)) == n
  {
    if n > 0 {
      NestedFacts(n - 1);
    }
  }

  // An object naming "a" twice, the first time for `v`, the second time for a number.
  function Shadowing(v: Text): Text {
    Object("", Member("", [Plain('a')], "", "", v, "", Member("", [Plain('a')], "", "", Scalar("1"), "", NoMember)))
  }

  lemma {:induction false} ShadowingParsed(v: Text)
    requires WellFormed(v)
    ensures WellFormed(Shadowing(v)) && Parse(Shadowing(v)) == Dict([Atom])
    ensures Nesting(Shadowing(v)) == 1 + Nesting(v)
  {
    hide Nesting, Parse;
    var last := Member("", [Plain('a')], "", "", Scalar("1"), "", NoMember);
    var all := Member("", [Plain('a')], "", "", v, "", last);
    assert WellFormed(Scalar("1"));
    assert MembersOk(last) && MembersOk(all);
    assert Repeated([Plain('a')], last);
    ShadowedValues(v, last);
  }

  lemma {:induction false} ShadowedValues(v: Text, last: Members)
    requires WellFormed(v) && last == Member("", [Plain('a')], "", "", Scalar("1"), "", NoMember)
    requires var all := Member("", [Plain('a')], "", "", v, "", last);
             MembersOk(all) && Repeated([Plain('a')], last) && WellFormed(Object("", all))
    ensures Parse(Object("", Member("", [Plain('a')], "", "", v, "", last))) == Dict([Atom])
    ensures Nesting(Object("", Member("", [Plain('a')], "", "", v, "", last))) == 1 + Nesting(v)
  {
    hide WellFormed, Repeated;
    assert ParseValues(NoMember) == [];
    assert Parse(Scalar("1")) == Atom;
    RepeatedInNone([Plain('a')]);
    assert ParseValues(last) == [Atom];
    assert NestingMembers(last) == 0;
  }

  lemma {:induction false} RepeatedInNone(name: seq<StringItem>)
    requires StringOk(name)
    ensures !Repeated(name, NoMember)
  {
  }

  lemma {:induction false} SmallWithinLimits()
    ensures WithinLimits(Dict([Atom]))
  {
    assert NodesAll([Atom]) == 1 + NodesAll([]);
    assert HeightAll([Atom]) == 1;
  }

  /** A repeated name hides a deep value from the parsed limits; only the scanner sees it. */
  lemma {:induction false} RepeatedNameHidesDepth()
    ensures var t := Shadowing(Nested(MAX_JSON_DEPTH));
            WellFormed(t) && WithinLimits(Parse(t)) && Scan(START, Render(t)) == TooDeep
  {
    hide Scan, Render, WellFormed, Nesting, Nested, Parse, Shadowing, WithinLimits;
    var v := Nested(MAX_JSON_DEPTH);
    NestedFacts(MAX_JSON_DEPTH);
    ShadowingParsed(v);
    SmallWithinLimits();
    TooDeepText(Shadowing(v));
  }

  lemma {:induction false} TooDeepText(t: Text)
    requires WellFormed(t) && Nesting(t) > MAX_JSON_DEPTH
    ensures Scan(START, Render(t)) == TooDeep
  {
    hide Scan, Render, WellFormed, Nesting;
    ScanText(0, t);
  }
}
