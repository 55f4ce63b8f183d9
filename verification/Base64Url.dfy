/**
 * Unpadded base64url, the printable form of token payloads, signatures and
 * salts (section 5 of RFC 4648).
 *
 * Main results: `RoundTrip`, decoding inverts encoding on every byte string,
 * `EncodedAlphabet`, encoded text never holds a separator; and `CanonicalExactly`,
 * which texts encoding gives back.
 */
module Base64Url {
  import opened Wrappers

  type byte = x: int | 0 <= x < 256
  type Bytes = seq<byte>

  function Letter(v: int): char
    requires 0 <= v < 64
  {
    if v < 26 then (65 + v) as char
    else if v < 52 then (71 + v) as char
    else if v < 62 then (v - 4) as char
    else if v == 62 then '-' else '_'
  }

  // The six bits of a character; the translated alphabet leaves '+' and '/' valid as well.
  function Sextet(c: char): (v: Option<int>)
    ensures v.Some? ==> 0 <= v.value < 64
  {
    if 'A' <= c <= 'Z' then Some(c as int - 65)
    else if 'a' <= c <= 'z' then Some(c as int - 71)
    else if '0' <= c <= '9' then Some(c as int + 4)
    else if c == '-' || c == '+' then Some(62)
    else if c == '_' || c == '/' then Some(63)
    else None
  }

  predicate UrlLetter(c: char) {
    'A' <= c <= 'Z' || 'a' <= c <= 'z' || '0' <= c <= '9' || c == '-' || c == '_'
  }

  lemma {:induction false} LetterSextet(v: int)
    requires 0 <= v < 64
    ensures Sextet(Letter(v)) == Some(v) && UrlLetter(Letter(v))
  {
  }

  /**
   * The letters are those of Table 2 of RFC 4648: capitals, small letters and
   * digits in their order, then '-' and '_'.
   */
  lemma {:induction false} LetterExactly(v: int)
    requires 0 <= v < 64
    ensures v < 26 ==> Letter(v) as int == 'A' as int + v
    ensures 26 <= v < 52 ==> Letter(v) as int == 'a' as int + (v - 26)
    ensures 52 <= v < 62 ==> Letter(v) as int == '0' as int + (v - 52)
    ensures Letter(62) == '-' && Letter(63) == '_'
  {
  }

  // ----- Encoding -----

  // The characters of 1, 2 or 3 bytes, without padding.
  function EncodeGroup(b: Bytes): (s: string)
    requires 1 <= |b| <= 3
    ensures |s| == |b| + 1
  {
    if |b| == 1 then [Letter(b[0] / 4), Letter(b[0] % 4 * 16)]
    else if |b| == 2 then
      [Letter(b[0] / 4), Letter(b[0] % 4 * 16 + b[1] / 16), Letter(b[1] % 16 * 4)]
    else
      [Letter(b[0] / 4), Letter(b[0] % 4 * 16 + b[1] / 16), Letter(b[1] % 16 * 4 + b[2] / 64), Letter(b[2] % 64)]
  }

  function Pad(n: nat): string {
    if n == 0 then [] else ['='] + Pad(n - 1)
  }

  function EncodePadded(b: Bytes): string {
    if |b| == 0 then []
    else if |b| < 3 then EncodeGroup(b) + Pad(3 - |b|)
    else EncodeGroup(b[..3]) + EncodePadded(b[3..])
  }

  function StripPadding(s: string): string {
    if s != [] && s[|s| - 1] == '=' then StripPadding(s[..|s| - 1]) else s
  }

  function Encode(b: Bytes): string {
    StripPadding(EncodePadded(b))
  }

  // ----- Decoding -----

  // The bytes that 2, 3 or 4 sextets hold, and the low bits no byte takes are ignored.
  function First(p: int, q: int): byte
    requires 0 <= p < 64 && 0 <= q < 64
  {
    p * 4 + q / 16
  }

  function Second(q: int, r: int): byte
    requires 0 <= q < 64 && 0 <= r < 64
  {
    q % 16 * 16 + r / 4
  }

  function Third(r: int, t: int): byte
    requires 0 <= r < 64 && 0 <= t < 64
  {
    r % 4 * 64 + t
  }

  function DecodeTwo(c0: char, c1: char): Option<Bytes> {
    var p, q := Sextet(c0), Sextet(c1);
    if p.None? || q.None? then None else Some([First(p.value, q.value)])
  }

  function DecodeThree(c0: char, c1: char, c2: char): Option<Bytes> {
    var p, q, r := Sextet(c0), Sextet(c1), Sextet(c2);
    if p.None? || q.None? || r.None? then None
    else Some([First(p.value, q.value), Second(q.value, r.value)])
  }

  function DecodeFour(c0: char, c1: char, c2: char, c3: char): Option<Bytes> {
    var p, q, r, t := Sextet(c0), Sextet(c1), Sextet(c2), Sextet(c3);
    if p.None? || q.None? || r.None? || t.None? then None
    else Some([First(p.value, q.value), Second(q.value, r.value), Third(r.value, t.value)])
  }

  // The strict decoder: whole groups of four, padding only to complete the last one.
  function DecodePadded(s: string): Option<Bytes> {
    if s == [] then Some([])
    else if |s| < 4 then None
    else if s[3] != '=' then
      var group, rest := DecodeFour(s[0], s[1], s[2], s[3]), DecodePadded(s[4..]);
      if group.None? || rest.None? then None else Some(group.value + rest.value)
    else if |s| > 4 then None
    else if s[2] == '=' then DecodeTwo(s[0], s[1])
    else DecodeThree(s[0], s[1], s[2])
  }

  function Decode(s: string): Option<Bytes> {
    DecodePadded(s + Pad(-|s| % 4))
  }

  // ----- Round trip -----

  predicate AllLetters(s: string) {
    forall i :: 0 <= i < |s| ==> UrlLetter(s[i])
  }

  // What EncodePadded appends.
  function Missing(n: nat): nat {
    if n % 3 == 0 then 0 else 3 - n % 3
  }

  // The encoded text before padding.
  function Body(b: Bytes): string {
    if |b| == 0 then []
    else if |b| < 3 then EncodeGroup(b)
    else EncodeGroup(b[..3]) + Body(b[3..])
  }

  lemma {:induction false} GroupLetters(b: Bytes)
    requires 1 <= |b| <= 3
    ensures AllLetters(EncodeGroup(b))
  {
    hide UrlLetter, Letter;
    forall v | 0 <= v < 64 ensures UrlLetter(Letter(v)) { LetterSextet(v); }
  }

  lemma {:induction false} MissingStep(n: nat)
    requires n >= 3
    ensures Missing(n) == Missing(n - 3)
  {
  }

  lemma {:induction false} PaddedIsBody(b: Bytes)
    ensures EncodePadded(b) == Body(b) + Pad(Missing(|b|))
  {
    hide EncodeGroup, Pad, Missing;
    FewMissing(|b|);
    if |b| == 0 {
      NoPad();
    } else if |b| >= 3 {
      PaddedIsBody(b[3..]);
      MissingStep(|b|);
      Assoc(EncodeGroup(b[..3]), Body(b[3..]), Pad(Missing(|b|)));
    }
  }

  lemma {:induction false} BodyLetters(b: Bytes)
    ensures AllLetters(Body(b))
  {
    hide EncodeGroup, UrlLetter;
    if 0 < |b| < 3 {
      GroupLetters(b);
    } else if |b| >= 3 {
      GroupLetters(b[..3]);
      BodyLetters(b[3..]);
    }
  }

  lemma {:induction false} FewMissing(n: nat)
    ensures n < 3 ==> Missing(n) == if n == 0 then 0 else 3 - n
  {
  }

  lemma {:induction false} NoPad()
    ensures Pad(0) == []
  {
  }

  lemma {:induction false} BodyGroups(b: Bytes, k: nat, m: nat)
    requires |b| == 3 * k + m && m < 3
    ensures |Body(b)| == 4 * k + (if m == 0 then 0 else m + 1)
  {
    if k > 0 { BodyGroups(b[3..], k - 1, m); }
  }

  // The decoder recomputes the padding from the length alone.
  lemma {:induction false} BodyLength(b: Bytes)
    ensures |Body(b)| == (4 * |b| + 2) / 3 && Missing(|b|) == -|Body(b)| % 4
  {
    hide Body;
    BodyGroups(b, |b| / 3, |b| % 3);
  }

  lemma {:induction false} StripPads(s: string, n: nat)
    requires AllLetters(s)
    ensures StripPadding(s + Pad(n)) == s
  {
    if n == 0 {
      assert s + Pad(0) == s;
    } else {
      PadSnoc(n);
      assert (s + Pad(n))[..|s + Pad(n)| - 1] == s + Pad(n - 1);
      StripPads(s, n - 1);
    }
  }

  lemma {:induction false} PadSnoc(n: nat)
    requires n > 0
    ensures Pad(n) == Pad(n - 1) + ['=']
  {
    if n > 1 { PadSnoc(n - 1); }
  }

  lemma {:induction false} EncodeIsBody(b: Bytes)
    ensures Encode(b) == Body(b)
  {
    PaddedIsBody(b);
    BodyLetters(b);
    StripPads(Body(b), Missing(|b|));
  }

  /**
   * Encoded text holds only letters, digits, '-' and '_', so no '.' and no
   * '$'; four characters stand for three bytes.
   */
  lemma {:induction false} EncodedAlphabet(b: Bytes)
    ensures AllLetters(Encode(b))
    ensures '.' !in Encode(b) && '$' !in Encode(b)
    ensures |Encode(b)| == (4 * |b| + 2) / 3
  {
    EncodeIsBody(b);
    BodyLetters(b);
    BodyLength(b);
  }

  // Splitting bytes into sextets and putting them together.
  lemma {:induction false} SextetsBack(x: byte, y: byte, z: byte)
    ensures First(x / 4, x % 4 * 16) == x && First(x / 4, x % 4 * 16 + y / 16) == x
    ensures Second(x % 4 * 16 + y / 16, y % 16 * 4) == y && Second(x % 4 * 16 + y / 16, y % 16 * 4 + z / 64) == y
    ensures Third(y % 16 * 4 + z / 64, z % 64) == z
  {
  }

  lemma {:induction false} TwoBack(x: byte)
    ensures var s := EncodeGroup([x]); DecodeTwo(s[0], s[1]) == Some([x])
  {
    hide Letter, Sextet, First;
    LetterSextet(x / 4);
    LetterSextet(x % 4 * 16);
    SextetsBack(x, 0, 0);
  }

  lemma {:induction false} ThreeBack(x: byte, y: byte)
    ensures var s := EncodeGroup([x, y]); DecodeThree(s[0], s[1], s[2]) == Some([x, y])
  {
    hide Letter, Sextet, First, Second;
    LetterSextet(x / 4);
    LetterSextet(x % 4 * 16 + y / 16);
    LetterSextet(y % 16 * 4);
    SextetsBack(x, y, 0);
  }

  // Four letters decode to the bytes of their sextets.
  lemma {:induction false} DecodesLetters(p: int, q: int, r: int, t: int)
    requires 0 <= p < 64 && 0 <= q < 64 && 0 <= r < 64 && 0 <= t < 64
    ensures DecodeFour(Letter(p), Letter(q), Letter(r), Letter(t)) == Some([First(p, q), Second(q, r), Third(r, t)])
  {
    hide Letter, Sextet, First, Second, Third;
    LetterSextet(p);
    LetterSextet(q);
    LetterSextet(r);
    LetterSextet(t);
  }

  lemma {:induction false} FourBack(x: byte, y: byte, z: byte)
    ensures var s := EncodeGroup([x, y, z]); DecodeFour(s[0], s[1], s[2], s[3]) == Some([x, y, z])
  {
    hide Letter, DecodeFour, First, Second, Third;
    DecodesLetters(x / 4, x % 4 * 16 + y / 16, y % 16 * 4 + z / 64, z % 64);
    SextetsBack(x, y, z);
  }

  lemma {:induction false} PaddedBack(b: Bytes)
    ensures DecodePadded(EncodePadded(b)) == Some(b)
  {
    hide Sextet, Letter, DecodeTwo, DecodeThree, DecodeFour, UrlLetter, EncodeGroup, Pad;
    if |b| == 1 {
      assert b == [b[0]];
      TwoBack(b[0]);
      ShortPads();
    } else if |b| == 2 {
      assert b == [b[0], b[1]];
      ThreeBack(b[0], b[1]);
      ShortPads();
      NoPadInGroup(b);
    } else if |b| >= 3 {
      assert b[..3] == [b[0], b[1], b[2]];
      FourBack(b[0], b[1], b[2]);
      NoPadInGroup(b[..3]);
      PaddedBack(b[3..]);
      GroupThen(b[..3], EncodePadded(b[3..]));
      assert b[..3] + b[3..] == b;
    }
  }

  lemma {:induction false} ShortPads()
    ensures Pad(1) == "=" && Pad(2) == "=="
  {
  }

  lemma {:induction false} NoPadInGroup(b: Bytes)
    requires 1 <= |b| <= 3
    ensures forall i :: 0 <= i < |EncodeGroup(b)| ==> EncodeGroup(b)[i] != '='
  {
    hide EncodeGroup, UrlLetter;
    GroupLetters(b);
    forall i | 0 <= i < |EncodeGroup(b)| ensures EncodeGroup(b)[i] != '=' { LetterNotPad(EncodeGroup(b)[i]); }
  }

  lemma {:induction false} GroupThen(b: Bytes, rest: string)
    requires |b| == 3
    ensures var s := EncodeGroup(b) + rest;
            |s| >= 4 && s[4..] == rest && forall i :: 0 <= i < 4 ==> s[i] == EncodeGroup(b)[i]
  {
  }

  lemma {:induction false} LetterNotPad(c: char)
    requires UrlLetter(c)
    ensures c != '='
  {
  }

  /** Decoding gives back every encoded byte string. */
  lemma {:induction false} RoundTrip(b: Bytes)
    ensures Decode(Encode(b)) == Some(b)
  {
    hide Encode, Body, EncodePadded, DecodePadded, Pad, Missing;
    EncodeIsBody(b);
    PaddedIsBody(b);
    BodyLength(b);
    PaddedBack(b);
  }

  // ----- Which texts are encodings -----

  // Url letters only, no length that fills no byte, and no bit set that no byte takes.
  predicate Canonical(s: string) {
    && AllLetters(s) && |s| % 4 != 1
    && (|s| % 4 == 2 ==> Value(s[|s| - 1]) % 16 == 0)
    && (|s| % 4 == 3 ==> Value(s[|s| - 1]) % 4 == 0)
  }

  function Value(c: char): (v: int)
    requires UrlLetter(c)
    ensures 0 <= v < 64 && Sextet(c) == Some(v)
  {
    Sextet(c).value
  }

  lemma {:induction false} LetterOfValue(c: char)
    requires UrlLetter(c)
    ensures Letter(Value(c)) == c && c != '='
  {
  }

  // Putting sextets together and splitting the bytes again.
  lemma {:induction false} BytesBack(p: int, q: int, r: int, t: int)
    requires 0 <= p < 64 && 0 <= q < 64 && 0 <= r < 64 && 0 <= t < 64
    ensures First(p, q) / 4 == p && First(p, q) % 4 * 16 + Second(q, r) / 16 == q
    ensures Second(q, r) % 16 * 4 + Third(r, t) / 64 == r && Third(r, t) % 64 == t
    ensures q % 16 == 0 ==> First(p, q) % 4 * 16 == q
    ensures r % 4 == 0 ==> Second(q, r) % 16 * 4 == r
  {
  }

  lemma {:induction false} TwoLetters(c0: char, c1: char)
    requires UrlLetter(c0) && UrlLetter(c1) && Value(c1) % 16 == 0
    ensures DecodeTwo(c0, c1).Some? && |DecodeTwo(c0, c1).value| == 1
    ensures EncodeGroup(DecodeTwo(c0, c1).value) == [c0, c1]
  {
    hide Letter, Sextet, First, Value, UrlLetter;
    LetterOfValue(c0);
    LetterOfValue(c1);
    BytesBack(Value(c0), Value(c1), 0, 0);
  }

  lemma {:induction false} ThreeLetters(c0: char, c1: char, c2: char)
    requires UrlLetter(c0) && UrlLetter(c1) && UrlLetter(c2) && Value(c2) % 4 == 0
    ensures DecodeThree(c0, c1, c2).Some? && |DecodeThree(c0, c1, c2).value| == 2
    ensures EncodeGroup(DecodeThree(c0, c1, c2).value) == [c0, c1, c2]
  {
    hide Letter, Sextet, First, Second, Value, UrlLetter;
    LetterOfValue(c0);
    LetterOfValue(c1);
    LetterOfValue(c2);
    BytesBack(Value(c0), Value(c1), Value(c2), 0);
  }

  lemma {:induction false} FourLetters(c0: char, c1: char, c2: char, c3: char)
    requires UrlLetter(c0) && UrlLetter(c1) && UrlLetter(c2) && UrlLetter(c3)
    ensures DecodeFour(c0, c1, c2, c3).Some? && |DecodeFour(c0, c1, c2, c3).value| == 3
    ensures EncodeGroup(DecodeFour(c0, c1, c2, c3).value) == [c0, c1, c2, c3]
  {
    hide Letter, Sextet, First, Second, Third, Value, UrlLetter;
    LetterOfValue(c0);
    LetterOfValue(c1);
    LetterOfValue(c2);
    LetterOfValue(c3);
    BytesBack(Value(c0), Value(c1), Value(c2), Value(c3));
  }

  lemma {:induction false} CanonicalRest(s: string)
    requires |s| >= 4
    ensures Canonical(s) <==> AllLetters(s[..4]) && Canonical(s[4..])
  {
    hide UrlLetter, Value;
    var rest := s[4..];
    assert forall i :: 0 <= i < 4 ==> s[..4][i] == s[i];
    assert forall i :: 0 <= i < |rest| ==> rest[i] == s[i + 4];
    assert forall i :: 4 <= i < |s| ==> s[i] == rest[i - 4];
  }

  // A canonical text decodes, and its bytes encode to it.
  lemma {:induction false} CanonicalBack(s: string) returns (b: Bytes)
    requires Canonical(s)
    ensures DecodePadded(s + Pad(-|s| % 4)) == Some(b) && Body(b) == s
    decreases |s|, 1
  {
    hide UrlLetter, Value, Sextet, DecodeTwo, DecodeThree, DecodeFour, EncodeGroup, Pad;
    ShortPads();
    NoPad();
    if |s| == 0 {
      b := [];
    } else if |s| == 2 {
      TwoLetters(s[0], s[1]);
      b := DecodeTwo(s[0], s[1]).value;
      assert s + "==" == [s[0], s[1], '=', '='] && s == [s[0], s[1]];
    } else if |s| == 3 {
      ThreeLetters(s[0], s[1], s[2]);
      LetterOfValue(s[2]);
      b := DecodeThree(s[0], s[1], s[2]).value;
      assert s + "=" == [s[0], s[1], s[2], '='] && s == [s[0], s[1], s[2]];
    } else {
      b := CanonicalGroup(s);
    }
  }

  lemma {:induction false} CanonicalGroup(s: string) returns (b: Bytes)
    requires Canonical(s) && |s| >= 4
    ensures DecodePadded(s + Pad(-|s| % 4)) == Some(b) && Body(b) == s
    decreases |s|, 0
  {
    hide UrlLetter, Value, Sextet, DecodeFour, EncodeGroup, Pad, Canonical, DecodePadded, Body;
    CanonicalRest(s);
    assert forall i :: 0 <= i < 4 ==> s[..4][i] == s[i];
    FourLetters(s[0], s[1], s[2], s[3]);
    LetterOfValue(s[3]);
    var rest := CanonicalBack(s[4..]);
    var group := DecodeFour(s[0], s[1], s[2], s[3]).value;
    assert s[..4] == [s[0], s[1], s[2], s[3]];
    assert -|s| % 4 == -|s[4..]| % 4;
    DecodesGroup(s, Pad(-|s| % 4), group, rest);
    b := group + rest;
  }

  lemma {:induction false} DecodesGroup(s: string, pad: string, group: Bytes, rest: Bytes)
    requires |s| >= 4 && s[3] != '=' && DecodeFour(s[0], s[1], s[2], s[3]) == Some(group)
    requires |group| == 3 && EncodeGroup(group) == s[..4]
    requires DecodePadded(s[4..] + pad) == Some(rest) && Body(rest) == s[4..]
    ensures DecodePadded(s + pad) == Some(group + rest) && Body(group + rest) == s
  {
    hide DecodeFour, EncodeGroup;
    assert (s + pad)[4..] == s[4..] + pad;
    assert (group + rest)[..3] == group && (group + rest)[3..] == rest;
  }

  // Encoded text is canonical.
  lemma {:induction false} BodyCanonical(b: Bytes)
    ensures Canonical(Body(b))
  {
    hide UrlLetter, Letter, Value, EncodeGroup;
    BodyLetters(b);
    if |b| == 1 {
      LastOfTwo(b);
    } else if |b| == 2 {
      LastOfThree(b);
    } else if |b| >= 3 {
      BodyCanonical(b[3..]);
      var s := Body(b);
      assert s[4..] == Body(b[3..]);
      assert AllLetters(s[..4]);
      CanonicalRest(s);
    }
  }

  lemma {:induction false} LastOfTwo(b: Bytes)
    requires |b| == 1 && AllLetters(EncodeGroup(b))
    ensures Value(EncodeGroup(b)[1]) % 16 == 0
  {
    hide Letter, UrlLetter, Sextet;
    LetterSextet(b[0] % 4 * 16);
  }

  lemma {:induction false} LastOfThree(b: Bytes)
    requires |b| == 2 && AllLetters(EncodeGroup(b))
    ensures Value(EncodeGroup(b)[2]) % 4 == 0
  {
    hide Letter, UrlLetter, Sextet;
    LetterSextet(b[1] % 16 * 4);
  }

  /**
   * Decoding is not injective; this is exactly where encoding gives a text back:
   * where it has only url letters, a length that fills bytes, and no unused bit
   * set.  So among all texts that decode alike exactly one is canonical.
   */
  lemma {:induction false} CanonicalExactly(s: string)
    ensures Canonical(s) <==> Decode(s).Some? && Encode(Decode(s).value) == s
  {
    hide Canonical, DecodePadded, Encode, Body, Pad;
    if Canonical(s) {
      var b := CanonicalBack(s);
      EncodeIsBody(b);
    }
    if Decode(s).Some? {
      EncodeIsBody(Decode(s).value);
      BodyCanonical(Decode(s).value);
    }
  }

  /** Unused low bits and the second alphabet give one byte string several texts. */
  lemma {:induction false} SeveralTextsDecodeAlike()
    ensures Decode("-w") == Decode("-x") == Decode("+w") == Some([251])
    ensures Canonical("-w") && !Canonical("-x") && !Canonical("+w")
  {
    DecodesShort("-w");
    DecodesShort("-x");
    DecodesShort("+w");
  }

  lemma {:induction false} DecodesShort(s: string)
    requires |s| == 2
    ensures Decode(s) == DecodeTwo(s[0], s[1])
  {
    hide DecodeTwo;
    ShortPads();
    assert s + "==" == [s[0], s[1], '=', '='];
  }
}
