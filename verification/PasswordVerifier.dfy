/**
 * Password verifier strings: scheme, iterations, salt and digest joined by '$'.
 *
 * Main result: `GeneratedVerifier`, what a generated verifier accepts: exactly
 * the passwords with the same digest, and none at all unless the salt has 8 to
 * 64 bytes.
 */
module PasswordVerifier {
  import opened Wrappers
  import opened Base64Url
  import opened Numerals
  import opened Splitting

  const PASSWORD_SCHEME := "pbkdf2_sha256"
  const MIN_PASSWORD_ITERATIONS := 200_000
  const MAX_PASSWORD_ITERATIONS := 2_000_000
  const DIGEST_SIZE := 32

  // The key derivation, of a password, a salt and an iteration count.
  type Kdf = (string, Bytes, int) -> Bytes

  // ----- Generating and verifying -----

  datatype Generated = Verifier(encoded: string) | ValueError

  // `salt or secrets.token_bytes(16)`.
  function ActualSalt(salt: Option<Bytes>, random: Bytes): Bytes {
    if salt.Some? && salt.value != [] then salt.value else random
  }

  function GeneratePasswordHash(kdf: Kdf, password: string, iterations: int, salt: Option<Bytes>,
                                random: Bytes): Generated {
    if password == [] then ValueError
    else if !(MIN_PASSWORD_ITERATIONS <= iterations <= MAX_PASSWORD_ITERATIONS) then ValueError
    else
      var actual := ActualSalt(salt, random);
      var digest := kdf(password, actual, iterations);
      Verifier(Join([PASSWORD_SCHEME, Decimal(iterations), Encode(actual), Encode(digest)], '$'))
  }

  predicate VerifyPassword(kdf: Kdf, password: string, encoded: string) {
    var parts := SplitMax(encoded, '$', 3);
    if |parts| != 4 then false
    else
      var iterations := ReadInt(parts[1]);
      if iterations.None? || parts[0] != PASSWORD_SCHEME then false
      else if !(MIN_PASSWORD_ITERATIONS <= iterations.value <= MAX_PASSWORD_ITERATIONS) then false
      else
        var salt, expected := Decode(parts[2]), Decode(parts[3]);
        if salt.None? || expected.None? then false
        else if !(8 <= |salt.value| <= 64) || |expected.value| != DIGEST_SIZE then false
        else kdf(password, salt.value, iterations.value) == expected.value
  }

  /**
   * A verifier generated for a password accepts exactly the passwords with its
   * digest when the salt used has 8 to 64 bytes, and nothing otherwise.
   */
  lemma {:induction false} GeneratedVerifier(
    kdf: Kdf, password: string, iterations: int, salt: Option<Bytes>, random: Bytes, tried: string)
    requires GeneratePasswordHash(kdf, password, iterations, salt, random).Verifier?
    requires |kdf(password, if salt in {None, Some([])} then random else salt.value, iterations)| == 32
    ensures var used := if salt in {None, Some([])} then random else salt.value;
            var encoded := GeneratePasswordHash(kdf, password, iterations, salt, random).encoded;
            VerifyPassword(kdf, tried, encoded) ==
            (8 <= |used| <= 64 && kdf(tried, used, iterations) == kdf(password, used, iterations))
  {
    hide SplitMax, Decode, Encode, ReadInt, Decimal, Join;
    var used := ActualSalt(salt, random);
    var digest := kdf(password, used, iterations);
    var parts := [PASSWORD_SCHEME, Decimal(iterations), Encode(used), Encode(digest)];
    DecimalRoundTrip(iterations);
    EncodedAlphabet(used);
    EncodedAlphabet(digest);
    RoundTrip(used);
    RoundTrip(digest);
    SchemePlain();
    SplitJoined(parts, '$', 3);
  }

  lemma {:induction false} SchemePlain()
    ensures '$' !in PASSWORD_SCHEME
  {
  }

  /**
   * What any verifier text accepts: only texts of four parts, the scheme, an
   * iteration count in range, a salt of 8 to 64 bytes and a digest of 32, and of
   * these exactly where the password's digest is the one given.
   */
  lemma {:induction false} VerifyExactly(kdf: Kdf, password: string, count: string, salt: string, digest: string)
    requires '$' !in count && '$' !in salt
    ensures VerifyPassword(kdf, password, "pbkdf2_sha256$" + (count + ("$" + (salt + ("$" + digest))))) <==>
            && ReadInt(count).Some? && 200_000 <= ReadInt(count).value <= 2_000_000
            && Decode(salt).Some? && 8 <= |Decode(salt).value| <= 64
            && Decode(digest).Some? && |Decode(digest).value| == 32
            && kdf(password, Decode(salt).value, ReadInt(count).value) == Decode(digest).value
  {
    hide SplitMax, Decode, ReadInt;
    SchemePlain();
    SplitOne("pbkdf2_sha256", count + ("$" + (salt + ("$" + digest))), '$', 3);
    SplitOne(count, salt + ("$" + digest), '$', 2);
    SplitOne(salt, digest, '$', 1);
    SplitRest(digest);
    assert "pbkdf2_sha256" + ("$" + (count + ("$" + (salt + ("$" + digest))))) ==
           "pbkdf2_sha256$" + (count + ("$" + (salt + ("$" + digest))));
  }

  lemma {:induction false} SplitRest(text: string)
    ensures SplitMax(text, '$', 0) == [text]
  {
  }

  lemma {:induction false} AcceptedForm(kdf: Kdf, password: string, encoded: string)
    returns (count: string, salt: string, digest: string)
    requires VerifyPassword(kdf, password, encoded)
    ensures encoded == "pbkdf2_sha256$" + (count + ("$" + (salt + ("$" + digest))))
    ensures '$' !in count && '$' !in salt
  {
    hide SplitMax, Decode, ReadInt;
    var parts := SplitMax(encoded, '$', 3);
    JoinedSplit(encoded, '$', 3);
    count, salt, digest := parts[1], parts[2], parts[3];
    assert parts == ["pbkdf2_sha256", count, salt, digest];
    JoinFour("pbkdf2_sha256", count, salt, digest);
    assert "pbkdf2_sha256" + ("$" + (count + ("$" + (salt + ("$" + digest))))) ==
           "pbkdf2_sha256$" + (count + ("$" + (salt + ("$" + digest))));
  }

  lemma {:induction false} JoinFour(a: string, b: string, c: string, d: string)
    ensures Join([a, b, c, d], '$') == a + ("$" + (b + ("$" + (c + ("$" + d)))))
  {
    assert [a, b, c, d][1..] == [b, c, d] && [b, c, d][1..] == [c, d] && [c, d][1..] == [d];
    assert Join([d], '$') == d;
    assert Join([c, d], '$') == c + ("$" + d);
    assert Join([b, c, d], '$') == b + ("$" + (c + ("$" + d)));
  }

  /** Its own password, in particular, is accepted exactly for salts of 8 to 64 bytes. */
  lemma {:induction false} OwnPasswordAccepted(kdf: Kdf, password: string, iterations: int, salt: Option<Bytes>,
                                               random: Bytes)
    requires |kdf(password, if salt in {None, Some([])} then random else salt.value, iterations)| == 32
    ensures var g := GeneratePasswordHash(kdf, password, iterations, salt, random);
            && (g.Verifier? <==> password != "" && 200_000 <= iterations <= 2_000_000)
            && (g.Verifier? ==>
                  && (VerifyPassword(kdf, password, g.encoded) <==>
                      8 <= |if salt in {None, Some([])} then random else salt.value| <= 64)
                  && "pbkdf2_sha256$" <= g.encoded)
  {
    hide SplitMax, Decode, Encode, ReadInt, Decimal, VerifyPassword;
    if GeneratePasswordHash(kdf, password, iterations, salt, random).Verifier? {
      GeneratedVerifier(kdf, password, iterations, salt, random, password);
    }
  }
}
