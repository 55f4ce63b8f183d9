/**
 * Which address a request is attributed to: the bounded right split of the
 * forwarding headers and the walk from the hop nearest the proxy.
 *
 * Main results: `PrefixesIgnoredExactly` and `ForwardedPrefixesIgnoredExactly`,
 * when text put in front of a header can change the source, and
 * `HeadersIgnoredExactly`.
 */
module ClientIdentity {
  import opened Wrappers
  import opened Splitting

  const MAX_FORWARDED_HOPS := 16
  const UNKNOWN_SOURCE := "unknown"

  // `norm` gives the canonical address of a text, or "" when it is none;
  // `forHop` the address of a "for=" directive, or "" for any other directive.
  datatype Reader = Reader(norm: string -> string, forHop: string -> string, networks: seq<iset<string>>)

  predicate IsTrusted(r: Reader, candidate: string) {
    candidate != "" && exists i :: 0 <= i < |r.networks| && candidate in r.networks[i]
  }

  predicate UntrustedHop(r: Reader, hop: string) {
    hop != "" && !IsTrusted(r, hop)
  }

  // ----- The chain a header reports -----

  function Kept(hop: string): seq<string> {
    if hop == "" then [] else [hop]
  }

  // The addresses `read` finds in the texts, in order.
  function Hops(read: string -> string, texts: seq<string>): seq<string> {
    if texts == [] then [] else Kept(read(texts[0])) + Hops(read, texts[1..])
  }

  // The elements of a comma-separated header that are looked at.
  function Window(text: string): seq<string> {
    Last(Split(text, ','), MAX_FORWARDED_HOPS)
  }

  /** The last 16 elements of the header, or all of fewer. */
  lemma {:induction false} WindowExactly(text: string)
    ensures |Window(text)| == if |Split(text, ',')| < 16 then |Split(text, ',')| else 16
    ensures Window(text) == Split(text, ',')[|Split(text, ',')| - |Window(text)|..]
  {
    hide Split;
  }

  // The "for=" directives of each element.
  function DirectiveHops(r: Reader, elements: seq<string>): seq<string> {
    if elements == [] then [] else Hops(r.forHop, Split(elements[0], ';')) + DirectiveHops(r, elements[1..])
  }

  function Chain(r: Reader, xForwardedFor: string, forwarded: string): seq<string> {
    var chain := Hops(r.norm, Window(xForwardedFor));
    if chain != [] then chain else DirectiveHops(r, Window(forwarded))
  }

  // parts[-MAX_FORWARDED_HOPS:] of the bounded right split.
  method Elements(text: string) returns (elements: seq<string>)
    ensures elements == Window(text)
  {
    elements := Last(RightSplitMax(text, ',', MAX_FORWARDED_HOPS), MAX_FORWARDED_HOPS);
    RightSplitKeepsLast(text, ',', MAX_FORWARDED_HOPS);
  }

  method CollectDirectives(r: Reader, collected: seq<string>, element: string) returns (more: seq<string>)
    ensures more == collected + Hops(r.forHop, Split(element, ';'))
  {
    hide Split;
    var directives := Split(element, ';');
    more := collected;
    for i := 0 to |directives|
      invariant more + Hops(r.forHop, directives[i..]) == collected + Hops(r.forHop, directives)
    {
      var candidate := r.forHop(directives[i]);
      assert directives[i..][1..] == directives[i + 1..];
      Assoc(more, Kept(candidate), Hops(r.forHop, directives[i + 1..]));
      if candidate != "" {
        more := more + [candidate];
      } else {
        assert more + [] == more;
      }
    }
    assert directives[|directives|..] == [];
    assert more + [] == more;
  }

  method ForwardedCandidates(r: Reader, xForwardedFor: string, forwarded: string) returns (chain: seq<string>)
    ensures chain == Chain(r, xForwardedFor, forwarded)
  {
    hide Split, Window, Hops;
    var parts := Elements(xForwardedFor);
    chain := Hops(r.norm, parts);
    if chain != [] { return; }
    var elements := Elements(forwarded);
    for e := 0 to |elements|
      invariant chain + DirectiveHops(r, elements[e..]) == DirectiveHops(r, elements)
    {
      assert elements[e..][1..] == elements[e + 1..];
      Assoc(chain, Hops(r.forHop, Split(elements[e], ';')), DirectiveHops(r, elements[e + 1..]));
      chain := CollectDirectives(r, chain, elements[e]);
    }
    assert elements[|elements|..] == [];
    assert chain + [] == chain;
  }

  // ----- The source -----

  function RightmostUntrusted(r: Reader, chain: seq<string>): Option<string> {
    if chain == [] then None
    else if !IsTrusted(r, chain[|chain| - 1]) then Some(chain[|chain| - 1])
    else RightmostUntrusted(r, chain[..|chain| - 1])
  }

  function SourceOf(r: Reader, peerHost: string, chain: seq<string>): string {
    var peer := r.norm(peerHost);
    var own := if peer == "" then UNKNOWN_SOURCE else peer;
    match if IsTrusted(r, peer) then RightmostUntrusted(r, chain) else None
    case Some(hop) => hop
    case None => own
  }

  // ----- Which addresses a header reports -----

  // Where the addresses were read: at `at`, in order, and nothing was read elsewhere.
  predicate ReadFrom(hops: seq<string>, read: string -> string, texts: seq<string>, at: seq<nat>) {
    && |at| == |hops|
    && (forall k :: 0 <= k < |at| ==> at[k] < |texts| && read(texts[at[k]]) == hops[k] != "")
    && (forall j, k :: 0 <= j < k < |at| ==> at[j] < at[k])
    && (forall i :: 0 <= i < |texts| && read(texts[i]) != "" ==> i in at)
  }

  lemma {:induction false} ReadFromNext(hops: seq<string>, read: string -> string, texts: seq<string>, at: seq<nat>,
                                        last: string)
    requires ReadFrom(hops, read, texts, at)
    ensures read(last) == "" ==> ReadFrom(hops, read, texts + [last], at)
    ensures read(last) != "" ==> ReadFrom(hops + [read(last)], read, texts + [last], at + [|texts|])
  {
    var more := texts + [last];
    assert more[|texts|] == last && forall i :: 0 <= i < |texts| ==> more[i] == texts[i];
  }

  lemma {:induction false} HopsNext(read: string -> string, texts: seq<string>, at: seq<nat>, last: string)
    requires ReadFrom(Hops(read, texts), read, texts, at)
    ensures ReadFrom(Hops(read, texts + [last]), read, texts + [last], if read(last) == "" then at else at + [|texts|])
  {
    hide ReadFrom, Hops;
    var more := texts + [last];
    HopsLast(read, more);
    assert more[..|more| - 1] == texts && more[|more| - 1] == last;
    ReadFromNext(Hops(read, texts), read, texts, at, last);
  }

  lemma {:induction false} NoTexts(read: string -> string)
    ensures ReadFrom(Hops(read, []), read, [], [])
  {
  }

  /** The hops are exactly the non-empty readings of the texts, in their order. */
  lemma {:induction false} HopsExactly(read: string -> string, texts: seq<string>) returns (at: seq<nat>)
    ensures ReadFrom(Hops(read, texts), read, texts, at)
  {
    hide ReadFrom, Hops;
    if texts == [] {
      NoTexts(read);
      at := [];
    } else {
      var init, last := texts[..|texts| - 1], texts[|texts| - 1];
      var before := HopsExactly(read, init);
      HopsNext(read, init, before, last);
      assert init + [last] == texts;
      at := if read(last) == "" then before else before + [|init|];
    }
  }

  lemma {:induction false} NothingRead(read: string -> string, texts: seq<string>)
    requires forall i :: 0 <= i < |texts| ==> read(texts[i]) == ""
    ensures Hops(read, texts) == []
  {
    if texts != [] { NothingRead(read, texts[1..]); }
  }

  lemma {:induction false} HopsLast(read: string -> string, texts: seq<string>)
    requires texts != []
    ensures var init, hop := Hops(read, texts[..|texts| - 1]), read(texts[|texts| - 1]);
            Hops(read, texts) == if hop == "" then init else init + [hop]
  {
    var init, last := texts[..|texts| - 1], texts[|texts| - 1];
    assert texts == init + [last];
    HopsConcat(read, init, [last]);
    assert [last][1..] == [] && Hops(read, []) == [];
    assert Hops(read, [last]) == Kept(read(last));
  }

  // Every "for=" directive looked at.
  function Directives(elements: seq<string>): seq<string> {
    if elements == [] then [] else Split(elements[0], ';') + Directives(elements[1..])
  }

  lemma {:induction false} DirectivesAre(r: Reader, elements: seq<string>)
    ensures DirectiveHops(r, elements) == Hops(r.forHop, Directives(elements))
  {
    hide Split;
    if elements != [] {
      DirectivesAre(r, elements[1..]);
      HopsConcat(r.forHop, Split(elements[0], ';'), Directives(elements[1..]));
    }
  }

  /**
   * The chain: the addresses of the window of X-Forwarded-For, or where it reports
   * none, those of the directives in the window of Forwarded; in order, and
   * none of them empty.
   */
  lemma {:induction false} ChainExactly(r: Reader, xForwardedFor: string, forwarded: string) returns (at: seq<nat>)
    ensures var chain := Chain(r, xForwardedFor, forwarded);
            if exists i :: 0 <= i < |Window(xForwardedFor)| && r.norm(Window(xForwardedFor)[i]) != ""
            then ReadFrom(chain, r.norm, Window(xForwardedFor), at)
            else ReadFrom(chain, r.forHop, Directives(Window(forwarded)), at)
    ensures forall i :: 0 <= i < |Chain(r, xForwardedFor, forwarded)| ==> Chain(r, xForwardedFor, forwarded)[i] != ""
  {
    hide Window, Hops, DirectiveHops, Directives, ReadFrom;
    var own := HopsExactly(r.norm, Window(xForwardedFor));
    var others := HopsExactly(r.forHop, Directives(Window(forwarded)));
    DirectivesAre(r, Window(forwarded));
    if exists i :: 0 <= i < |Window(xForwardedFor)| && r.norm(Window(xForwardedFor)[i]) != "" {
      SomethingRead(Hops(r.norm, Window(xForwardedFor)), r.norm, Window(xForwardedFor), own);
      at := own;
    } else {
      NothingRead(r.norm, Window(xForwardedFor));
      at := others;
    }
    NoneEmpty(Hops(r.norm, Window(xForwardedFor)), r.norm, Window(xForwardedFor), own);
    NoneEmpty(Hops(r.forHop, Directives(Window(forwarded))), r.forHop, Directives(Window(forwarded)), others);
  }

  lemma {:induction false} SomethingRead(hops: seq<string>, read: string -> string, texts: seq<string>, at: seq<nat>)
    requires ReadFrom(hops, read, texts, at) && exists i :: 0 <= i < |texts| && read(texts[i]) != ""
    ensures hops != []
  {
  }

  lemma {:induction false} NoneEmpty(hops: seq<string>, read: string -> string, texts: seq<string>, at: seq<nat>)
    requires ReadFrom(hops, read, texts, at)
    ensures forall k :: 0 <= k < |hops| ==> hops[k] != ""
  {
  }

  /** The address answered for: the rightmost hop no configured network contains, behind a trusted peer only. */
  method ResolveClient(r: Reader, peerHost: string, xForwardedFor: string, forwarded: string)
    returns (source: string, peer: string, chain: seq<string>, proxyTrusted: bool)
    ensures chain == Chain(r, xForwardedFor, forwarded) && proxyTrusted == IsTrusted(r, r.norm(peerHost))
    ensures peer == (if r.norm(peerHost) == "" then UNKNOWN_SOURCE else r.norm(peerHost))
    ensures source == SourceOf(r, peerHost, chain)
    ensures proxyTrusted && (exists i :: 0 <= i < |chain| && !IsTrusted(r, chain[i])) ==>
      exists i :: 0 <= i < |chain| && source == chain[i] && !IsTrusted(r, chain[i])
                  && forall j :: i < j < |chain| ==> IsTrusted(r, chain[j])
    ensures !proxyTrusted || (forall i :: 0 <= i < |chain| ==> IsTrusted(r, chain[i])) ==> source == peer
    ensures proxyTrusted <==>
      r.norm(peerHost) != "" && exists i :: 0 <= i < |r.networks| && r.norm(peerHost) in r.networks[i]
    ensures source != "" && forall i :: 0 <= i < |chain| ==> chain[i] != ""
    ensures source != peer ==> proxyTrusted && source in chain
    ensures Silent(r, xForwardedFor, forwarded) ==> chain == [] && source == peer
  {
    hide Chain, IsTrusted, Window, Split, Silent, ReadFrom, Directives;
    ghost var at := ChainExactly(r, xForwardedFor, forwarded);
    if Silent(r, xForwardedFor, forwarded) { NoChain(r, xForwardedFor, forwarded); }
    TrustedMeans(r, r.norm(peerHost));
    var peerIp := r.norm(peerHost);
    chain := ForwardedCandidates(r, xForwardedFor, forwarded);
    proxyTrusted := IsTrusted(r, peerIp);
    source := if peerIp == "" then UNKNOWN_SOURCE else peerIp;
    peer := source;
    if proxyTrusted && chain != [] {
      var n := |chain|;
      assert chain[..n] == chain;
      while n > 0
        invariant 0 <= n <= |chain|
        invariant source == peer
        invariant forall j :: n <= j < |chain| ==> IsTrusted(r, chain[j])
        invariant RightmostUntrusted(r, chain[..n]) == RightmostUntrusted(r, chain)
      {
        var candidate := chain[n - 1];
        assert chain[..n][..n - 1] == chain[..n - 1];
        if !IsTrusted(r, candidate) {
          source := candidate;
          break;
        }
        n := n - 1;
      }
    }
  }

  lemma {:induction false} TrustedMeans(r: Reader, candidate: string)
    ensures IsTrusted(r, candidate) <==>
            candidate != "" && exists i :: 0 <= i < |r.networks| && candidate in r.networks[i]
  {
  }

  // No element of either window names an address.
  ghost predicate Silent(r: Reader, xForwardedFor: string, forwarded: string) {
    && (forall i :: 0 <= i < |Window(xForwardedFor)| ==> r.norm(Window(xForwardedFor)[i]) == "")
    && (forall e, d :: e in Window(forwarded) && d in Split(e, ';') ==> r.forHop(d) == "")
  }

  lemma {:induction false} NoChain(r: Reader, xForwardedFor: string, forwarded: string)
    requires Silent(r, xForwardedFor, forwarded)
    ensures Chain(r, xForwardedFor, forwarded) == []
  {
    hide Window, Split;
    NothingRead(r.norm, Window(xForwardedFor));
    NoDirectives(r, Window(forwarded));
  }

  lemma {:induction false} NoDirectives(r: Reader, elements: seq<string>)
    requires forall e, d :: e in elements && d in Split(e, ';') ==> r.forHop(d) == ""
    ensures DirectiveHops(r, elements) == []
  {
    hide Split;
    if elements != [] {
      NothingRead(r.forHop, Split(elements[0], ';'));
      NoDirectives(r, elements[1..]);
    }
  }

  // ----- Text put in front of the header -----

  lemma {:induction false} HopsConcat(read: string -> string, a: seq<string>, b: seq<string>)
    ensures Hops(read, a + b) == Hops(read, a) + Hops(read, b)
  {
    if a == [] {
      assert a + b == b;
    } else {
      assert (a + b)[1..] == a[1..] + b;
      HopsConcat(read, a[1..], b);
      Assoc(Kept(read(a[0])), Hops(read, a[1..]), Hops(read, b));
    }
  }

  lemma {:induction false} RightmostConcat(r: Reader, a: seq<string>, b: seq<string>)
    ensures RightmostUntrusted(r, a + b) ==
            if RightmostUntrusted(r, b).Some? then RightmostUntrusted(r, b) else RightmostUntrusted(r, a)
  {
    if b == [] {
      assert a + b == a;
    } else {
      assert (a + b)[..|a + b| - 1] == a + b[..|b| - 1];
      RightmostConcat(r, a, b[..|b| - 1]);
    }
  }

  lemma {:induction false} WindowAfter(prefix: string, text: string)
    ensures var k := |Split(text, ',')|;
            && (k >= MAX_FORWARDED_HOPS ==> Window(prefix + ([','] + text)) == Window(text))
            && (k < MAX_FORWARDED_HOPS ==> Window(text) == Split(text, ','))
            && (k < MAX_FORWARDED_HOPS ==>
                Window(prefix + ([','] + text)) == Last(Split(prefix, ','), MAX_FORWARDED_HOPS - k) + Split(text, ','))
  {
    hide Split;
    SplitAfter(prefix, text, ',');
  }

  // A hop in the window that is no trusted proxy.
  predicate WindowHasUntrusted(r: Reader, text: string) {
    RightmostUntrusted(r, Hops(r.norm, Window(text))).Some?
  }

  /** With an untrusted hop in the window, or a full window, nothing put in front of the header changes the source. */
  lemma {:induction false} PrefixIgnored(r: Reader, peerHost: string, prefix: string, text: string, forwarded: string)
    requires !IsTrusted(r, r.norm(peerHost)) || WindowHasUntrusted(r, text) || |Split(text, ',')| >= MAX_FORWARDED_HOPS
    ensures SourceOf(r, peerHost, Chain(r, prefix + ([','] + text), forwarded)) ==
            SourceOf(r, peerHost, Chain(r, text, forwarded))
  {
    hide Window, Split, Hops;
    var k := |Split(text, ',')|;
    WindowAfter(prefix, text);
    if IsTrusted(r, r.norm(peerHost)) && k < MAX_FORWARDED_HOPS {
      var front := Last(Split(prefix, ','), MAX_FORWARDED_HOPS - k);
      HopsConcat(r.norm, front, Split(text, ','));
      RightmostConcat(r, Hops(r.norm, front), Hops(r.norm, Window(text)));
    }
  }

  // Otherwise one address put in front is the new source.
  lemma {:induction false} PrefixDecides(r: Reader, peerHost: string, hop: string, text: string, forwarded: string)
    requires IsTrusted(r, r.norm(peerHost)) && !WindowHasUntrusted(r, text) && |Split(text, ',')| < MAX_FORWARDED_HOPS
    requires ',' !in hop && UntrustedHop(r, r.norm(hop))
    ensures SourceOf(r, peerHost, Chain(r, hop + ([','] + text), forwarded)) == r.norm(hop)
  {
    hide Window, Split, IsTrusted;
    var k := |Split(text, ',')|;
    WindowAfter(hop, text);
    NoComma(hop);
    HopsConcat(r.norm, [hop], Split(text, ','));
    OneHop(r, hop);
    RightmostConcat(r, [r.norm(hop)], Hops(r.norm, Window(text)));
    OnlyHop(r, r.norm(hop));
  }

  lemma {:induction false} OneHop(r: Reader, hop: string)
    requires r.norm(hop) != ""
    ensures Hops(r.norm, [hop]) == [r.norm(hop)]
  {
    assert [hop][1..] == [];
    assert Hops(r.norm, []) == [];
  }

  lemma {:induction false} OnlyHop(r: Reader, hop: string)
    requires !IsTrusted(r, hop)
    ensures RightmostUntrusted(r, [hop]) == Some(hop)
  {
  }

  lemma {:induction false} NoComma(text: string)
    requires ',' !in text
    ensures Split(text, ',') == [text]
  {
    if text != [] {
      NoComma(text[1..]);
      assert [text[0]] + text[1..] == text;
    }
  }

  /**
   * The source is out of reach of whoever writes the left part of the header
   * exactly when the peer is untrusted, the window holds an untrusted hop, or
   * the window is full (given that at least two untrusted addresses exist).
   */
  lemma {:induction false} PrefixesIgnoredExactly(
    r: Reader, peerHost: string, text: string, forwarded: string, one: string, other: string)
    requires ',' !in one && ',' !in other && r.norm(one) != r.norm(other)
    requires UntrustedHop(r, r.norm(one)) && UntrustedHop(r, r.norm(other))
    ensures (forall prefix :: SourceOf(r, peerHost, Chain(r, prefix + ([','] + text), forwarded)) ==
                              SourceOf(r, peerHost, Chain(r, text, forwarded)))
       <==> (!IsTrusted(r, r.norm(peerHost)) || WindowHasUntrusted(r, text) || |Split(text, ',')| >= MAX_FORWARDED_HOPS)
  {
    hide SourceOf, Chain, IsTrusted, WindowHasUntrusted, Split, UntrustedHop;
    if !IsTrusted(r, r.norm(peerHost)) || WindowHasUntrusted(r, text) || |Split(text, ',')| >= MAX_FORWARDED_HOPS {
      forall prefix ensures SourceOf(r, peerHost, Chain(r, prefix + ([','] + text), forwarded)) ==
                            SourceOf(r, peerHost, Chain(r, text, forwarded))
      {
        PrefixIgnored(r, peerHost, prefix, text, forwarded);
      }
    } else {
      PrefixDecides(r, peerHost, one, text, forwarded);
      PrefixDecides(r, peerHost, other, text, forwarded);
    }
  }

  /** Headers can be left out of account altogether exactly behind an untrusted peer. */
  lemma {:induction false} HeadersIgnoredExactly(r: Reader, peerHost: string, one: string, other: string)
    requires ',' !in one && ',' !in other && r.norm(one) != r.norm(other)
    requires UntrustedHop(r, r.norm(one)) && UntrustedHop(r, r.norm(other))
    ensures (forall x, f, y, g :: SourceOf(r, peerHost, Chain(r, x, f)) == SourceOf(r, peerHost, Chain(r, y, g)))
       <==> !IsTrusted(r, r.norm(peerHost))
  {
    hide Chain, Split, IsTrusted;
    if IsTrusted(r, r.norm(peerHost)) {
      SoleHeader(r, peerHost, one);
      SoleHeader(r, peerHost, other);
    }
  }

  lemma {:induction false} SoleHeader(r: Reader, peerHost: string, hop: string)
    requires ',' !in hop && UntrustedHop(r, r.norm(hop)) && IsTrusted(r, r.norm(peerHost))
    ensures SourceOf(r, peerHost, Chain(r, hop, "")) == r.norm(hop)
  {
    hide Split, IsTrusted;
    NoComma(hop);
    OneHop(r, hop);
    OnlyHop(r, r.norm(hop));
  }

  /** An address in X-Forwarded-For, whoever sent it, makes Forwarded irrelevant. */
  lemma {:induction false} XForwardedForOverrides(
    r: Reader, peerHost: string, hop: string, forwarded: string, other: string, text: string)
    requires ',' !in hop && UntrustedHop(r, r.norm(hop)) && IsTrusted(r, r.norm(peerHost))
    ensures SourceOf(r, peerHost, Chain(r, hop, forwarded)) == r.norm(hop)
    ensures Hops(r.norm, Window(text)) != [] ==> Chain(r, text, forwarded) == Chain(r, text, other)
  {
    hide Split, IsTrusted;
    NoComma(hop);
    OneHop(r, hop);
    OnlyHop(r, r.norm(hop));
  }

  // ----- The same for Forwarded, where X-Forwarded-For reports no address -----

  lemma {:induction false} DirectivesConcat(r: Reader, a: seq<string>, b: seq<string>)
    ensures DirectiveHops(r, a + b) == DirectiveHops(r, a) + DirectiveHops(r, b)
  {
    if a == [] {
      assert a + b == b;
    } else {
      assert (a + b)[0] == a[0] && (a + b)[1..] == a[1..] + b;
      DirectivesConcat(r, a[1..], b);
      Assoc(Hops(r.forHop, Split(a[0], ';')), DirectiveHops(r, a[1..]), DirectiveHops(r, b));
    }
  }

  predicate ForwardedHasUntrusted(r: Reader, text: string) {
    RightmostUntrusted(r, DirectiveHops(r, Window(text))).Some?
  }

  /** With an untrusted hop in its window, or a full window, nothing put in front of Forwarded changes the source. */
  lemma {:induction false} ForwardedPrefixIgnored(
    r: Reader, peerHost: string, prefix: string, text: string, xForwardedFor: string)
    requires || !IsTrusted(r, r.norm(peerHost)) || Hops(r.norm, Window(xForwardedFor)) != []
             || ForwardedHasUntrusted(r, text) || |Split(text, ',')| >= MAX_FORWARDED_HOPS
    ensures SourceOf(r, peerHost, Chain(r, xForwardedFor, prefix + ([','] + text))) ==
            SourceOf(r, peerHost, Chain(r, xForwardedFor, text))
  {
    hide Window, Split, Hops, DirectiveHops;
    var k := |Split(text, ',')|;
    WindowAfter(prefix, text);
    if IsTrusted(r, r.norm(peerHost)) && k < MAX_FORWARDED_HOPS && Hops(r.norm, Window(xForwardedFor)) == [] {
      var front := Last(Split(prefix, ','), MAX_FORWARDED_HOPS - k);
      DirectivesConcat(r, front, Split(text, ','));
      RightmostConcat(r, DirectiveHops(r, front), DirectiveHops(r, Window(text)));
    }
  }

  // Otherwise one element put in front, naming one address, decides.
  lemma {:induction false} ForwardedPrefixDecides(
    r: Reader, peerHost: string, element: string, hop: string, text: string, xForwardedFor: string)
    requires IsTrusted(r, r.norm(peerHost)) && Hops(r.norm, Window(xForwardedFor)) == []
    requires !ForwardedHasUntrusted(r, text) && |Split(text, ',')| < MAX_FORWARDED_HOPS
    requires ',' !in element && DirectiveHops(r, [element]) == [hop] && !IsTrusted(r, hop)
    ensures SourceOf(r, peerHost, Chain(r, xForwardedFor, element + ([','] + text))) == hop
  {
    hide Window, Split, IsTrusted, DirectiveHops, Hops;
    WindowAfter(element, text);
    NoComma(element);
    DirectivesConcat(r, [element], Split(text, ','));
    RightmostConcat(r, [hop], DirectiveHops(r, Window(text)));
    OnlyHop(r, hop);
  }

  /** The exact condition, given two elements that name two different untrusted addresses. */
  lemma {:induction false} ForwardedPrefixesIgnoredExactly(
    r: Reader, peerHost: string, text: string, xForwardedFor: string,
    one: string, hop: string, other: string, otherHop: string)
    requires ',' !in one && DirectiveHops(r, [one]) == [hop] && !IsTrusted(r, hop)
    requires ',' !in other && DirectiveHops(r, [other]) == [otherHop] && !IsTrusted(r, otherHop) && hop != otherHop
    ensures (forall prefix :: SourceOf(r, peerHost, Chain(r, xForwardedFor, prefix + ([','] + text))) ==
                              SourceOf(r, peerHost, Chain(r, xForwardedFor, text)))
       <==> (|| !IsTrusted(r, r.norm(peerHost)) || Hops(r.norm, Window(xForwardedFor)) != []
             || ForwardedHasUntrusted(r, text) || |Split(text, ',')| >= MAX_FORWARDED_HOPS)
  {
    hide SourceOf, Chain, IsTrusted, ForwardedHasUntrusted, Split, DirectiveHops, Hops, Window;
    if || !IsTrusted(r, r.norm(peerHost)) || Hops(r.norm, Window(xForwardedFor)) != []
       || ForwardedHasUntrusted(r, text) || |Split(text, ',')| >= MAX_FORWARDED_HOPS
    {
      forall prefix ensures SourceOf(r, peerHost, Chain(r, xForwardedFor, prefix + ([','] + text))) ==
                            SourceOf(r, peerHost, Chain(r, xForwardedFor, text))
      {
        ForwardedPrefixIgnored(r, peerHost, prefix, text, xForwardedFor);
      }
    } else {
      ForwardedPrefixDecides(r, peerHost, one, hop, text, xForwardedFor);
      ForwardedPrefixDecides(r, peerHost, other, otherHop, text, xForwardedFor);
    }
  }
}
