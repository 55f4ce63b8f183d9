/**
 * The hash chain over canonical payload texts, with SHA-256 as a parameter.
 *
 * Main result: `SameHead`, the head determines the whole history.  Collision
 * freedom is asked only of the finite set of texts that two histories hash;
 * no function to 64 hex digits is injective on all texts.
 */
module HashChain {
  import CanonicalJson

  type Digester = string -> string

  // The prev_hash of the first record ever written: 64 zeros.
  const GENESIS: string := "0000000000000000000000000000000000000000000000000000000000000000"

  function LinkText(prev: string, digest: string): string {
    prev + (":" + digest)
  }

  function Link(sha: Digester, prev: string, digest: string): string {
    sha(LinkText(prev, digest))
  }

  /** The head after honestly logging the payloads `ps`, from genesis. */
  function Head(sha: Digester, ps: seq<string>): string {
    if ps == [] then GENESIS else Link(sha, Head(sha, ps[..|ps| - 1]), sha(ps[|ps| - 1]))
  }

  // Digests of these texts are 64 characters long, none of them is the genesis
  // marker, and no two of these texts collide.
  ghost predicate Secure(sha: Digester, texts: set<string>) {
    && (forall x :: x in texts ==> |sha(x)| == 64 && sha(x) != GENESIS)
    && (forall x, y :: x in texts && y in texts && sha(x) == sha(y) ==> x == y)
  }

  // `texts` holds everything that logging `ps` hashes.
  ghost predicate Hashed(sha: Digester, texts: set<string>, ps: seq<string>) {
    ps == [] ||
    var init, last := ps[..|ps| - 1], ps[|ps| - 1];
    Hashed(sha, texts, init) && last in texts && LinkText(Head(sha, init), sha(last)) in texts
  }

  /** `prev:digest` splits in one way only, because digests have one length. */
  lemma {:induction false} LinkTextInjective(p: string, d: string, q: string, e: string)
    requires |d| == |e|
    ensures LinkText(p, d) == LinkText(q, e) <==> p == q && d == e
  {
    if LinkText(p, d) == LinkText(q, e) {
      assert |LinkText(p, d)| == |p| + 1 + |d| && |LinkText(q, e)| == |q| + 1 + |e|;
      CanonicalJson.CutEqual(p, ":" + d, q, ":" + e);
      CanonicalJson.CutEqual(":", d, ":", e);
    }
  }

  lemma {:induction false} HeadNotGenesis(sha: Digester, texts: set<string>, ps: seq<string>)
    requires Secure(sha, texts) && Hashed(sha, texts, ps) && ps != []
    ensures Head(sha, ps) != GENESIS && |Head(sha, ps)| == 64
  {
  }

  /** A link determines its predecessor and the payload it commits to. */
  lemma {:induction false} LinkDetermines(sha: Digester, texts: set<string>, h: string, p: string, k: string, q: string)
    requires Secure(sha, texts) && p in texts && q in texts
    requires LinkText(h, sha(p)) in texts && LinkText(k, sha(q)) in texts
    requires Link(sha, h, sha(p)) == Link(sha, k, sha(q))
    ensures h == k && p == q
  {
    LinkTextInjective(h, sha(p), k, sha(q));
  }

  /** Backward induction from the head: equal heads, equal histories. */
  lemma {:induction false} SameHead(sha: Digester, texts: set<string>, ps: seq<string>, qs: seq<string>)
    requires Secure(sha, texts) && Hashed(sha, texts, ps) && Hashed(sha, texts, qs)
    requires Head(sha, ps) == Head(sha, qs)
    ensures ps == qs
  {
    if ps != [] && qs != [] {
      LinkDetermines(sha, texts, Head(sha, ps[..|ps| - 1]), ps[|ps| - 1], Head(sha, qs[..|qs| - 1]), qs[|qs| - 1]);
      SameHead(sha, texts, ps[..|ps| - 1], qs[..|qs| - 1]);
      assert ps == ps[..|ps| - 1] + [ps[|ps| - 1]] && qs == qs[..|qs| - 1] + [qs[|qs| - 1]];
    } else if ps != [] {
      HeadNotGenesis(sha, texts, ps);
    } else if qs != [] {
      HeadNotGenesis(sha, texts, qs);
    }
  }

  lemma {:induction false} HashedPrefix(sha: Digester, texts: set<string>, ps: seq<string>, n: nat)
    requires Hashed(sha, texts, ps) && n <= |ps|
    ensures Hashed(sha, texts, ps[..n])
  {
    if n < |ps| {
      HashedPrefix(sha, texts, ps[..|ps| - 1], n);
      assert ps[..|ps| - 1][..n] == ps[..n];
    } else {
      assert ps[..n] == ps;
    }
  }

  /** The heads passed on the way are pairwise different. */
  lemma {:induction false} HeadsDistinct(sha: Digester, texts: set<string>, ps: seq<string>, i: nat, j: nat)
    requires Secure(sha, texts) && Hashed(sha, texts, ps) && i <= |ps| && j <= |ps|
    requires Head(sha, ps[..i]) == Head(sha, ps[..j])
    ensures i == j
  {
    HashedPrefix(sha, texts, ps, i);
    HashedPrefix(sha, texts, ps, j);
    SameHead(sha, texts, ps[..i], ps[..j]);
  }
}
