/** The protocol hash and signatures, as parameters of the model. */
module Hashing {
  // Nothing is assumed of the hash except, where a theorem says so, that the listed byte strings do not
  // collide.

  import opened Bytes

  type Digest = Bytes32
  type PubKey = Bytes33
  type Signature = Bytes65

  /** `hash` is blake2b-256; `valid(digest, signature, key)` holds when the signature recovers to the key. */
  datatype Crypto = Crypto(hash: Bytes -> Digest, valid: (Digest, Signature, PubKey) -> bool)

  /** No two of these byte strings hash to the same digest. */
  ghost predicate CollisionFree(c: Crypto, hashed: set<Bytes>) {
    forall x, y :: x in hashed && y in hashed && c.hash(x) == c.hash(y) ==> x == y
  }

  lemma CollisionFreeSubset(c: Crypto, larger: set<Bytes>, smaller: set<Bytes>)
    requires CollisionFree(c, larger) && smaller <= larger
    ensures CollisionFree(c, smaller)
  {
  }

  function Ascii(s: string): (b: Bytes)
    ensures |b| == |s|
  {
    seq(|s|, i requires 0 <= i < |s| => (s[i] as int) % 256)
  }

  const DOMAIN_SET_STATE := Ascii("LEAN/PUBLISHER_SET_STATE/V2")
  const DOMAIN_SET_UPDATE := Ascii("LEAN/PUBLISHER_SET_UPDATE/V2")
  const DOMAIN_SET_POP := Ascii("LEAN/PUBLISHER_SET_POP/V2")
  const DOMAIN_PRICE_UPDATE := Ascii("LEAN/PRICE_UPDATE/V1")
  const DOMAIN_PRICE_LEAF := Ascii("LEAN/PRICE_LEAF/V1")
  const DOMAIN_PRICE_NODE := Ascii("LEAN/PRICE_NODE/V1")
  const DOMAIN_OBSERVATION := Ascii("LEAN/OBSERVATION/V1")
  const DOMAIN_COMMITTEE_CONFIG := Ascii("LEAN/COMMITTEE_CONFIG/V1")
  const DOMAIN_PROPOSAL := Ascii("LEAN/PROPOSAL/V1")
  const DOMAIN_PEER_HELLO := Ascii("LEAN/PEER_HELLO/V1")
  const DOMAIN_FEED := Ascii("LEAN/FEED/V1")
  const DOMAIN_LEADER_ORDER := Ascii("LEAN/LEADER_ORDER/V1")

  /** Every domain tag of the system. */
  const DOMAINS: seq<Bytes> := [
    DOMAIN_SET_STATE, DOMAIN_SET_UPDATE, DOMAIN_SET_POP, DOMAIN_PRICE_UPDATE, DOMAIN_OBSERVATION,
    DOMAIN_COMMITTEE_CONFIG, DOMAIN_PROPOSAL, DOMAIN_PEER_HELLO, DOMAIN_PRICE_LEAF, DOMAIN_PRICE_NODE,
    DOMAIN_FEED, DOMAIN_LEADER_ORDER]

  /** A position inside both tags where they differ, so neither is a prefix of the other. */
  ghost predicate DiffersAt(a: Bytes, b: Bytes, k: nat) {
    k < |a| && k < |b| && a[k] != b[k]
  }

  lemma EarlyTags(a: nat, b: nat)
    requires a < b < |DOMAINS| && a < 3
    ensures exists k: nat :: DiffersAt(DOMAINS[a], DOMAINS[b], k)
  {
    var x, y := DOMAINS[a], DOMAINS[b];
    var k: nat := if x[5] != y[5] then 5 else if x[6] != y[6] then 6 else 19;
    assert DiffersAt(x, y, k);
  }

  lemma LaterTags(a: nat, b: nat)
    requires 3 <= a < b < |DOMAINS|
    ensures exists k: nat :: DiffersAt(DOMAINS[a], DOMAINS[b], k)
  {
    var x, y := DOMAINS[a], DOMAINS[b];
    var k: nat :=
        if x[5] != y[5] then 5 else if x[6] != y[6] then 6 else if x[7] != y[7] then 7 else if x[8] != y[8] then 8
        else 11;
    assert DiffersAt(x, y, k);
  }

  lemma TagsNotPrefixes(a: nat, b: nat)
    requires a < b < |DOMAINS|
    ensures exists k: nat :: DiffersAt(DOMAINS[a], DOMAINS[b], k)
  {
    if a < 3 { EarlyTags(a, b); } else { LaterTags(a, b); }
  }

  /** What is hashed under one domain is never what is hashed under another. */
  lemma DomainsSeparate(a: nat, b: nat, x: Bytes, y: Bytes)
    requires a < |DOMAINS| && b < |DOMAINS| && a != b
    ensures DOMAINS[a] + x != DOMAINS[b] + y
  {
    var p, q := DOMAINS[a], DOMAINS[b];
    if p + x == q + y {
      if a < b {
        TagsNotPrefixes(a, b);
        PrefixClash(p, q, x, y);
      } else {
        TagsNotPrefixes(b, a);
        PrefixClash(q, p, y, x);
      }
    }
  }

  lemma PrefixClash(p: Bytes, q: Bytes, x: Bytes, y: Bytes)
    requires exists k: nat :: DiffersAt(p, q, k)
    ensures p + x != q + y
  {
    var k: nat :| DiffersAt(p, q, k);
    assert (p + x)[k] == p[k] && (q + y)[k] == q[k];
  }

  lemma DropPrefix(tag: Bytes, x: Bytes, y: Bytes)
    requires tag + x == tag + y
    ensures x == y
  {
    assert (tag + x)[|tag|..] == x && (tag + y)[|tag|..] == y;
  }
}
