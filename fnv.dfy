/**
 * The 64-bit FNV-1a hash of Go's `hash/fnv` (`fnv.New64a`), fed with the UTF-8
 * bytes of strings, as `fmt.Fprint` writes them.
 */
module Fnv {

  /** A digest as Go holds it, a `uint64`; the hash itself is computed in `bv64`. */
  type Fingerprint = n: int | 0 <= n < 0x1_0000_0000_0000_0000

  const OffsetBasis: bv64 := 14695981039346656037
  const Prime: bv64 := 1099511628211

  /** One byte of FNV-1a: xor, then multiply modulo 2^64 (bv64 wraps). */
  function Step(h: bv64, b: bv8): bv64 {
    (h ^ (b as bv64)) * Prime
  }

  /** The digest after writing `bytes` into a digest in state `h`. */
  function Fold(h: bv64, bytes: seq<bv8>): bv64
    decreases |bytes|
  {
    if bytes == [] then h else Fold(Step(h, bytes[0]), bytes[1..])
  }

  /** Writing `a` then `b` is writing `a + b`: the digest is a streaming hash. */
  lemma {:induction false} FoldAppend(h: bv64, a: seq<bv8>, b: seq<bv8>)
    ensures Fold(h, a + b) == Fold(Fold(h, a), b)
    decreases |a|
  {
    if a != [] {
      assert (a + b)[1..] == a[1..] + b;
      FoldAppend(Step(h, a[0]), a[1..], b);
    } else {
      assert a + b == b;
    }
  }

  /** `Sum64` of a fresh digest that was fed `bytes`. */
  function Sum64(bytes: seq<bv8>): bv64 {
    Fold(OffsetBasis, bytes)
  }

  /** The UTF-8 encoding of one Unicode scalar value. */
  function EncodeRune(c: char): (r: seq<bv8>)
    ensures 1 <= |r| <= 4
    ensures (c as int < 0x80) <==> |r| == 1
  {
    var n := c as int;
    if n < 0x80 then
      [n as bv8]
    else if n < 0x800 then
      [(0xC0 + n / 64) as bv8, (0x80 + n % 64) as bv8]
    else if n < 0x10000 then
      [(0xE0 + n / 4096) as bv8, (0x80 + (n / 64) % 64) as bv8, (0x80 + n % 64) as bv8]
    else
      [(0xF0 + n / 262144) as bv8, (0x80 + (n / 4096) % 64) as bv8,
       (0x80 + (n / 64) % 64) as bv8, (0x80 + n % 64) as bv8]
  }

  /** The UTF-8 bytes of a string. */
  function Encode(s: string): seq<bv8>
    decreases |s|
  {
    if s == [] then [] else EncodeRune(s[0]) + Encode(s[1..])
  }

  lemma {:induction false} EncodeAppend(s: string, t: string)
    ensures Encode(s + t) == Encode(s) + Encode(t)
    decreases |s|
  {
    if s != [] {
      assert (s + t)[1..] == s[1..] + t;
      EncodeAppend(s[1..], t);
      assert Encode(s + t) == EncodeRune(s[0]) + Encode(s[1..] + t);
    } else {
      assert s + t == t;
    }
  }

  /** Writing string `s` into a digest in state `h`. */
  function Feed(h: bv64, s: string): bv64 {
    Fold(h, Encode(s))
  }

  /** Feeding two strings one after the other hashes their concatenation. */
  lemma FeedAppend(h: bv64, s: string, t: string)
    ensures Feed(Feed(h, s), t) == Feed(h, s + t)
  {
    EncodeAppend(s, t);
    FoldAppend(h, Encode(s), Encode(t));
  }

  /** The FNV-1a-64 hash of a string. */
  function HashString(s: string): bv64 {
    Feed(OffsetBasis, s)
  }
}
