/**
 SHA-256 as the rest of the model sees it: some function from byte strings to
 64-character hexadecimal digests. Nothing else is assumed, and every theorem is
 proved for every such function.

 No function with outputs of one width is injective on all strings, so a binding
 result never says "equal digests, equal inputs". It says "equal inputs, or this
 pair, computed from the inputs, is a collision".
 */
module Hashing {

  const DIGEST_WIDTH: nat := 64

  /** Any function at all; Sum reads it through the one property assumed of SHA-256, so
      every function with 64-character digests is covered and no other. */
  type Hasher = string -> string

  function Sum(h: Hasher, preimage: string): (digest: string)
    ensures |digest| == DIGEST_WIDTH
  {
    if |h(preimage)| == DIGEST_WIDTH then h(preimage) else seq(DIGEST_WIDTH, i => '0')
  }

  /** Two preimages put forward as a collision. */
  datatype Pair = Pair(first: string, second: string)

  const NO_PAIR := Pair("", "")

  ghost predicate Collides(h: Hasher, p: Pair) {
    p.first != p.second && Sum(h, p.first) == Sum(h, p.second)
  }

  /** Every string of the list is as wide as a digest. */
  ghost predicate AllWide(xs: seq<string>) {
    forall i :: 0 <= i < |xs| ==> |xs[i]| == DIGEST_WIDTH
  }

  /** Strings of one width split in only one way. */
  lemma SplitEqual(a: string, b: string, c: string, d: string)
    requires a + b == c + d
    requires |a| == |c| || |b| == |d|
    ensures a == c && b == d
  {
    assert |a| + |b| == |a + b| == |c + d| == |c| + |d|;
    assert a == (a + b)[..|a|] && c == (c + d)[..|c|];
    assert b == (a + b)[|a|..] && d == (c + d)[|c|..];
  }
}
