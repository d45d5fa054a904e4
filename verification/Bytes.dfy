/** Bytes, and numbers as little-endian bytes. */
module Bytes {
  type byte = b: int | 0 <= b < 256

  /** `n` little-endian bytes of `v`. */
  function LeBytes(v: nat, n: nat): (r: seq<byte>)
    ensures |r| == n
  {
    if n == 0 then [] else [v % 256] + LeBytes(v / 256, n - 1)
  }

  function LeValue(b: seq<byte>): nat {
    if b == [] then 0 else b[0] + 256 * LeValue(b[1..])
  }

  function Pow256(n: nat): nat { if n == 0 then 1 else 256 * Pow256(n - 1) }

  lemma {:induction false} LeRoundTrip(v: nat, n: nat)
    requires v < Pow256(n)
    ensures LeValue(LeBytes(v, n)) == v
  {
    if n > 0 { LeRoundTrip(v / 256, n - 1); }
  }

  function Zeros(n: nat): (r: seq<byte>)
    ensures |r| == n && forall i :: 0 <= i < n ==> r[i] == 0
  {
    seq(n, _ => 0)
  }

  /** The chunks, end to end. */
  function Flatten(chunks: seq<seq<byte>>): seq<byte> {
    if chunks == [] then [] else chunks[0] + Flatten(chunks[1..])
  }

  ghost predicate AllOfSize(chunks: seq<seq<byte>>, n: nat) {
    forall i :: 0 <= i < |chunks| ==> |chunks[i]| == n
  }

  lemma {:induction false} FlattenSize(chunks: seq<seq<byte>>, n: nat)
    requires AllOfSize(chunks, n)
    ensures |Flatten(chunks)| == n * |chunks|
  {
    if chunks != [] {
      FlattenSize(chunks[1..], n);
      Distribute(n, |chunks| - 1);
    }
  }

  lemma Distribute(n: nat, k: nat)
    ensures n * (k + 1) == n + n * k
  {}

  /** The `i`-th of equally sized chunks is where arithmetic says. */
  lemma {:induction false} ChunkAt(chunks: seq<seq<byte>>, n: nat, i: nat)
    requires AllOfSize(chunks, n) && i < |chunks|
    ensures n * i + n <= |Flatten(chunks)| && Flatten(chunks)[n * i..n * i + n] == chunks[i]
  {
    FlattenSize(chunks, n);
    FlattenSize(chunks[1..], n);
    if i == 0 {
      assert n * 0 == 0;
      assert Flatten(chunks)[..n] == chunks[0];
    } else {
      ChunkAt(chunks[1..], n, i - 1);
      Distribute(n, i - 1);
      SkipFront(chunks[0], Flatten(chunks[1..]), n * (i - 1), n * (i - 1) + n);
    }
  }

  lemma SkipFront(a: seq<byte>, b: seq<byte>, from: nat, end: nat)
    requires from <= end <= |b|
    ensures (a + b)[|a| + from..|a| + end] == b[from..end]
  {}
}
