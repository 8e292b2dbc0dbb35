/** Byte strings inside longer ones: the common ground of the round-trip proofs. */
module Wire {
  import opened Machine

  /** The bytes `s` stand at offset `i` of `p`. */
  ghost predicate Holds(p: seq<u8>, i: nat, s: seq<u8>) {
    i + |s| <= |p| && p[i..i + |s|] == s
  }

  /** A number in two bytes, the first one the more significant. */
  function Two(n: u16): (s: seq<u8>)
    ensures |s| == 2
  {
    [n / 256, n % 256]
  }

  lemma HoldsBoth(p: seq<u8>, i: nat, a: seq<u8>, b: seq<u8>)
    requires Holds(p, i, a + b)
    ensures Holds(p, i, a) && Holds(p, i + |a|, b)
  {
    var s := a + b;
    assert s[..|a|] == a && s[|a|..] == b;
    SliceOfSlice(p, i, |s|, 0, |a|);
    SliceOfSlice(p, i, |s|, |a|, |s|);
  }

  lemma SliceOfSlice(p: seq<u8>, i: nat, n: nat, lo: nat, hi: nat)
    requires lo <= hi <= n && i + n <= |p|
    ensures p[i..i + n][lo..hi] == p[i + lo..i + hi]
    ensures lo == 0 ==> p[i..i + n][..hi] == p[i..i + hi]
    ensures hi == n ==> p[i..i + n][lo..] == p[i + lo..i + n]
  {
    var a, b := p[i..i + n][lo..hi], p[i + lo..i + hi];
    assert forall k :: 0 <= k < |a| ==> a[k] == b[k];
  }

  /** Appending piece by piece. */
  lemma Regroup(a: seq<u8>, b: seq<u8>, c: seq<u8>, d: seq<u8>)
    ensures (a + b) + c == a + (b + c)
    ensures b + (c + d) == (b + c) + d
  {
  }

  /** `n` bytes from `i` on, zeros past the end. */
  function Bytes(p: seq<u8>, i: nat, n: nat): (b: seq<u8>)
    ensures |b| == n
  {
    seq(n, k requires 0 <= k < n => if i + k < |p| then p[i + k] else 0)
  }

  lemma {:induction false} BytesHeld(p: seq<u8>, i: nat, s: seq<u8>)
    requires Holds(p, i, s)
    ensures Bytes(p, i, |s|) == s
  {
    assert p[i..i + |s|] == s;
    forall k | 0 <= k < |s| ensures p[i + k] == s[k] {
      assert p[i..i + |s|][k] == s[k];
    }
  }

  /** Little-endian reads. */
  function Le32(p: seq<u8>, i: nat): u32 {
    LeBelow(Bytes(p, i, 4));
    Pow256Values();
    LeValue(Bytes(p, i, 4))
  }

  function Le64(p: seq<u8>, i: nat): u64 {
    LeBelow(Bytes(p, i, 8));
    Pow256Values();
    LeValue(Bytes(p, i, 8))
  }

  /** A number written in four or eight bytes reads back. */
  lemma {:induction false} Number32Back(p: seq<u8>, i: nat, v: u32)
    requires Holds(p, i, LeBytes(v, 4))
    ensures Le32(p, i) == v
  {
    BytesHeld(p, i, LeBytes(v, 4));
    LeRoundTrip(v, 4);
    Pow256Values();
  }

  lemma {:induction false} Number64Back(p: seq<u8>, i: nat, v: u64)
    requires Holds(p, i, LeBytes(v, 8))
    ensures Le64(p, i) == v
  {
    BytesHeld(p, i, LeBytes(v, 8));
    LeRoundTrip(v, 8);
    Pow256Values();
  }
}
