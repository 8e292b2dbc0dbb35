/** Text in fixed-width fields: how strncpy and memcpy fill them, and how a C string and Go's
    bytes.Trim read them back. */
module FixedFields {
  import opened Machine

  function Zeros(n: nat): (z: seq<u8>)
    ensures |z| == n
  {
    seq(n, i => 0)
  }

  predicate NulFree(s: seq<u8>) { forall i :: 0 <= i < |s| ==> s[i] != 0 }

  /** The first NUL from `i` on, or the end. */
  function NulFrom(s: seq<u8>, i: nat): (n: nat)
    requires i <= |s|
    ensures i <= n <= |s|
    decreases |s| - i
  {
    if i == |s| || s[i] == 0 then i else NulFrom(s, i + 1)
  }

  /** A C string: up to the first NUL. */
  function CStr(s: seq<u8>): seq<u8> { s[..NulFrom(s, 0)] }

  function Cut(s: seq<u8>, n: nat): (c: seq<u8>)
    ensures |c| <= n
  {
    if |s| <= n then s else s[..n]
  }

  /** What a field of width `w` keeps of a string written with strncpy(field, s, w - 1). */
  function Kept(s: seq<u8>, w: nat): (c: seq<u8>)
    requires w > 0
    ensures |c| < w
  {
    Cut(CStr(s), w - 1)
  }

  function StrField(s: seq<u8>, w: nat): (f: seq<u8>)
    requires w > 0
    ensures |f| == w
  {
    Kept(s, w) + Zeros(w - |Kept(s, w)|)
  }

  /** memcpy of at most `w - 1` bytes into a zeroed field: it does not stop at a NUL. */
  function MemField(s: seq<u8>, w: nat): (f: seq<u8>)
    requires w > 0
    ensures |f| == w
  {
    Cut(s, w - 1) + Zeros(w - |Cut(s, w - 1)|)
  }

  /** The first byte from `i` on that is not NUL, or the end. */
  function Front(s: seq<u8>, i: nat): (f: nat)
    requires i <= |s|
    ensures i <= f <= |s|
    decreases |s| - i
  {
    if i == |s| || s[i] != 0 then i else Front(s, i + 1)
  }

  /** The end of what is left below `j` when NULs are taken off, but not below `i`. */
  function Back(s: seq<u8>, i: nat, j: nat): (b: nat)
    requires i <= j <= |s|
    ensures i <= b <= j
    decreases j
  {
    if i == j || s[j - 1] != 0 then j else Back(s, i, j - 1)
  }

  /** bytes.Trim with a NUL: both ends. */
  function Trim(s: seq<u8>): (t: seq<u8>)
    ensures |t| <= |s|
  {
    var f := Front(s, 0);
    s[f..Back(s, f, |s|)]
  }

  /** Only NULs stand before `i` and from `j` on, and none at either end of what is between. */
  predicate TrimsTo(s: seq<u8>, i: nat, j: nat) {
    && i <= j <= |s|
    && (forall k :: 0 <= k < i ==> s[k] == 0) && (forall k :: j <= k < |s| ==> s[k] == 0)
    && (i < j ==> s[i] != 0 && s[j - 1] != 0)
  }

  /** Trimming takes NULs off both ends, all of them, and nothing else. */
  lemma {:induction false} TrimIs(s: seq<u8>)
    ensures exists i: nat, j: nat :: TrimsTo(s, i, j) && Trim(s) == s[i..j]
  {
    var i := Front(s, 0);
    var j := Back(s, i, |s|);
    FrontStops(s, 0);
    BackStops(s, i, |s|);
    assert TrimsTo(s, i, j);
  }

  lemma {:induction false} FrontStops(s: seq<u8>, i: nat)
    requires i <= |s|
    ensures var f := Front(s, i); (forall k :: i <= k < f ==> s[k] == 0) && (f < |s| ==> s[f] != 0)
    decreases |s| - i
  {
    if i < |s| && s[i] == 0 {
      FrontStops(s, i + 1);
    }
  }

  lemma {:induction false} BackStops(s: seq<u8>, i: nat, j: nat)
    requires i <= j <= |s|
    ensures var b := Back(s, i, j); (forall k :: b <= k < j ==> s[k] == 0) && (i < b ==> s[b - 1] != 0)
    decreases j
  {
    if i < j && s[j - 1] == 0 {
      BackStops(s, i, j - 1);
    }
  }

  predicate Fits(s: seq<u8>, w: nat) { NulFree(s) && |s| < w }

  /** The first NUL is where it should be. */
  lemma {:induction false} NulIs(s: seq<u8>, i: nat, n: nat)
    requires i <= n <= |s| && (n < |s| ==> s[n] == 0)
    requires forall k :: i <= k < n ==> s[k] != 0
    ensures NulFrom(s, i) == n
    decreases n - i
  {
    if i < n {
      NulIs(s, i + 1, n);
    }
  }

  lemma {:induction false} NoneBefore(s: seq<u8>, i: nat)
    requires i <= |s|
    ensures forall k :: i <= k < NulFrom(s, i) ==> s[k] != 0
    ensures NulFrom(s, i) < |s| ==> s[NulFrom(s, i)] == 0
    decreases |s| - i
  {
    if i < |s| && s[i] != 0 {
      NoneBefore(s, i + 1);
    }
  }

  lemma KeptIsFree(s: seq<u8>, w: nat)
    requires w > 0
    ensures NulFree(CStr(s)) && NulFree(Kept(s, w))
  {
    NoneBefore(s, 0);
  }

  /** A string without NULs, followed by at least one NUL or nothing, reads back as itself. */
  lemma PaddedCStr(c: seq<u8>, n: nat)
    requires NulFree(c)
    ensures CStr(c + Zeros(n)) == c
  {
    var f := c + Zeros(n);
    assert forall k :: 0 <= k < |c| ==> f[k] == c[k];
    NulIs(f, 0, |c|);
  }

  lemma CStrReads(s: seq<u8>, w: nat)
    requires w > 0
    ensures CStr(StrField(s, w)) == Kept(s, w)
  {
    KeptIsFree(s, w);
    PaddedCStr(Kept(s, w), w - |Kept(s, w)|);
  }

  /** The field keeps the whole string exactly when it has no NUL and is shorter than the field. */
  lemma KeptIff(s: seq<u8>, w: nat)
    requires w > 0
    ensures Kept(s, w) == s <==> Fits(s, w)
  {
    KeptIsFree(s, w);
    if Fits(s, w) {
      NulIs(s, 0, |s|);
    }
  }

  /** Writing what was kept keeps it. */
  lemma KeptTwice(s: seq<u8>, w: nat)
    requires w > 0
    ensures Kept(Kept(s, w), w) == Kept(s, w)
  {
    KeptIsFree(s, w);
    KeptIff(Kept(s, w), w);
  }

  lemma {:induction false} BackIs(s: seq<u8>, i: nat, b: nat, j: nat)
    requires i <= b <= j <= |s| && (i < b ==> s[b - 1] != 0)
    requires forall k :: b <= k < j ==> s[k] == 0
    ensures Back(s, i, j) == b
    decreases j
  {
    if b < j {
      BackIs(s, i, b, j - 1);
    }
  }

  lemma {:induction false} FrontIs(s: seq<u8>, i: nat, f: nat)
    requires i <= f <= |s| && (f < |s| ==> s[f] != 0)
    requires forall k :: i <= k < f ==> s[k] == 0
    ensures Front(s, i) == f
    decreases f - i
  {
    if i < f {
      FrontIs(s, i + 1, f);
    }
  }

  /** Padding a string without NULs and trimming gives it back. */
  lemma TrimPadded(c: seq<u8>, n: nat)
    requires NulFree(c)
    ensures Trim(c + Zeros(n)) == c
  {
    var s := c + Zeros(n);
    assert forall k :: |c| <= k < |s| ==> s[k] == 0;
    if c == [] {
      FrontIs(s, 0, |s|);
      BackIs(s, |s|, |s|, |s|);
    } else {
      assert s[0] == c[0] && s[|c| - 1] == c[|c| - 1];
      FrontIs(s, 0, 0);
      BackIs(s, 0, |c|, |s|);
    }
  }

  /** Trimming reads back what strncpy kept, and what memcpy copied when it holds no NUL. */
  lemma TrimReads(s: seq<u8>, w: nat)
    requires w > 0
    ensures Trim(StrField(s, w)) == Kept(s, w)
    ensures NulFree(s) ==> Trim(MemField(s, w)) == Cut(s, w - 1)
  {
    KeptIsFree(s, w);
    TrimPadded(Kept(s, w), w - |Kept(s, w)|);
    if NulFree(s) {
      TrimPadded(Cut(s, w - 1), w - |Cut(s, w - 1)|);
    }
  }
}
