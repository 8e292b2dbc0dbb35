/** The SYN-cookie rewrite of src/ebpf/policy.h: a new sequence number is written into a TCP segment
    in place, and the checksum is updated from the changed words alone (RFC 1624, section 3). */
module SynCookie {
  import opened Machine

  const SEQ := 4
  const FLAGS := 13
  const CHECK := 16

  // ----- the checksum as a receiver computes it (RFC 1071) -----

  /** The sum of the 16-bit words from `at` on, a last odd byte padded with zero. */
  function WordSum(s: seq<u8>, at: nat): nat
    requires at <= |s|
    decreases |s| - at
  {
    if at == |s| then 0
    else if at + 1 == |s| then 256 * s[at]
    else Be16(s, at) + WordSum(s, at + 2)
  }

  /** End-around carry until the sum fits in 16 bits. */
  function Fold(n: nat): (r: nat)
    ensures r < TWO16
    ensures r == 0 <==> n == 0
    decreases n
  {
    if n < TWO16 then n else Fold(n / TWO16 + n % TWO16)
  }

  /** A segment verifies when it and the pseudo-header sum to all ones. */
  predicate Verifies(s: seq<u8>, pseudoHeader: nat) {
    Fold(pseudoHeader + WordSum(s, 0)) == 0xFFFF
  }

  lemma CarryKeepsResidue(n: nat)
    ensures (n / TWO16 + n % TWO16) % 0xFFFF == n % 0xFFFF
  {
    var q, r := n / TWO16, n % TWO16;
    var a, b := (q + r) / 0xFFFF, (q + r) % 0xFFFF;
    assert n == 0xFFFF * (q + a) + b;
    DivModUnique(n, 0xFFFF, q + a, b);
  }

  lemma {:induction false} FoldKeepsResidue(n: nat)
    ensures Fold(n) % 0xFFFF == n % 0xFFFF
    decreases n
  {
    if n >= TWO16 {
      CarryKeepsResidue(n);
      FoldKeepsResidue(n / TWO16 + n % TWO16);
    }
  }

  /** All ones is the fold of the positive multiples of 65535 and of nothing else. */
  lemma AllOnesIff(n: nat)
    ensures Fold(n) == 0xFFFF <==> n > 0 && n % 0xFFFF == 0
  {
    FoldKeepsResidue(n);
  }

  // ----- the rewrite -----

  function PutBe16(s: seq<u8>, i: nat, w: u16): (t: seq<u8>)
    requires i + 2 <= |s|
    ensures |t| == |s| && Be16(t, i) == w
    ensures forall k :: 0 <= k < |s| && k != i && k != i + 1 ==> t[k] == s[k]
  {
    s[i := w / 256][i + 1 := w % 256]
  }

  /** The checksum after the words `a`, `b` became `c`, `d`: one's complements added, carries folded
      twice, complemented. */
  function Updated(check: u16, a: u16, b: u16, c: u16, d: u16): u16 {
    var acc := (0xFFFF - check) + (0xFFFF - a) + (0xFFFF - b) + c + d;
    var once := acc / TWO16 + acc % TWO16;
    0xFFFF - (once + once / TWO16) % TWO16
  }

  /** The segment with a new sequence number and its checksum brought up to date. */
  function Rewritten(s: seq<u8>, newSeq: u32): seq<u8>
    requires |s| >= 20
  {
    var high, low := newSeq / TWO16, newSeq % TWO16;
    var check := Updated(Be16(s, CHECK), Be16(s, SEQ), Be16(s, SEQ + 2), high, low);
    PutBe16(PutBe16(PutBe16(s, SEQ, high), SEQ + 2, low), CHECK, check)
  }

  function LoadWord(th: array<u8>, i: nat): (w: u16)
    requires i + 2 <= th.Length
    reads th
    ensures w == Be16(th[..], i)
  {
    256 * (th[i] as int) + th[i + 1] as int
  }

  method StoreWord(th: array<u8>, i: nat, w: u16)
    requires i + 2 <= th.Length
    modifies th
    ensures th[..] == PutBe16(old(th[..]), i, w)
  {
    th[i], th[i + 1] := w / 256, w % 256;
  }

  /** trigger_syncookie_challenge on the TCP segment `th`: of its flags SYN must be set and ACK, RST and FIN clear.
      `cookie` is what the kernel's cookie function returned, None when the kernel lacks it. */
  method TriggerSyncookieChallenge(th: array<u8>, cookie: Option<int>) returns (rc: int)
    requires th.Length >= 20
    requires cookie.Some? ==> -0x8000_0000_0000_0000 <= cookie.value < 0x8000_0000_0000_0000
    modifies th
    ensures rc == -2 <==> old(th[13]) as bv8 & 0x17 != 0x02
    ensures rc == -99 <==> old(th[13]) as bv8 & 0x17 == 0x02 && (cookie.None? || cookie.value < 0)
    ensures rc == -2 || rc == -99 || rc == 777
    ensures th[..] == if rc == 777 then Rewritten(old(th[..]), Wrap32(cookie.value)) else old(th[..])
  {
    var flags := th[FLAGS] as bv8;
    if flags & 0x02 == 0 || flags & 0x10 != 0 || flags & 0x04 != 0 || flags & 0x01 != 0 {
      return -2;
    }
    if cookie.None? {
      return -99;
    }
    if cookie.value < 0 {
      return -99;
    }
    RewriteInPlace(th, Wrap32(cookie.value));
    return 777;
  }

  /** The rewrite proper: the sequence number, then the checksum from the words that changed. */
  method RewriteInPlace(th: array<u8>, newSeq: u32)
    requires th.Length >= 20
    modifies th
    ensures th[..] == Rewritten(old(th[..]), newSeq)
  {
    var oldHigh, oldLow := LoadWord(th, SEQ), LoadWord(th, SEQ + 2);
    var oldCheck := LoadWord(th, CHECK);
    var newHigh, newLow := newSeq / TWO16, newSeq % TWO16;
    StoreWord(th, SEQ, newHigh);
    StoreWord(th, SEQ + 2, newLow);
    var check := Recomputed(oldCheck, oldHigh, oldLow, newHigh, newLow);
    StoreWord(th, CHECK, check);
  }

  /** The checksum after the two words changed. */
  method Recomputed(oldCheck: u16, oldHigh: u16, oldLow: u16, newHigh: u16, newLow: u16) returns (check: u16)
    ensures check == Updated(oldCheck, oldHigh, oldLow, newHigh, newLow)
  {
    var acc := 0xFFFF - oldCheck;
    acc := acc + (0xFFFF - oldLow);
    acc := acc + (0xFFFF - oldHigh);
    acc := acc + newLow;
    acc := acc + newHigh;
    acc := acc / TWO16 + acc % TWO16;
    acc := acc + acc / TWO16;
    return 0xFFFF - acc % TWO16;
  }

  // ----- the update keeps every segment's verdict -----

  /** The rewritten segment carries the cookie as its sequence number; besides that only the checksum
      changes. */
  lemma CarriesCookie(s: seq<u8>, newSeq: u32)
    requires |s| >= 20
    ensures var t := Rewritten(s, newSeq);
      && |t| == |s| && Be32(t, 4) == newSeq
      && forall k :: 0 <= k < |s| && !(4 <= k < 8) && k != 16 && k != 17 ==> t[k] == s[k]
  {
    var high, low := newSeq / TWO16, newSeq % TWO16;
    var check := Updated(Be16(s, CHECK), Be16(s, SEQ), Be16(s, SEQ + 2), high, low);
    PutElsewhere(PutBe16(s, SEQ, high), SEQ + 2, low, SEQ);
    PutElsewhere(PutBe16(PutBe16(s, SEQ, high), SEQ + 2, low), CHECK, check, SEQ);
    PutElsewhere(PutBe16(PutBe16(s, SEQ, high), SEQ + 2, low), CHECK, check, SEQ + 2);
  }

  /** Two folds of the accumulator are enough: what is left is its residue. */
  lemma TwoFoldsSuffice(acc: nat)
    requires acc <= 5 * 0xFFFF
    ensures var once := acc / TWO16 + acc % TWO16;
      ((once + once / TWO16) % TWO16) % 0xFFFF == acc % 0xFFFF
  {
    CarryKeepsResidue(acc);
    var once := acc / TWO16 + acc % TWO16;
    CarryKeepsResidue(once);
    if once < TWO16 {
      assert (once + once / TWO16) % TWO16 == once;
    } else {
      assert once / TWO16 == 1 && (once + 1) % TWO16 == once - TWO16 + 1;
      assert once / TWO16 + once % TWO16 == once - TWO16 + 1;
    }
  }

  /** The new checksum makes up for the changed words, modulo 65535. */
  lemma UpdatedBalances(check: u16, a: u16, b: u16, c: u16, d: u16, rest: nat)
    ensures (rest + check + a + b) % 0xFFFF == (rest + Updated(check, a, b, c, d) + c + d) % 0xFFFF
  {
    var acc: nat := (0xFFFF - check) + (0xFFFF - a) + (0xFFFF - b) + c + d;
    TwoFoldsSuffice(acc);
    var once := acc / TWO16 + acc % TWO16;
    var f := (once + once / TWO16) % TWO16;
    var k, m := acc / 0xFFFF, f / 0xFFFF;
    var x, y := rest + check + a + b, rest + (0xFFFF - f) + c + d;
    assert acc - f == 0xFFFF * (k - m);
    assert y - x == acc - f - 2 * 0xFFFF;
    assert y == x + 0xFFFF * (k - m - 2);
    SameResidue(x, y, k - m - 2);
  }

  lemma SameResidue(x: nat, y: nat, t: int)
    requires y == x + 0xFFFF * t
    ensures x % 0xFFFF == y % 0xFFFF
  {
    assert y == 0xFFFF * (x / 0xFFFF + t) + x % 0xFFFF;
    DivModUnique(y, 0xFFFF, x / 0xFFFF + t, x % 0xFFFF);
  }

  lemma {:induction false} SameTail(s: seq<u8>, t: seq<u8>, at: nat)
    requires |s| == |t| && at <= |s| && forall k :: at <= k < |s| ==> s[k] == t[k]
    ensures WordSum(s, at) == WordSum(t, at)
    decreases |s| - at
  {
    if at + 1 < |s| {
      SameTail(s, t, at + 2);
    }
  }

  /** Replacing the word at an even distance moves the sum by the difference of the words. */
  lemma {:induction false} OneWord(s: seq<u8>, t: seq<u8>, i: nat, at: nat)
    requires |s| == |t| && at <= i && i + 2 <= |s| && (i - at) % 2 == 0
    requires forall k :: 0 <= k < |s| && k != i && k != i + 1 ==> t[k] == s[k]
    ensures WordSum(t, at) - Be16(t, i) == WordSum(s, at) - Be16(s, i)
    decreases i - at
  {
    if at == i {
      SameTail(s, t, i + 2);
    } else {
      OneWord(s, t, i, at + 2);
    }
  }

  lemma PutSum(s: seq<u8>, i: nat, w: u16)
    requires i % 2 == 0 && i + 2 <= |s|
    ensures WordSum(PutBe16(s, i, w), 0) == WordSum(s, 0) - Be16(s, i) + w
  {
    OneWord(s, PutBe16(s, i, w), i, 0);
  }

  lemma PutElsewhere(s: seq<u8>, i: nat, w: u16, j: nat)
    requires i + 2 <= |s| && j + 2 <= |s| && (j + 2 <= i || i + 2 <= j)
    ensures Be16(PutBe16(s, i, w), j) == Be16(s, j)
  {
  }

  lemma ThreePuts(s: seq<u8>, i: nat, a: u16, j: nat, b: u16, k: nat, c: u16)
    requires i % 2 == 0 && j % 2 == 0 && k % 2 == 0 && i + 2 <= j && j + 2 <= k && k + 2 <= |s|
    ensures WordSum(PutBe16(PutBe16(PutBe16(s, i, a), j, b), k, c), 0) ==
      WordSum(s, 0) - Be16(s, i) + a - Be16(s, j) + b - Be16(s, k) + c
  {
    var s1 := PutBe16(s, i, a);
    PutSum(s, i, a);
    PutElsewhere(s, i, a, j);
    PutElsewhere(s, i, a, k);
    PutTwo(s1, j, b, k, c);
  }

  lemma PutTwo(s: seq<u8>, j: nat, b: u16, k: nat, c: u16)
    requires j % 2 == 0 && k % 2 == 0 && j + 2 <= k && k + 2 <= |s|
    ensures WordSum(PutBe16(PutBe16(s, j, b), k, c), 0) == WordSum(s, 0) - Be16(s, j) + b - Be16(s, k) + c
  {
    PutSum(s, j, b);
    PutElsewhere(s, j, b, k);
    PutSum(PutBe16(s, j, b), k, c);
  }

  /** What the rewrite does to the sum of all words. */
  lemma RewrittenSum(s: seq<u8>, newSeq: u32)
    requires |s| >= 20
    ensures var high, low := newSeq / TWO16, newSeq % TWO16;
      WordSum(Rewritten(s, newSeq), 0) ==
        WordSum(s, 0) - Be16(s, SEQ) + high - Be16(s, SEQ + 2) + low
          - Be16(s, CHECK) + Updated(Be16(s, CHECK), Be16(s, SEQ), Be16(s, SEQ + 2), high, low)
  {
    var high, low := newSeq / TWO16, newSeq % TWO16;
    ThreePuts(s, SEQ, high, SEQ + 2, low, CHECK, Updated(Be16(s, CHECK), Be16(s, SEQ), Be16(s, SEQ + 2), high, low));
  }

  lemma {:induction false} SumAtLeast(s: seq<u8>, i: nat, at: nat)
    requires at <= i && i + 2 <= |s| && (i - at) % 2 == 0
    ensures Be16(s, i) <= WordSum(s, at)
    decreases i - at
  {
    if at < i {
      SumAtLeast(s, i, at + 2);
    }
  }

  /** The three words are part of the sum. */
  lemma {:induction false} ThreeWords(s: seq<u8>)
    requires |s| >= 20
    ensures Be16(s, SEQ) + Be16(s, SEQ + 2) + Be16(s, CHECK) <= WordSum(s, 0)
  {
    assert WordSum(s, 0) == Be16(s, 0) + WordSum(s, 2);
    assert WordSum(s, 2) == Be16(s, 2) + WordSum(s, 4);
    assert WordSum(s, 4) == Be16(s, 4) + WordSum(s, 6);
    assert WordSum(s, 6) == Be16(s, 6) + WordSum(s, 8);
    SumAtLeast(s, CHECK, 8);
  }

  /** Whatever the cookie, the rewritten segment verifies exactly when the original did: for every
      length, every other byte and every pseudo-header, some flag being set. */
  lemma RewriteKeepsVerdict(s: seq<u8>, newSeq: u32, pseudoHeader: nat)
    requires |s| >= 20 && s[13] > 0
    ensures Verifies(Rewritten(s, newSeq), pseudoHeader) <==> Verifies(s, pseudoHeader)
  {
    var t := Rewritten(s, newSeq);
    var x, y := pseudoHeader + WordSum(s, 0), pseudoHeader + WordSum(t, 0);
    AllOnesIff(x);
    AllOnesIff(y);
    SumAtLeast(s, 12, 0);
    SumAtLeast(t, 12, 0);
    assert t[FLAGS] == s[FLAGS] && Be16(s, 12) > 0 && Be16(t, 12) > 0;
    RewrittenSum(s, newSeq);
    ThreeWords(s);
    UpdatedBalances(Be16(s, CHECK), Be16(s, SEQ), Be16(s, SEQ + 2), newSeq / TWO16, newSeq % TWO16,
      x - Be16(s, CHECK) - Be16(s, SEQ) - Be16(s, SEQ + 2));
  }
}
