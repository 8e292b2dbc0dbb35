/** The CIDR index of src/user/config/RiskIndicators.hpp: networks grouped by their mask, so that a
    look-up tries one hash per distinct mask instead of one range per entry. */
module CidrIndex {
  import opened Machine

  // ----- 32-bit words, bit by bit -----

  function Pow2(n: nat): (r: nat)
    ensures r > 0
  {
    if n == 0 then 1 else 2 * Pow2(n - 1)
  }

  /** Bitwise and of the low `n` bits. */
  function And(a: nat, b: nat, n: nat): (r: nat)
    ensures r < Pow2(n)
  {
    if n == 0 then 0 else a % 2 * (b % 2) + 2 * And(a / 2, b / 2, n - 1)
  }

  lemma Pow2Is32()
    ensures Pow2(32) == TWO32
  {
    assert Pow2(8) == 256;
    assert Pow2(16) == TWO16;
    assert Pow2(24) == 256 * TWO16;
  }

  function And32(a: u32, b: u32): u32 {
    Pow2Is32();
    And(a, b, 32)
  }

  /** ~0U << (32 - prefix), and 0 for the prefix 0, whose shift C leaves undefined. */
  function MaskOf(prefix: int): u32
    requires 0 <= prefix <= 32
  {
    if prefix == 0 then 0 else Wrap32(0xFFFF_FFFF * Pow2(32 - prefix))
  }

  // ----- the index -----

  /** What std::stoi makes of a text: a number, or one of its two exceptions. */
  datatype Number = Int(n: int) | NoDigits | TooLarge

  /** The conversions of the C and C++ libraries, of which nothing is taken for granted: inet_pton for
      dotted addresses, in host order, and std::stoi. */
  datatype Library = Library(pton: string -> Option<u32>, stoi: string -> Number)

  datatype Range = Range(network: u32, mask: u32)

  datatype Error = BadNumber | PrefixOutOfRange | InvalidAddress

  datatype Result = Ok(range: Range) | Err(error: Error)

  /** Where the first slash is; the length when there is none. */
  function Slash(text: string): (n: nat)
    ensures n <= |text|
  {
    if text == "" || text[0] == '/' then 0 else 1 + Slash(text[1..])
  }

  predicate IsBare(text: string) { Slash(text) == |text| }

  /** The part before the slash, and the number after it. */
  function AddressPart(text: string): string { text[..Slash(text)] }

  function PrefixPart(lib: Library, text: string): Number
    requires !IsBare(text)
  {
    lib.stoi(text[Slash(text) + 1..])
  }

  /** parseCidr: the number is converted first, then checked, then the address is converted. */
  function ParseCidr(lib: Library, text: string): Result {
    var address := lib.pton(AddressPart(text));
    if IsBare(text) then
      if address.None? then Err(InvalidAddress) else Ok(Range(address.value, 0xFFFF_FFFF))
    else
      match PrefixPart(lib, text)
      case NoDigits => Err(BadNumber)
      case TooLarge => Err(BadNumber)
      case Int(prefix) =>
        if prefix < 0 || prefix > 32 then Err(PrefixOutOfRange)
        else if address.None? then Err(InvalidAddress)
        else Ok(Range(And32(address.value, MaskOf(prefix)), MaskOf(prefix)))
  }

  /** The first slash splits the text: none before it, and the rest behind it. */
  lemma {:induction false} SlashSplits(text: string)
    ensures '/' !in AddressPart(text)
    ensures !IsBare(text) ==> text == AddressPart(text) + ['/'] + text[Slash(text) + 1..]
  {
    if text != "" && text[0] != '/' {
      SlashSplits(text[1..]);
      assert AddressPart(text) == [text[0]] + AddressPart(text[1..]);
    }
  }

  type Index = map<u32, set<u32>>

  /** The index after trying to insert one more entry. */
  function Extended(lib: Library, m: Index, t: string): Index {
    match ParseCidr(lib, t)
    case Err(_) => m
    case Ok(r) => m[r.mask := (if r.mask in m then m[r.mask] else {}) + {r.network}]
  }

  ghost predicate Matches(m: Index, v: u32) {
    exists mask :: mask in m && And32(v, mask) in m[mask]
  }

  class RiskIndicators {
    const lib: Library
    var cidrsMap: Index

    constructor (lib: Library)
      ensures this.lib == lib && cidrsMap == map[]
    {
      this.lib := lib;
      cidrsMap := map[];
    }

    /** addCidrRange: what parseCidr throws leaves the index alone. */
    method AddCidrRange(t: string) returns (thrown: Option<Error>)
      modifies this
      ensures cidrsMap == Extended(lib, old(cidrsMap), t)
      ensures thrown == if ParseCidr(lib, t).Err? then Some(ParseCidr(lib, t).error) else None
    {
      var parsed := ParseCidr(lib, t);
      if parsed.Err? {
        return Some(parsed.error);
      }
      var networks := if parsed.range.mask in cidrsMap then cidrsMap[parsed.range.mask] else {};
      cidrsMap := cidrsMap[parsed.range.mask := networks + {parsed.range.network}];
      return None;
    }

    /** isMatchCidr */
    method IsMatchCidr(value: u32) returns (found: bool)
      ensures found <==> Matches(cidrsMap, value)
    {
      var rest := cidrsMap.Keys;
      while rest != {}
        invariant rest <= cidrsMap.Keys
        invariant forall mask :: mask in cidrsMap && mask !in rest ==> And32(value, mask) !in cidrsMap[mask]
        decreases |rest|
      {
        var mask :| mask in rest;
        if And32(value, mask) in cidrsMap[mask] {
          return true;
        }
        rest := rest - {mask};
      }
      return false;
    }
  }

  /** The index after a sequence of insertions, some of which may throw. */
  function Build(lib: Library, ts: seq<string>, n: nat): Index
    requires n <= |ts|
  {
    if n == 0 then map[] else Extended(lib, Build(lib, ts, n - 1), ts[n - 1])
  }

  // ----- masks are intervals -----

  lemma SplitMod2(v: nat, p: nat)
    requires p > 0
    ensures v % (2 * p) == v % 2 + 2 * (v / 2 % p)
  {
    var a, b := v / 2 / p, v / 2 % p;
    var t := v % 2 + 2 * b;
    assert v == (2 * p) * a + t by {
      assert v / 2 == p * a + b;
      assert v == 2 * (v / 2) + v % 2;
    }
    DivModUnique(v, 2 * p, a, t);
  }

  lemma Pow2Monotone(k: nat, n: nat)
    requires k <= n
    ensures Pow2(k) <= Pow2(n)
    decreases n
  {
    if k < n {
      Pow2Monotone(k, n - 1);
    }
  }

  lemma {:induction false} AndOnes(v: nat, n: nat)
    requires v < Pow2(n)
    ensures And(v, Pow2(n) - 1, n) == v
    decreases n
  {
    if n > 0 {
      AndOnes(v / 2, n - 1);
    }
  }

  ghost predicate Clears(v: nat, p: nat, q: nat, n: nat)
    requires 0 < p <= q
  {
    And(v, q - p, n) == v - v % p
  }

  /** A mask of ones over `k` zeros clears the remainder modulo 2^k. */
  lemma {:induction false} AndMask(v: nat, k: nat, n: nat)
    requires k <= n && v < Pow2(n)
    ensures Pow2(k) <= Pow2(n) && Clears(v, Pow2(k), Pow2(n), n)
    decreases n
  {
    Pow2Monotone(k, n);
    if k == 0 {
      AndOnes(v, n);
      assert v % 1 == 0;
    } else {
      AndMask(v / 2, k - 1, n - 1);
      MaskHalves(v, Pow2(k - 1), Pow2(n - 1), n);
    }
  }

  lemma {:induction false} MaskHalves(v: nat, p: nat, q: nat, n: nat)
    requires n > 0 && 0 < p <= q && Clears(v / 2, p, q, n - 1)
    ensures Clears(v, 2 * p, 2 * q, n)
  {
    AndHalves(v, q - p, n);
    SplitMod2(v, p);
  }

  /** And with an even number, by halves. */
  lemma AndHalves(v: nat, half: nat, n: nat)
    requires n > 0
    ensures And(v, 2 * half, n) == 2 * And(v / 2, half, n - 1)
  {
    assert 2 * half % 2 == 0 && 2 * half / 2 == half;
  }

  /** The shifted mask is the one with `32 - prefix` zeros. */
  lemma MaskIs(prefix: int)
    requires 0 <= prefix <= 32
    ensures Pow2(32 - prefix) <= TWO32 && MaskOf(prefix) == TWO32 - Pow2(32 - prefix)
  {
    Pow2Is32();
    AndMask(0, 32 - prefix, 32);
    if prefix > 0 {
      var d := Pow2(32 - prefix);
      AndMask(0, 32 - prefix, 31);
      assert 0xFFFF_FFFF * d == TWO32 * (d - 1) + (TWO32 - d);
      DivModUnique(0xFFFF_FFFF * d, TWO32, d - 1, TWO32 - d);
    }
  }

  /** Masking with a prefix rounds down to a multiple of 2^(32 - prefix). */
  lemma Masked(v: u32, prefix: int)
    requires 0 <= prefix <= 32
    ensures And32(v, MaskOf(prefix)) == v - v % Pow2(32 - prefix)
  {
    Pow2Is32();
    MaskIs(prefix);
    AndMask(v, 32 - prefix, 32);
  }

  lemma SameBlockIff(v: nat, a: nat, d: nat)
    requires d > 0
    ensures v - v % d == a - a % d <==> a - a % d <= v < a - a % d + d
  {
    if a - a % d <= v < a - a % d + d {
      assert v == d * (a / d) + (v - (a - a % d));
      DivModUnique(v, d, a / d, v - (a - a % d));
    }
  }

  // ----- the plain list of blocks -----

  /** The text is an address, with or without a prefix length from 0 to 32, as the library reads its parts. */
  predicate WellFormed(lib: Library, t: string) {
    && lib.pton(AddressPart(t)).Some?
    && (IsBare(t) || (PrefixPart(lib, t).Int? && 0 <= PrefixPart(lib, t).n <= 32))
  }

  /** The two numbers it says; 32 bits when there is no prefix length. */
  function AddressOf(lib: Library, t: string): u32
    requires WellFormed(lib, t)
  {
    lib.pton(AddressPart(t)).value
  }

  function PrefixOf(lib: Library, t: string): int
    requires WellFormed(lib, t)
  {
    if IsBare(t) then 32 else PrefixPart(lib, t).n
  }

  /** The well-formed texts are accepted, and no others; of the others, one with a bad number is refused for
      it, then one with a number out of range, and only then one with a bad address. */
  lemma ParsesIff(lib: Library, t: string)
    ensures ParseCidr(lib, t).Ok? <==> WellFormed(lib, t)
    ensures ParseCidr(lib, t) == Err(BadNumber) <==> !IsBare(t) && !PrefixPart(lib, t).Int?
    ensures ParseCidr(lib, t) == Err(PrefixOutOfRange) <==>
      !IsBare(t) && PrefixPart(lib, t).Int? && !(0 <= PrefixPart(lib, t).n <= 32)
  {
  }

  /** The addresses a text stands for: those that agree with its own in the first `prefix` bits, that is, the
      block of 2^(32 - prefix) that holds it. */
  predicate Covers(lib: Library, t: string, v: u32) {
    WellFormed(lib, t) &&
    var a, size := AddressOf(lib, t), Pow2(32 - PrefixOf(lib, t));
    a - a % size <= v < a - a % size + size
  }

  /** The masked comparison is membership in the block. */
  lemma CoversIff(lib: Library, t: string, v: u32)
    requires WellFormed(lib, t)
    ensures ParseCidr(lib, t).Ok?
    ensures Covers(lib, t, v) <==> And32(v, ParseCidr(lib, t).range.mask) == ParseCidr(lib, t).range.network
  {
    var p := PrefixOf(lib, t);
    MaskIs(32);
    Masked(v, p);
    Masked(AddressOf(lib, t), p);
    assert Pow2(0) == 1;
    SameBlockIff(v, AddressOf(lib, t), Pow2(32 - p));
  }

  lemma RoundedDown(a: nat, d: nat)
    requires d > 0
    ensures (a - a % d) % d == 0 && a - a % d <= a < a - a % d + d
  {
    assert a - a % d == d * (a / d) + 0;
    DivModUnique(a - a % d, d, a / d, 0);
  }

  /** The network of a well-formed text is the start of an aligned block that holds its address. */
  lemma NetworkIsAligned(lib: Library, t: string)
    requires WellFormed(lib, t)
    ensures ParseCidr(lib, t).Ok? && ParseCidr(lib, t).range.network % Pow2(32 - PrefixOf(lib, t)) == 0
    ensures Covers(lib, t, AddressOf(lib, t))
  {
    var a, p := AddressOf(lib, t), PrefixOf(lib, t);
    MaskIs(32);
    assert Pow2(0) == 1;
    Masked(a, p);
    RoundedDown(a, Pow2(32 - p));
  }

  lemma ExtendedMatches(lib: Library, m: Index, t: string, v: u32)
    ensures Matches(Extended(lib, m, t), v) <==> Matches(m, v) || Covers(lib, t, v)
  {
    ParsesIff(lib, t);
    if WellFormed(lib, t) {
      CoversIff(lib, t, v);
      var r := ParseCidr(lib, t).range;
      var m1 := Extended(lib, m, t);
      if Matches(m1, v) {
        var mask :| mask in m1 && And32(v, mask) in m1[mask];
        assert mask != r.mask ==> mask in m && And32(v, mask) in m[mask];
      }
      if Matches(m, v) {
        var mask :| mask in m && And32(v, mask) in m[mask];
        assert mask in m1 && And32(v, mask) in m1[mask];
      }
      if Covers(lib, t, v) {
        assert r.mask in m1 && And32(v, r.mask) in m1[r.mask];
      }
    }
  }

  /** After any sequence of insertions the index matches an address exactly when it lies in the block of some
      well-formed text among them. */
  lemma {:induction false} MatchIffCovered(lib: Library, ts: seq<string>, n: nat, v: u32)
    requires n <= |ts|
    ensures Matches(Build(lib, ts, n), v) <==> exists i :: 0 <= i < n && Covers(lib, ts[i], v)
  {
    if n > 0 {
      MatchIffCovered(lib, ts, n - 1, v);
      ExtendedMatches(lib, Build(lib, ts, n - 1), ts[n - 1], v);
    }
  }
}
