/** compute_ja3_client of src/user/servie/impl/L7DpiEngine.cpp up to the hash: what it reads
    from a TLS record, and the offset-driven loops that read it. */
module Ja3Parsing {
  import opened Machine
  import opened Ja3Printing

  /** The sixteen reserved values of section 2 of RFC 8701. */
  predicate IsGrease(v: u16) {
    || v == 0x0A0A || v == 0x1A1A || v == 0x2A2A || v == 0x3A3A
    || v == 0x4A4A || v == 0x5A5A || v == 0x6A6A || v == 0x7A7A
    || v == 0x8A8A || v == 0x9A9A || v == 0xAAAA || v == 0xBABA
    || v == 0xCACA || v == 0xDADA || v == 0xEAEA || v == 0xFAFA
  }

  /** is_grease_value: (val & 0x0F0F) == 0x0A0A and the two bytes are equal, with the masks and
      the shift written as remainders and quotients. It recognises exactly the reserved values. */
  function IsGreaseValue(v: u16): (r: bool)
    ensures r <==> IsGrease(v)
  {
    v % 16 == 10 && v / 256 % 16 == 10 && v / 256 == v % 256
  }

  function NoGrease(vs: seq<u16>): seq<u16> {
    if vs == [] then [] else (if IsGrease(vs[0]) then [] else [vs[0]]) + NoGrease(vs[1..])
  }

  /** The reserved values are 0x0A0A, 0x1A1A and so on to 0xFAFA. */
  lemma GreaseIff(v: u16)
    ensures IsGrease(v) <==> exists k :: 0 <= k < 16 && v == 0x0A0A + 0x1010 * k
  {
    if IsGrease(v) {
      var k := (v - 0x0A0A) / 0x1010;
      assert v == 0x0A0A + 0x1010 * k;
    }
  }

  /** The big-endian 16-bit words in [i, end); an odd last byte is ignored. */
  function WordsAt(p: seq<u8>, i: nat, end: nat): seq<u16>
    requires end <= |p|
    decreases end - i
  {
    if i + 2 > end then [] else [Be16(p, i)] + WordsAt(p, i + 2, end)
  }

  /** Whether an extension fits at `i` before `end`, and where it ends. */
  predicate Fits(p: seq<u8>, i: nat, end: nat)
    requires end <= |p|
  {
    i + 4 <= end && i + 4 + Be16(p, i + 2) <= end
  }

  function EndAt(p: seq<u8>, i: nat): nat
    requires i + 4 <= |p|
  {
    i + 4 + Be16(p, i + 2) as nat
  }

  /** Curves of a supported-groups extension with data in [start, end): as many words as the
      list length says, cut at the end of the data. */
  function CurvesIn(p: seq<u8>, etype: u16, start: nat, end: nat): seq<u16>
    requires end <= |p|
  {
    if etype != 0x000a || start + 2 > end then []
    else WordsAt(p, start + 2, Min(start + 2 + Be16(p, start), end))
  }

  /** Formats of a point-formats extension, likewise. */
  function FormatsIn(p: seq<u8>, etype: u16, start: nat, end: nat): seq<u8>
    requires end <= |p|
  {
    if etype != 0x000b || start + 1 > end then []
    else p[start + 1..Min(start + 1 + p[start], end)]
  }

  /** Types, curves and formats of the extensions in [i, end), up to the first that does not fit. */
  function TypesAt(p: seq<u8>, i: nat, end: nat): seq<u16>
    requires end <= |p|
    decreases end - i
  {
    if !Fits(p, i, end) then [] else [Be16(p, i)] + TypesAt(p, EndAt(p, i), end)
  }

  function CurvesAt(p: seq<u8>, i: nat, end: nat): seq<u16>
    requires end <= |p|
    decreases end - i
  {
    if !Fits(p, i, end) then []
    else CurvesIn(p, Be16(p, i), i + 4, EndAt(p, i)) + CurvesAt(p, EndAt(p, i), end)
  }

  function FormatsAt(p: seq<u8>, i: nat, end: nat): seq<u8>
    requires end <= |p|
    decreases end - i
  {
    if !Fits(p, i, end) then []
    else FormatsIn(p, Be16(p, i), i + 4, EndAt(p, i)) + FormatsAt(p, EndAt(p, i), end)
  }

  lemma {:induction false} WordsLength(p: seq<u8>, i: nat, end: nat)
    requires i <= end <= |p|
    ensures |WordsAt(p, i, end)| == (end - i) / 2
    decreases end - i
  {
    if i + 2 <= end {
      WordsLength(p, i + 2, end);
    }
  }

  lemma {:induction false} WordIs(p: seq<u8>, i: nat, end: nat, k: nat)
    requires end <= |p| && i + 2 * k + 2 <= end
    ensures k < |WordsAt(p, i, end)| && WordsAt(p, i, end)[k] == Be16(p, i + 2 * k)
    decreases k
  {
    if k > 0 {
      var next := i + 2;
      WordIs(p, next, end, k - 1);
      assert next + 2 * (k - 1) == i + 2 * k;
    }
  }

  lemma {:induction false} WordsAre(p: seq<u8>, i: nat, end: nat)
    requires i <= end <= |p|
    ensures |WordsAt(p, i, end)| == (end - i) / 2
    ensures forall k :: 0 <= k < (end - i) / 2 ==> WordsAt(p, i, end)[k] == Be16(p, i + 2 * k)
  {
    WordsLength(p, i, end);
    forall k | 0 <= k < (end - i) / 2 ensures WordsAt(p, i, end)[k] == Be16(p, i + 2 * k) {
      WordIs(p, i, end, k);
    }
  }

  /** Whatever an extension with data in [start, end) says: only supported groups give curves, and these are the
      words behind the list length, as many as it claims and as are there. */
  lemma {:induction false} CurvesAre(p: seq<u8>, etype: u16, start: nat, end: nat)
    requires start <= end <= |p|
    ensures var curves := CurvesIn(p, etype, start, end);
      if etype != 10 || end - start < 2 then curves == []
      else
        && |curves| == Min(Be16(p, start), end - start - 2) / 2
        && forall k :: 0 <= k < |curves| ==> curves[k] == Be16(p, start + 2 + 2 * k)
  {
    if etype == 10 && start + 2 <= end {
      WordsAre(p, start + 2, Min(start + 2 + Be16(p, start), end));
    }
  }

  /** Only point formats give formats, the bytes behind the list length, likewise. */
  lemma FormatsAre(p: seq<u8>, etype: u16, start: nat, end: nat)
    requires start <= end <= |p|
    ensures var formats := FormatsIn(p, etype, start, end);
      if etype != 11 || end == start then formats == []
      else
        && |formats| == Min(p[start], end - start - 1)
        && forall k :: 0 <= k < |formats| ==> formats[k] == p[start + 1 + k]
  {
  }

  /** `OutOfBounds`: an odd cipher length made the last word reach past the end of the payload. */
  datatype Parsed = Rejected | OutOfBounds | Read(fields: Fields)

  function ParseHello(p: seq<u8>): Parsed {
    if |p| < 44 || p[0] != 0x16 || p[5] != 0x01 then Rejected
    else ParseCiphers(p, 44 + p[43] as nat, Be16(p, 9))
  }

  /** Every access of the cipher loop from its counter `i` on falls inside the payload: the loop runs
      while `i < n`, in steps of two, and reads the bytes at `off + i` and `off + i + 1`. */
  predicate LoopFits(p: seq<u8>, off: nat, i: nat, n: nat)
    decreases n - i
  {
    i < n ==> off + i < |p| && off + i + 1 < |p| && LoopFits(p, off, i + 2, n)
  }

  /** The words that loop reads. */
  function LoopWords(p: seq<u8>, off: nat, i: nat, n: nat): seq<u16>
    requires LoopFits(p, off, i, n)
    decreases n - i
  {
    if i < n then [Be16(p, off + i)] + LoopWords(p, off, i + 2, n) else []
  }

  /** From the cipher suite length at `i` on. */
  function ParseCiphers(p: seq<u8>, i: nat, version: u16): Parsed {
    if |p| < i + 2 || |p| < i + 2 + Be16(p, i) then Rejected
    else
      var n: nat := Be16(p, i);
      if LoopFits(p, i + 2, 0, n) then ParseRest(p, i + 2 + n, version, LoopWords(p, i + 2, 0, n)) else OutOfBounds
  }

  /** From the compression methods at `i` on. */
  function ParseRest(p: seq<u8>, i: nat, version: u16, ciphers: seq<u16>): Parsed {
    if |p| < i + 1 then Rejected
    else
      var at := i + 1 + p[i] as nat;
      var end := BlockEnd(p, at);
      Read(Fields(version, NoGrease(ciphers),
                  NoGrease(TypesAt(p, at + 2, end)), NoGrease(CurvesAt(p, at + 2, end)), FormatsAt(p, at + 2, end)))
  }

  /** Where the extension block with its length at `at` ends; a hello may end before it. */
  function BlockEnd(p: seq<u8>, at: nat): (end: nat)
    ensures end <= |p|
  {
    if |p| < at + 2 then 0 else Min(at + 2 + Be16(p, at), |p|)
  }

  /** The loop leaves the payload exactly when its length is odd and ends where the payload ends. */
  lemma {:induction false} LoopFitsIff(p: seq<u8>, off: nat, i: nat, n: nat)
    requires i % 2 == 0 && i <= n && off + n <= |p|
    ensures LoopFits(p, off, i, n) <==> n % 2 == 0 || off + n < |p|
    decreases n - i
  {
    if i + 2 <= n {
      LoopFitsIff(p, off, i + 2, n);
    }
  }

  /** A loop of even length reads the words of its range. */
  lemma {:induction false} EvenLoop(p: seq<u8>, off: nat, i: nat, n: nat)
    requires i % 2 == 0 && n % 2 == 0 && i <= n && off + n <= |p|
    ensures LoopFits(p, off, i, n) && LoopWords(p, off, i, n) == WordsAt(p, off + i, off + n)
    decreases n - i
  {
    if i < n {
      EvenLoop(p, off, i + 2, n);
    }
  }

  /** Which payloads make the reader read past its end: exactly those whose odd cipher length ends
      where the payload ends. Even lengths never do. */
  lemma FaultIff(p: seq<u8>)
    ensures ParseHello(p).OutOfBounds? <==>
      && |p| >= 44 && p[0] == 0x16 && p[5] == 0x01
      && var at: nat := 44 + p[43] as nat;
      && |p| >= at + 2
      && Be16(p, at) % 2 == 1
      && |p| == at + 2 + Be16(p, at)
  {
    if |p| >= 44 {
      var at := 44 + p[43] as nat;
      if |p| >= at + 2 && |p| >= at + 2 + Be16(p, at) {
        LoopFitsIff(p, at + 2, 0, Be16(p, at));
      }
    }
  }

  /** Which payloads give the empty string: what is not a ClientHello record, and what is cut off before its
      compression methods are known. */
  lemma {:induction false} EmptyIff(p: seq<u8>)
    ensures ParseHello(p).Rejected? <==>
      || |p| < 44 || p[0] != 0x16 || p[5] != 0x01
      || (var at: nat := 44 + p[43] as nat;
          || |p| < at + 2
          || (var end := at + 2 + Be16(p, at);
              |p| < end || (|p| == end && Be16(p, at) % 2 == 0)))
  {
    if |p| >= 44 {
      var at := 44 + p[43] as nat;
      if |p| >= at + 2 && |p| >= at + 2 + Be16(p, at) {
        LoopFitsIff(p, at + 2, 0, Be16(p, at));
      }
    }
  }

  /** A payload of 47 bytes that is read past its end: an empty session id and one byte of cipher suites. */
  function Truncated(): seq<u8> {
    [0x16, 3, 1, 0, 42, 0x01, 0, 0, 38, 3, 3] + seq(32, _ => 0) + [0, 0, 1, 0x13]
  }

  lemma TruncatedFaults()
    ensures |Truncated()| == 47 && ParseHello(Truncated()) == OutOfBounds
  {
    var p := Truncated();
    assert p[0] == 0x16 && p[5] == 0x01 && p[43] == 0 && p[44] == 0 && p[45] == 1;
    FaultIff(p);
  }

  // ----- the loops -----

  datatype Outcome = Empty | Fault | PreHashed(text: string)

  function Expected(p: Parsed): Outcome {
    match p
    case Rejected => Empty
    case OutOfBounds => Fault
    case Read(f) => PreHashed(PreHash(f))
  }

  lemma {:induction false} DecimalsAppend(a: seq<nat>, b: seq<nat>)
    ensures Decimals(a + b) == Decimals(a) + Decimals(b)
  {
    if a == [] {
      assert a + b == b;
    } else {
      assert (a + b)[1..] == a[1..] + b;
      DecimalsAppend(a[1..], b);
    }
  }

  lemma {:induction false} NoGreaseAppend(a: seq<u16>, b: seq<u16>)
    ensures NoGrease(a + b) == NoGrease(a) + NoGrease(b)
  {
    if a == [] {
      assert a + b == b;
    } else {
      assert (a + b)[1..] == a[1..] + b;
      NoGreaseAppend(a[1..], b);
    }
  }

  /** The filter decides on each value alone: a GREASE value is left out, any other kept where it stands. */
  lemma {:induction false} NoGreaseIs(a: seq<u16>, v: u16, b: seq<u16>)
    ensures NoGrease([]) == []
    ensures NoGrease(a + [v] + b) == NoGrease(a) + (if IsGrease(v) then [] else [v]) + NoGrease(b)
  {
    NoGreaseAppend(a + [v], b);
    NoGreaseAppend(a, [v]);
    assert [v][1..] == [];
    assert NoGrease([v]) == (if IsGrease(v) then [] else [v]) + NoGrease([]);
  }

  lemma PushMany(out: seq<string>, a: seq<nat>, b: seq<nat>)
    ensures out + Decimals(a + b) == (out + Decimals(a)) + Decimals(b)
  {
    DecimalsAppend(a, b);
    Associate(out, Decimals(a), Decimals(b));
  }

  lemma PushWords(out: seq<string>, a: seq<u16>, b: seq<u16>)
    ensures out + Decimals(NoGrease(a + b)) == (out + Decimals(NoGrease(a))) + Decimals(NoGrease(b))
  {
    NoGreaseAppend(a, b);
    PushMany(out, NoGrease(a), NoGrease(b));
  }

  lemma OneWord(out: seq<string>, v: u16)
    ensures out + Decimals(NoGrease([v])) == if IsGrease(v) then out else out + [Decimal(v)]
  {
    assert [v][1..] == [];
    if IsGrease(v) {
      assert NoGrease([v]) == [];
    } else {
      assert NoGrease([v]) == [v];
      assert [v as nat][1..] == [];
    }
  }

  lemma {:induction false} JoinMore(v: seq<string>, next: string, separator: char)
    ensures Join(v + [next], separator) == if v == [] then next else Join(v, separator) + [separator] + next
  {
    if v != [] {
      JoinMore(v[1..], next, separator);
      assert (v + [next])[1..] == v[1..] + [next];
    }
  }

  method JoinStrings(v: seq<string>, separator: char) returns (s: string)
    ensures s == Join(v, separator)
  {
    s := "";
    for i := 0 to |v|
      invariant s == Join(v[..i], separator)
    {
      JoinMore(v[..i], v[i], separator);
      assert v[..i + 1] == v[..i] + [v[i]];
      if i != 0 {
        s := s + [separator];
      }
      s := s + v[i];
    }
    assert v[..|v|] == v;
  }

  /** The words of `p` in [off, end) without GREASE, as decimal strings added to `out`. */
  method ReadWords(p: seq<u8>, off: nat, end: nat, out: seq<string>) returns (r: seq<string>)
    requires off <= end <= |p|
    ensures r == out + Decimals(NoGrease(WordsAt(p, off, end)))
  {
    r := out;
    var i := off;
    ghost var total := out + Decimals(NoGrease(WordsAt(p, off, end)));
    while i + 2 <= end
      invariant off <= i <= end
      invariant r + Decimals(NoGrease(WordsAt(p, i, end))) == total
    {
      var w := Be16(p, i);
      PushWords(r, [w], WordsAt(p, i + 2, end));
      OneWord(r, w);
      if !IsGreaseValue(w) { r := r + [Decimal(w)]; }
      i := i + 2;
    }
  }

  /** The loop over the cipher suites, access by access: `inside` is false when one of them falls past
      the end of the payload. */
  method ReadSuites(p: seq<u8>, offset: nat, n: nat) returns (inside: bool, ciphers: seq<string>)
    ensures inside <==> LoopFits(p, offset, 0, n)
    ensures inside ==> ciphers == Decimals(NoGrease(LoopWords(p, offset, 0, n)))
  {
    ciphers := [];
    var i := 0;
    if LoopFits(p, offset, 0, n) {
      NothingBefore(Decimals(NoGrease(LoopWords(p, offset, 0, n))));
    }
    while i < n
      invariant LoopFits(p, offset, 0, n) <==> LoopFits(p, offset, i, n)
      invariant LoopFits(p, offset, i, n) ==>
        ciphers + Decimals(NoGrease(LoopWords(p, offset, i, n))) == Decimals(NoGrease(LoopWords(p, offset, 0, n)))
      decreases n - i
    {
      if offset + i >= |p| { return false, ciphers; }
      var high := p[offset + i];
      if offset + i + 1 >= |p| { return false, ciphers; }
      var low := p[offset + i + 1];
      var cs: u16 := 256 * (high as int) + low as int;
      if LoopFits(p, offset, i + 2, n) {
        PushWords(ciphers, [cs], LoopWords(p, offset, i + 2, n));
      }
      OneWord(ciphers, cs);
      if !IsGreaseValue(cs) { ciphers := ciphers + [Decimal(cs)]; }
      i := i + 2;
    }
    NothingAfter(ciphers);
    return true, ciphers;
  }

  method ReadFormats(p: seq<u8>, off: nat, end: nat, out: seq<string>) returns (r: seq<string>)
    requires off <= end <= |p|
    ensures r == out + Decimals(p[off..end])
  {
    r := out;
    var i := off;
    while i < end
      invariant off <= i <= end
      invariant r + Decimals(p[i..end]) == out + Decimals(p[off..end])
    {
      assert p[i..end] == [p[i]] + p[i + 1..end];
      r := r + [Decimal(p[i])];
      i := i + 1;
    }
    assert p[end..end] == [];
  }

  method ReadType(etype: u16, out: seq<string>) returns (r: seq<string>)
    ensures r == out + Decimals(NoGrease([etype]))
  {
    OneWord(out, etype);
    r := if IsGreaseValue(etype) then out else out + [Decimal(etype)];
  }

  method ReadCurves(p: seq<u8>, etype: u16, start: nat, end: nat, out: seq<string>) returns (r: seq<string>)
    requires start <= end <= |p|
    ensures r == out + Decimals(NoGrease(CurvesIn(p, etype, start, end)))
  {
    if etype == 0x000a && end - start >= 2 {
      var curvesLen := Be16(p, start);
      r := ReadWords(p, start + 2, Min(start + 2 + curvesLen, end), out);
    } else {
      NothingAfter(out);
      r := out;
    }
  }

  method ReadPointFormats(p: seq<u8>, etype: u16, start: nat, end: nat, out: seq<string>) returns (r: seq<string>)
    requires start <= end <= |p|
    ensures r == out + Decimals(FormatsIn(p, etype, start, end))
  {
    if etype == 0x000b && end - start >= 1 {
      var fmtLen := p[start];
      r := ReadFormats(p, start + 1, Min(start + 1 + fmtLen, end), out);
    } else {
      NothingAfter(out);
      r := out;
    }
  }

  /** The loop over the extensions in [start, extEnd). */
  method WalkBlock(p: seq<u8>, start: nat, extEnd: nat)
    returns (exts: seq<string>, curves: seq<string>, formats: seq<string>)
    requires start <= extEnd <= |p|
    ensures exts == Decimals(NoGrease(TypesAt(p, start, extEnd)))
    ensures curves == Decimals(NoGrease(CurvesAt(p, start, extEnd)))
    ensures formats == Decimals(FormatsAt(p, start, extEnd))
  {
    exts, curves, formats := [], [], [];
    var offset := start;
    ghost var allTypes := Decimals(NoGrease(TypesAt(p, start, extEnd)));
    ghost var allCurves := Decimals(NoGrease(CurvesAt(p, start, extEnd)));
    ghost var allFormats := Decimals(FormatsAt(p, start, extEnd));
    NothingBefore(allTypes);
    NothingBefore(allCurves);
    NothingBefore(allFormats);
    while offset + 4 <= extEnd
      invariant offset <= extEnd
      invariant exts + Decimals(NoGrease(TypesAt(p, offset, extEnd))) == allTypes
      invariant curves + Decimals(NoGrease(CurvesAt(p, offset, extEnd))) == allCurves
      invariant formats + Decimals(FormatsAt(p, offset, extEnd)) == allFormats
      decreases extEnd - offset
    {
      if offset + 4 + Be16(p, offset + 2) > extEnd {
        break;
      }
      var extType := Be16(p, offset);
      var next := EndAt(p, offset);
      PushWords(exts, [extType], TypesAt(p, next, extEnd));
      PushWords(curves, CurvesIn(p, extType, offset + 4, next), CurvesAt(p, next, extEnd));
      PushMany(formats, FormatsIn(p, extType, offset + 4, next), FormatsAt(p, next, extEnd));
      exts := ReadType(extType, exts);
      curves := ReadCurves(p, extType, offset + 4, next, curves);
      formats := ReadPointFormats(p, extType, offset + 4, next, formats);
      offset := next;
    }
    NothingAfter(exts);
    NothingAfter(curves);
    NothingAfter(formats);
  }

  /** The extension part: nothing when fewer than two bytes are left. */
  method ReadExtensions(p: seq<u8>, at: nat) returns (exts: seq<string>, curves: seq<string>, formats: seq<string>)
    ensures var end := BlockEnd(p, at);
      && exts == Decimals(NoGrease(TypesAt(p, at + 2, end)))
      && curves == Decimals(NoGrease(CurvesAt(p, at + 2, end)))
      && formats == Decimals(FormatsAt(p, at + 2, end))
  {
    exts, curves, formats := [], [], [];
    if |p| >= at + 2 {
      var extTotalLen := Be16(p, at);
      exts, curves, formats := WalkBlock(p, at + 2, Min(at + 2 + extTotalLen, |p|));
    }
  }

  /** The five lists streamed into one string. */
  method Text(tlsVersion: u16, ciphers: seq<string>, exts: seq<string>, curves: seq<string>, formats: seq<string>)
    returns (text: string)
    ensures text == Join([Decimal(tlsVersion), Join(ciphers, '-'), Join(exts, '-'), Join(curves, '-'),
                          Join(formats, '-')], ',')
  {
    var cipherText := JoinStrings(ciphers, '-');
    var extensionText := JoinStrings(exts, '-');
    var curveText := JoinStrings(curves, '-');
    var formatText := JoinStrings(formats, '-');
    text := JoinStrings([Decimal(tlsVersion), cipherText, extensionText, curveText, formatText], ',');
  }

  /** From the compression methods on; `ciphers` is the list pushed so far. */
  method ReadRest(p: seq<u8>, start: nat, tlsVersion: u16, ciphers: seq<string>, ghost words: seq<u16>)
    returns (r: Outcome)
    requires ciphers == Decimals(NoGrease(words))
    ensures r == Expected(ParseRest(p, start, tlsVersion, words))
  {
    if |p| < start + 1 { return Empty; }
    var extensions, curves, formats := ReadExtensions(p, start + 1 + p[start] as nat);
    var text := Text(tlsVersion, ciphers, extensions, curves, formats);
    return PreHashed(text);
  }

  /** From the cipher suites on. */
  method ReadCiphers(p: seq<u8>, start: nat, tlsVersion: u16) returns (r: Outcome)
    ensures r == Expected(ParseCiphers(p, start, tlsVersion))
  {
    if |p| < start + 2 { return Empty; }
    var cipherSuitesLen: nat := Be16(p, start);
    var offset := start + 2;
    if |p| < offset + cipherSuitesLen { return Empty; }
    var inside, ciphers := ReadSuites(p, offset, cipherSuitesLen);
    if !inside { return Fault; }
    r := ReadRest(p, offset + cipherSuitesLen, tlsVersion, ciphers, LoopWords(p, offset, 0, cipherSuitesLen));
  }

  /** compute_ja3_client, returning the string that is hashed. `Fault` is the read past the end
      of the payload that an odd cipher length can cause. */
  method ComputeJa3Client(p: seq<u8>) returns (r: Outcome)
    ensures r == Expected(ParseHello(p))
  {
    if |p| < 5 || p[0] != 0x16 { return Empty; }
    var offset: nat := 5;
    if |p| < offset + 4 || p[offset] != 0x01 { return Empty; }
    offset := offset + 4;
    if |p| < offset + 2 { return Empty; }
    var tlsVersion := Be16(p, offset);
    offset := offset + 2;
    if |p| < offset + 32 { return Empty; }
    offset := offset + 32;
    if |p| < offset + 1 { return Empty; }
    offset := offset + 1 + p[offset] as nat;
    r := ReadCiphers(p, offset, tlsVersion);
  }
}
