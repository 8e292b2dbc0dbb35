/** Abstract TLS ClientHellos (section 4.1.2 of RFC 8446, section 7.4.1.2 of RFC 5246), their
    wire form, and what the JA3 reader makes of it. */
module ClientHello {
  import opened Machine
  import opened Ja3Printing
  import opened Wire
  import P = Ja3Parsing

  datatype Extension = Groups(curves: seq<u16>) | PointFormats(formats: seq<u8>) | Other(etype: u16, data: seq<u8>)

  datatype Hello = Hello(
    version: u16, random: seq<u8>, sessionId: seq<u8>, ciphers: seq<u16>, compression: seq<u8>,
    extensions: Option<seq<Extension>>)

  // ----- wire form -----

  function EncodeWords(ws: seq<u16>): (s: seq<u8>)
    ensures |s| == 2 * |ws|
  {
    if ws == [] then [] else Two(ws[0]) + EncodeWords(ws[1..])
  }

  function TypeOf(e: Extension): u16 {
    match e
    case Groups(_) => 0x000a
    case PointFormats(_) => 0x000b
    case Other(t, _) => t
  }

  predicate ValidExtension(e: Extension) {
    match e
    case Groups(curves) => 2 + 2 * |curves| < TWO16
    case PointFormats(formats) => |formats| < 256
    case Other(t, data) => t != 0x000a && t != 0x000b && |data| < TWO16
  }

  function DataOf(e: Extension): (s: seq<u8>)
    requires ValidExtension(e)
    ensures |s| < TWO16
  {
    match e
    case Groups(curves) => Two(2 * |curves|) + EncodeWords(curves)
    case PointFormats(formats) => [|formats|] + formats
    case Other(_, data) => data
  }

  function EncodeExtension(e: Extension): seq<u8>
    requires ValidExtension(e)
  {
    Two(TypeOf(e)) + (Two(|DataOf(e)|) + DataOf(e))
  }

  predicate AllValid(es: seq<Extension>) {
    es == [] || (ValidExtension(es[0]) && AllValid(es[1..]))
  }

  function EncodeExtensions(es: seq<Extension>): seq<u8>
    requires AllValid(es)
  {
    if es == [] then [] else EncodeExtension(es[0]) + EncodeExtensions(es[1..])
  }

  predicate Valid(h: Hello) {
    && |h.random| == 32 && |h.sessionId| < 256 && 2 * |h.ciphers| < TWO16 && |h.compression| < 256
    && (h.extensions.Some? ==>
          AllValid(h.extensions.value) && |EncodeExtensions(h.extensions.value)| < TWO16)
  }

  function ExtensionPart(h: Hello): seq<u8>
    requires Valid(h)
  {
    match h.extensions
    case None => []
    case Some(es) => Two(|EncodeExtensions(es)|) + EncodeExtensions(es)
  }

  function CompressionPart(h: Hello): seq<u8>
    requires Valid(h)
  {
    [|h.compression|] + (h.compression + ExtensionPart(h))
  }

  function CipherPart(h: Hello): seq<u8>
    requires Valid(h)
  {
    Two(2 * |h.ciphers|) + (EncodeWords(h.ciphers) + CompressionPart(h))
  }

  function SessionPart(h: Hello): seq<u8>
    requires Valid(h)
  {
    [|h.sessionId|] + (h.sessionId + CipherPart(h))
  }

  function Body(h: Hello): seq<u8>
    requires Valid(h)
  {
    Two(h.version) + (h.random + SessionPart(h))
  }

  /** A handshake record: record header, handshake type 1 with its 24-bit length, body. The record
      version and length (`head`) and the handshake length are not looked at by the reader. */
  function Record(h: Hello, head: seq<u8>, length: seq<u8>): seq<u8>
    requires Valid(h) && |head| == 4 && |length| == 3
  {
    [0x16] + (head + ([0x01] + (length + Body(h))))
  }

  // ----- what the fingerprint should contain -----

  function TypesOf(es: seq<Extension>): seq<u16> {
    if es == [] then [] else [TypeOf(es[0])] + TypesOf(es[1..])
  }

  function CurvesOfOne(e: Extension): seq<u16> {
    if e.Groups? then e.curves else []
  }

  function FormatsOfOne(e: Extension): seq<u8> {
    if e.PointFormats? then e.formats else []
  }

  function CurvesOf(es: seq<Extension>): seq<u16> {
    if es == [] then [] else CurvesOfOne(es[0]) + CurvesOf(es[1..])
  }

  function FormatsOf(es: seq<Extension>): seq<u8> {
    if es == [] then [] else FormatsOfOne(es[0]) + FormatsOf(es[1..])
  }

  function ExtensionsOf(h: Hello): seq<Extension> {
    if h.extensions.Some? then h.extensions.value else []
  }

  function FieldsOf(h: Hello): Fields {
    var es := ExtensionsOf(h);
    Fields(h.version, P.NoGrease(h.ciphers), P.NoGrease(TypesOf(es)), P.NoGrease(CurvesOf(es)), FormatsOf(es))
  }

  // ----- reading the wire form -----

  lemma HoldsByte(p: seq<u8>, i: nat, b: u8)
    requires Holds(p, i, [b])
    ensures i < |p| && p[i] == b
  {
    assert p[i..i + 1][0] == b;
  }

  lemma HoldsTwo(p: seq<u8>, i: nat, n: u16)
    requires Holds(p, i, Two(n))
    ensures i + 2 <= |p| && Be16(p, i) == n
  {
    var s := p[i..i + 2];
    assert s == Two(n);
    assert p[i] == s[0] && p[i + 1] == s[1];
  }

  lemma {:induction false} WordsBack(p: seq<u8>, i: nat, ws: seq<u16>)
    requires Holds(p, i, EncodeWords(ws))
    ensures i + 2 * |ws| <= |p| && P.WordsAt(p, i, i + 2 * |ws|) == ws
    decreases |ws|
  {
    if ws != [] {
      HoldsBoth(p, i, Two(ws[0]), EncodeWords(ws[1..]));
      HoldsTwo(p, i, ws[0]);
      WordsBack(p, i + 2, ws[1..]);
      assert i + 2 + 2 * |ws[1..]| == i + 2 * |ws|;
    }
  }

  lemma {:induction false} CurvesBack(p: seq<u8>, start: nat, curves: seq<u16>)
    requires ValidExtension(Groups(curves)) && Holds(p, start, DataOf(Groups(curves)))
    ensures P.CurvesIn(p, 0x000a, start, start + |DataOf(Groups(curves))|) == curves
  {
    HoldsBoth(p, start, Two(2 * |curves|), EncodeWords(curves));
    HoldsTwo(p, start, 2 * |curves|);
    WordsBack(p, start + 2, curves);
  }

  lemma {:induction false} FormatsBack(p: seq<u8>, start: nat, formats: seq<u8>)
    requires ValidExtension(PointFormats(formats)) && Holds(p, start, DataOf(PointFormats(formats)))
    ensures P.FormatsIn(p, 0x000b, start, start + |DataOf(PointFormats(formats))|) == formats
  {
    HoldsBoth(p, start, [|formats|], formats);
    HoldsByte(p, start, |formats|);
  }

  /** The reader takes the bytes in [i, next) for the extension `e`. */
  ghost predicate Reads(p: seq<u8>, i: nat, next: nat, e: Extension) {
    && i + 4 <= next <= |p|
    && Be16(p, i) == TypeOf(e)
    && P.EndAt(p, i) == next
    && P.CurvesIn(p, TypeOf(e), i + 4, next) == CurvesOfOne(e)
    && P.FormatsIn(p, TypeOf(e), i + 4, next) == FormatsOfOne(e)
  }

  lemma {:induction false} ExtensionBack(p: seq<u8>, i: nat, e: Extension, next: nat)
    requires ValidExtension(e) && Holds(p, i, EncodeExtension(e)) && next == i + |EncodeExtension(e)|
    ensures Reads(p, i, next, e)
  {
    var data := DataOf(e);
    HoldsBoth(p, i, Two(TypeOf(e)), Two(|data|) + data);
    HoldsTwo(p, i, TypeOf(e));
    HoldsBoth(p, i + 2, Two(|data|), data);
    HoldsTwo(p, i + 2, |data|);
    match e
    case Groups(curves) => CurvesBack(p, i + 4, curves);
    case PointFormats(formats) => FormatsBack(p, i + 4, formats);
    case Other(_, _) =>
  }

  /** The lists the reader finds in [i, end). */
  ghost predicate Finds(p: seq<u8>, i: nat, end: nat, types: seq<u16>, curves: seq<u16>, formats: seq<u8>) {
    && end <= |p|
    && P.TypesAt(p, i, end) == types
    && P.CurvesAt(p, i, end) == curves
    && P.FormatsAt(p, i, end) == formats
  }

  lemma {:induction false} FindsOneMore(p: seq<u8>, i: nat, next: nat, end: nat, e: Extension,
                     types: seq<u16>, curves: seq<u16>, formats: seq<u8>)
    requires Reads(p, i, next, e) && next <= end
    requires Finds(p, next, end, types, curves, formats)
    ensures Finds(p, i, end, [TypeOf(e)] + types, CurvesOfOne(e) + curves, FormatsOfOne(e) + formats)
  {
    assert P.Fits(p, i, end);
  }

  lemma {:induction false} FindsAll(p: seq<u8>, i: nat, next: nat, end: nat, es: seq<Extension>)
    requires es != [] && Reads(p, i, next, es[0]) && next <= end
    requires Finds(p, next, end, TypesOf(es[1..]), CurvesOf(es[1..]), FormatsOf(es[1..]))
    ensures Finds(p, i, end, TypesOf(es), CurvesOf(es), FormatsOf(es))
  {
    FindsOneMore(p, i, next, end, es[0], TypesOf(es[1..]), CurvesOf(es[1..]), FormatsOf(es[1..]));
  }

  lemma {:induction false} SplitExtensions(p: seq<u8>, i: nat, es: seq<Extension>, first: seq<u8>, rest: seq<u8>)
    requires es != [] && AllValid(es)
    requires first == EncodeExtension(es[0]) && rest == EncodeExtensions(es[1..])
    requires Holds(p, i, EncodeExtensions(es))
    ensures |EncodeExtensions(es)| == |first| + |rest|
    ensures Holds(p, i, first) && Holds(p, i + |first|, rest)
  {
    assert EncodeExtensions(es) == first + rest;
    HoldsBoth(p, i, first, rest);
  }

  /** Extensions are read up to where the next one does not fit. */
  lemma {:induction false} ExtensionsBack(p: seq<u8>, i: nat, es: seq<Extension>, stop: nat, end: nat)
    requires AllValid(es) && Holds(p, i, EncodeExtensions(es)) && stop == i + |EncodeExtensions(es)|
    requires stop <= end <= |p| && !P.Fits(p, stop, end)
    ensures Finds(p, i, end, TypesOf(es), CurvesOf(es), FormatsOf(es))
    decreases |es|
  {
    if es == [] {
      NothingFits(p, i, end);
    } else {
      var first, rest := EncodeExtension(es[0]), EncodeExtensions(es[1..]);
      SplitExtensions(p, i, es, first, rest);
      var next := i + |first|;
      ExtensionBack(p, i, es[0], next);
      ExtensionsBack(p, next, es[1..], stop, end);
      FindsAll(p, i, next, end, es);
    }
  }

  lemma {:induction false} NothingFits(p: seq<u8>, i: nat, end: nat)
    requires end <= |p| && !P.Fits(p, i, end)
    ensures Finds(p, i, end, [], [], [])
  {
  }

  // ----- bytes after the hello -----

  /** `p` is `trail` from `at` on. */
  ghost predicate Ends(p: seq<u8>, at: nat, trail: seq<u8>) {
    at <= |p| && p[at..] == trail
  }

  /** The lists the reader finds: the hello's own, or those that bytes after a hello without an extension
      block spell. */
  function TypesRead(h: Hello, trail: seq<u8>): seq<u16> {
    if h.extensions.Some? then TypesOf(h.extensions.value) else P.TypesAt(trail, 2, P.BlockEnd(trail, 0))
  }

  function CurvesRead(h: Hello, trail: seq<u8>): seq<u16> {
    if h.extensions.Some? then CurvesOf(h.extensions.value) else P.CurvesAt(trail, 2, P.BlockEnd(trail, 0))
  }

  function FormatsRead(h: Hello, trail: seq<u8>): seq<u8> {
    if h.extensions.Some? then FormatsOf(h.extensions.value) else P.FormatsAt(trail, 2, P.BlockEnd(trail, 0))
  }

  function FieldsRead(h: Hello, trail: seq<u8>): Fields {
    Fields(h.version, P.NoGrease(h.ciphers), P.NoGrease(TypesRead(h, trail)), P.NoGrease(CurvesRead(h, trail)),
           FormatsRead(h, trail))
  }

  lemma EndsWord(p: seq<u8>, at: nat, trail: seq<u8>, i: nat)
    requires Ends(p, at, trail) && i + 2 <= |trail|
    ensures Be16(p, at + i) == Be16(trail, i)
  {
    assert p[at..][i] == p[at + i] && p[at..][i + 1] == p[at + i + 1];
  }

  lemma {:induction false} ShiftWords(p: seq<u8>, at: nat, trail: seq<u8>, i: nat, end: nat, i': nat, end': nat)
    requires Ends(p, at, trail) && end <= |trail| && i' == at + i && end' == at + end
    ensures P.WordsAt(p, i', end') == P.WordsAt(trail, i, end)
    decreases end - i
  {
    var next := i + 2;
    if next <= end {
      EndsWord(p, at, trail, i);
      ShiftWords(p, at, trail, next, end, i' + 2, end');
      WordsStep(trail, i, end, next, Be16(trail, i));
      WordsStep(p, i', end', i' + 2, Be16(trail, i));
    } else {
      WordsEnd(trail, i, end);
      WordsEnd(p, i', end');
    }
  }

  lemma {:induction false} WordsStep(p: seq<u8>, i: nat, end: nat, next: nat, first: u16)
    requires next == i + 2 <= end <= |p| && first == Be16(p, i)
    ensures P.WordsAt(p, i, end) == [first] + P.WordsAt(p, next, end)
  {
  }

  lemma {:induction false} WordsEnd(p: seq<u8>, i: nat, end: nat)
    requires end <= |p| && i + 2 > end
    ensures P.WordsAt(p, i, end) == []
  {
  }

  lemma {:induction false} ShiftCurveList(p: seq<u8>, at: nat, trail: seq<u8>, etype: u16, start: nat, end: nat)
    requires Ends(p, at, trail) && start <= end <= |trail|
    ensures P.CurvesIn(p, etype, at + start, at + end) == P.CurvesIn(trail, etype, start, end)
  {
    if etype == 0x000a && start + 2 <= end {
      EndsWord(p, at, trail, start);
      var stop := Min(start + 2 + Be16(trail, start), end);
      ShiftWords(p, at, trail, start + 2, stop, at + start + 2, at + stop);
      assert at + stop == Min(at + start + 2 + Be16(p, at + start), at + end);
    }
  }

  lemma {:induction false} ShiftFormatList(p: seq<u8>, at: nat, trail: seq<u8>, etype: u16, start: nat, end: nat)
    requires Ends(p, at, trail) && start <= end <= |trail|
    ensures P.FormatsIn(p, etype, at + start, at + end) == P.FormatsIn(trail, etype, start, end)
  {
    if etype == 0x000b && start + 1 <= end {
      assert p[at..][start] == p[at + start];
      var stop := Min(start + 1 + trail[start], end);
      assert p[at..][start + 1..stop] == p[at + start + 1..at + stop];
    }
  }

  lemma ShiftFit(p: seq<u8>, at: nat, trail: seq<u8>, i: nat, end: nat)
    requires Ends(p, at, trail) && end <= |trail|
    ensures P.Fits(p, at + i, at + end) <==> P.Fits(trail, i, end)
    ensures P.Fits(trail, i, end) ==>
      P.EndAt(p, at + i) == at + P.EndAt(trail, i) && Be16(p, at + i) == Be16(trail, i)
  {
    if i + 4 <= end {
      EndsWord(p, at, trail, i);
      EndsWord(p, at, trail, i + 2);
    }
  }

  /** The extensions of the bytes at the end are those of the whole, found further on. */
  lemma {:induction false} ShiftTypes(p: seq<u8>, at: nat, trail: seq<u8>, i: nat, end: nat, i': nat, end': nat)
    requires Ends(p, at, trail) && end <= |trail| && i' == at + i && end' == at + end
    ensures P.TypesAt(p, i', end') == P.TypesAt(trail, i, end)
    decreases end - i
  {
    ShiftFit(p, at, trail, i, end);
    if P.Fits(trail, i, end) {
      var next := P.EndAt(trail, i);
      var next' := at + next;
      ShiftTypes(p, at, trail, next, end, next', end');
      TypesStep(trail, i, end, next, Be16(trail, i));
      TypesStep(p, i', end', next', Be16(trail, i));
    } else {
      TypesEnd(trail, i, end);
      TypesEnd(p, i', end');
    }
  }

  lemma {:induction false} TypesStep(p: seq<u8>, i: nat, end: nat, next: nat, first: u16)
    requires end <= |p| && P.Fits(p, i, end) && next == P.EndAt(p, i) && first == Be16(p, i)
    ensures P.TypesAt(p, i, end) == [first] + P.TypesAt(p, next, end)
  {
  }

  lemma {:induction false} TypesEnd(p: seq<u8>, i: nat, end: nat)
    requires end <= |p| && !P.Fits(p, i, end)
    ensures P.TypesAt(p, i, end) == []
  {
  }

  lemma {:induction false} CurvesStep(p: seq<u8>, i: nat, end: nat, first: seq<u16>, next: nat)
    requires end <= |p| && P.Fits(p, i, end) && next == P.EndAt(p, i)
    requires first == P.CurvesIn(p, Be16(p, i), i + 4, next)
    ensures P.CurvesAt(p, i, end) == first + P.CurvesAt(p, next, end)
  {
  }

  lemma {:induction false} ShiftCurvesStep(p: seq<u8>, trail: seq<u8>, i: nat, end: nat, next: nat, i': nat, end': nat,
                                          next': nat, first: seq<u16>)
    requires end <= |trail| && P.Fits(trail, i, end) && next == P.EndAt(trail, i)
    requires end' <= |p| && P.Fits(p, i', end') && next' == P.EndAt(p, i')
    requires first == P.CurvesIn(trail, Be16(trail, i), i + 4, next) == P.CurvesIn(p, Be16(p, i'), i' + 4, next')
    requires P.CurvesAt(p, next', end') == P.CurvesAt(trail, next, end)
    ensures P.CurvesAt(p, i', end') == P.CurvesAt(trail, i, end)
  {
    CurvesStep(trail, i, end, first, next);
    CurvesStep(p, i', end', first, next');
  }

  lemma {:induction false} ShiftCurvesOn(p: seq<u8>, at: nat, trail: seq<u8>, i: nat, end: nat, next: nat, i': nat,
                                        end': nat, next': nat)
    requires Ends(p, at, trail) && end <= |trail| && P.Fits(trail, i, end) && next == P.EndAt(trail, i)
    requires i' == at + i && end' == at + end && next' == at + next
    requires P.CurvesAt(p, next', end') == P.CurvesAt(trail, next, end)
    ensures P.CurvesAt(p, i', end') == P.CurvesAt(trail, i, end)
  {
    ShiftFit(p, at, trail, i, end);
    var etype := Be16(trail, i);
    ShiftCurveList(p, at, trail, etype, i + 4, next);
    assert at + (i + 4) == i' + 4;
    ShiftCurvesStep(p, trail, i, end, next, i', end', next', P.CurvesIn(trail, etype, i + 4, next));
  }

  lemma {:induction false} CurvesEnd(p: seq<u8>, i: nat, end: nat)
    requires end <= |p| && !P.Fits(p, i, end)
    ensures P.CurvesAt(p, i, end) == []
  {
  }

  lemma {:induction false} ShiftCurves(p: seq<u8>, at: nat, trail: seq<u8>, i: nat, end: nat, i': nat, end': nat)
    requires Ends(p, at, trail) && end <= |trail| && i' == at + i && end' == at + end
    ensures P.CurvesAt(p, i', end') == P.CurvesAt(trail, i, end)
    decreases end - i
  {
    if P.Fits(trail, i, end) {
      var next := P.EndAt(trail, i);
      var next' := at + next;
      ShiftCurves(p, at, trail, next, end, next', end');
      ShiftCurvesOn(p, at, trail, i, end, next, i', end', next');
    } else {
      ShiftFit(p, at, trail, i, end);
      CurvesEnd(trail, i, end);
      CurvesEnd(p, i', end');
    }
  }

  lemma {:induction false} FormatsStep(p: seq<u8>, i: nat, end: nat, first: seq<u8>, next: nat)
    requires end <= |p| && P.Fits(p, i, end) && next == P.EndAt(p, i)
    requires first == P.FormatsIn(p, Be16(p, i), i + 4, next)
    ensures P.FormatsAt(p, i, end) == first + P.FormatsAt(p, next, end)
  {
  }

  lemma {:induction false} ShiftFormatsStep(p: seq<u8>, trail: seq<u8>, i: nat, end: nat, next: nat, i': nat, end': nat,
                                          next': nat, first: seq<u8>)
    requires end <= |trail| && P.Fits(trail, i, end) && next == P.EndAt(trail, i)
    requires end' <= |p| && P.Fits(p, i', end') && next' == P.EndAt(p, i')
    requires first == P.FormatsIn(trail, Be16(trail, i), i + 4, next) == P.FormatsIn(p, Be16(p, i'), i' + 4, next')
    requires P.FormatsAt(p, next', end') == P.FormatsAt(trail, next, end)
    ensures P.FormatsAt(p, i', end') == P.FormatsAt(trail, i, end)
  {
    FormatsStep(trail, i, end, first, next);
    FormatsStep(p, i', end', first, next');
  }

  lemma {:induction false} ShiftFormatsOn(p: seq<u8>, at: nat, trail: seq<u8>, i: nat, end: nat, next: nat, i': nat,
                                        end': nat, next': nat)
    requires Ends(p, at, trail) && end <= |trail| && P.Fits(trail, i, end) && next == P.EndAt(trail, i)
    requires i' == at + i && end' == at + end && next' == at + next
    requires P.FormatsAt(p, next', end') == P.FormatsAt(trail, next, end)
    ensures P.FormatsAt(p, i', end') == P.FormatsAt(trail, i, end)
  {
    ShiftFit(p, at, trail, i, end);
    var etype := Be16(trail, i);
    ShiftFormatList(p, at, trail, etype, i + 4, next);
    assert at + (i + 4) == i' + 4;
    ShiftFormatsStep(p, trail, i, end, next, i', end', next', P.FormatsIn(trail, etype, i + 4, next));
  }

  lemma {:induction false} FormatsEnd(p: seq<u8>, i: nat, end: nat)
    requires end <= |p| && !P.Fits(p, i, end)
    ensures P.FormatsAt(p, i, end) == []
  {
  }

  lemma {:induction false} ShiftFormats(p: seq<u8>, at: nat, trail: seq<u8>, i: nat, end: nat, i': nat, end': nat)
    requires Ends(p, at, trail) && end <= |trail| && i' == at + i && end' == at + end
    ensures P.FormatsAt(p, i', end') == P.FormatsAt(trail, i, end)
    decreases end - i
  {
    if P.Fits(trail, i, end) {
      var next := P.EndAt(trail, i);
      var next' := at + next;
      ShiftFormats(p, at, trail, next, end, next', end');
      ShiftFormatsOn(p, at, trail, i, end, next, i', end', next');
    } else {
      ShiftFit(p, at, trail, i, end);
      FormatsEnd(trail, i, end);
      FormatsEnd(p, i', end');
    }
  }

  lemma ShiftEnd(p: seq<u8>, at: nat, trail: seq<u8>)
    requires Ends(p, at, trail) && |trail| >= 2
    ensures P.BlockEnd(p, at) == at + P.BlockEnd(trail, 0)
  {
    EndsWord(p, at, trail, 0);
  }

  lemma {:induction false} ShiftBlock(p: seq<u8>, at: nat, trail: seq<u8>, i: nat, end: nat, i': nat, end': nat)
    requires Ends(p, at, trail) && end <= |trail| && i' == at + i && end' == at + end
    ensures Finds(p, i', end', P.TypesAt(trail, i, end), P.CurvesAt(trail, i, end), P.FormatsAt(trail, i, end))
  {
    ShiftTypes(p, at, trail, i, end, i', end');
    ShiftCurves(p, at, trail, i, end, i', end');
    ShiftFormats(p, at, trail, i, end, i', end');
  }

  lemma {:induction false} NothingFound(p: seq<u8>, i: nat)
    ensures Finds(p, i, 0, [], [], [])
  {
  }

  lemma {:induction false} TrailBlock(p: seq<u8>, at: nat, trail: seq<u8>, end: nat, end': nat)
    requires Ends(p, at, trail) && end == P.BlockEnd(trail, 0) && end' == P.BlockEnd(p, at)
    ensures Finds(p, at + 2, end', P.TypesAt(trail, 2, end), P.CurvesAt(trail, 2, end), P.FormatsAt(trail, 2, end))
  {
    if |trail| >= 2 {
      ShiftEnd(p, at, trail);
      ShiftBlock(p, at, trail, 2, end, at + 2, end');
    } else {
      NoBlock(p, at, trail, end, end');
    }
  }

  lemma {:induction false} NoBlock(p: seq<u8>, at: nat, trail: seq<u8>, end: nat, end': nat)
    requires Ends(p, at, trail) && end == P.BlockEnd(trail, 0) && end' == P.BlockEnd(p, at) && |trail| < 2
    ensures Finds(p, at + 2, end', P.TypesAt(trail, 2, end), P.CurvesAt(trail, 2, end), P.FormatsAt(trail, 2, end))
  {
    NothingFound(p, at + 2);
    NothingFound(trail, 2);
  }

  lemma {:induction false} SplitCompression(p: seq<u8>, i: nat, h: Hello)
    requires Valid(h) && Holds(p, i, CompressionPart(h))
    ensures i + 1 + |h.compression| <= |p| && p[i] == |h.compression|
    ensures Holds(p, i + 1 + |h.compression|, ExtensionPart(h))
  {
    HoldsBoth(p, i, [|h.compression|], h.compression + ExtensionPart(h));
    HoldsByte(p, i, |h.compression|);
    HoldsBoth(p, i + 1, h.compression, ExtensionPart(h));
  }

  lemma {:induction false} BlockBack(p: seq<u8>, at: nat, h: Hello, trail: seq<u8>)
    requires Valid(h) && Holds(p, at, ExtensionPart(h))
    requires h.extensions.None? ==> Ends(p, at, trail)
    ensures Finds(p, at + 2, P.BlockEnd(p, at), TypesRead(h, trail), CurvesRead(h, trail), FormatsRead(h, trail))
  {
    if h.extensions.Some? {
      var es := h.extensions.value;
      HoldsBoth(p, at, Two(|EncodeExtensions(es)|), EncodeExtensions(es));
      HoldsTwo(p, at, |EncodeExtensions(es)|);
      ExtensionsBack(p, at + 2, es, P.BlockEnd(p, at), P.BlockEnd(p, at));
    } else {
      TrailBlock(p, at, trail, P.BlockEnd(trail, 0), P.BlockEnd(p, at));
    }
  }

  lemma {:induction false} HasBlock(p: seq<u8>, i: nat, at: nat, version: u16, ciphers: seq<u16>,
                 types: seq<u16>, curves: seq<u16>, formats: seq<u8>)
    requires i < |p| && at == i + 1 + p[i] as nat
    requires Finds(p, at + 2, P.BlockEnd(p, at), types, curves, formats)
    ensures P.ParseRest(p, i, version, ciphers) ==
      P.Read(Fields(version, P.NoGrease(ciphers), P.NoGrease(types), P.NoGrease(curves), formats))
  {
  }

  lemma {:induction false} RestBack(p: seq<u8>, i: nat, h: Hello, trail: seq<u8>)
    requires Valid(h) && Holds(p, i, CompressionPart(h))
    requires h.extensions.None? ==> Ends(p, i + |CompressionPart(h)|, trail)
    ensures P.ParseRest(p, i, h.version, h.ciphers) == P.Read(FieldsRead(h, trail))
  {
    SplitCompression(p, i, h);
    var at := i + 1 + |h.compression|;
    BlockBack(p, at, h, trail);
    HasBlock(p, i, at, h.version, h.ciphers, TypesRead(h, trail), CurvesRead(h, trail), FormatsRead(h, trail));
  }

  lemma {:induction false} SplitCiphers(p: seq<u8>, i: nat, h: Hello)
    requires Valid(h) && Holds(p, i, CipherPart(h))
    ensures var next := i + 2 + 2 * |h.ciphers|;
      && next <= |p| && Be16(p, i) == 2 * |h.ciphers|
      && P.WordsAt(p, i + 2, next) == h.ciphers
      && Holds(p, next, CompressionPart(h))
      && |CipherPart(h)| == 2 + 2 * |h.ciphers| + |CompressionPart(h)|
  {
    HoldsBoth(p, i, Two(2 * |h.ciphers|), EncodeWords(h.ciphers) + CompressionPart(h));
    HoldsTwo(p, i, 2 * |h.ciphers|);
    HoldsBoth(p, i + 2, EncodeWords(h.ciphers), CompressionPart(h));
    WordsBack(p, i + 2, h.ciphers);
  }

  lemma {:induction false} CiphersBack(p: seq<u8>, i: nat, h: Hello, trail: seq<u8>)
    requires Valid(h) && Holds(p, i, CipherPart(h))
    requires h.extensions.None? ==> Ends(p, i + |CipherPart(h)|, trail)
    ensures P.ParseCiphers(p, i, h.version) == P.Read(FieldsRead(h, trail))
  {
    SplitCiphers(p, i, h);
    var next := i + 2 + 2 * |h.ciphers|;
    HasRest(p, i, next, h.version, h.ciphers);
    RestBack(p, next, h, trail);
  }

  lemma {:induction false} HasRest(p: seq<u8>, i: nat, next: nat, version: u16, ciphers: seq<u16>)
    requires i + 2 <= next <= |p| && Be16(p, i) == next - i - 2 && (next - i) % 2 == 0
    requires P.WordsAt(p, i + 2, next) == ciphers
    ensures P.ParseCiphers(p, i, version) == P.ParseRest(p, next, version, ciphers)
  {
    P.EvenLoop(p, i + 2, 0, next - i - 2);
  }

  lemma {:induction false} SplitSession(p: seq<u8>, i: nat, h: Hello)
    requires Valid(h) && Holds(p, i, SessionPart(h))
    ensures i + 1 + |h.sessionId| <= |p| && p[i] == |h.sessionId|
    ensures Holds(p, i + 1 + |h.sessionId|, CipherPart(h))
    ensures |SessionPart(h)| == 1 + |h.sessionId| + |CipherPart(h)|
  {
    HoldsBoth(p, i, [|h.sessionId|], h.sessionId + CipherPart(h));
    HoldsByte(p, i, |h.sessionId|);
    HoldsBoth(p, i + 1, h.sessionId, CipherPart(h));
  }

  lemma {:induction false} SplitBody(p: seq<u8>, h: Hello)
    requires Valid(h) && Holds(p, 9, Body(h))
    ensures |p| >= 43 && Be16(p, 9) == h.version && Holds(p, 43, SessionPart(h))
    ensures |Body(h)| == 34 + |SessionPart(h)|
  {
    HoldsBoth(p, 9, Two(h.version), h.random + SessionPart(h));
    HoldsTwo(p, 9, h.version);
    HoldsBoth(p, 11, h.random, SessionPart(h));
  }

  lemma {:induction false} SplitRecord(p: seq<u8>, h: Hello, head: seq<u8>, length: seq<u8>)
    requires Valid(h) && |head| == 4 && |length| == 3 && Holds(p, 0, Record(h, head, length))
    ensures |p| >= 9 && p[0] == 0x16 && p[5] == 0x01 && Holds(p, 9, Body(h))
    ensures |Record(h, head, length)| == 9 + |Body(h)|
  {
    HoldsBoth(p, 0, [0x16], head + ([0x01] + (length + Body(h))));
    HoldsByte(p, 0, 0x16);
    HoldsBoth(p, 1, head, [0x01] + (length + Body(h)));
    HoldsBoth(p, 5, [0x01], length + Body(h));
    HoldsByte(p, 5, 0x01);
    HoldsBoth(p, 6, length, Body(h));
  }

  /** Reading inverts writing: for every ClientHello on the wire and any bytes after it, the reader finds
      its version, its cipher, extension and curve lists without GREASE, and its point formats, in order.
      When the hello has no extension block, the bytes after it are read as one. */
  lemma {:induction false} ParseInvertsEncode(h: Hello, head: seq<u8>, length: seq<u8>, trail: seq<u8>)
    requires Valid(h) && |head| == 4 && |length| == 3
    ensures P.ParseHello(Record(h, head, length) + trail) == P.Read(FieldsRead(h, trail))
  {
    var r := Record(h, head, length);
    var p := r + trail;
    assert p[0..0 + |r|] == r;
    SplitRecord(p, h, head, length);
    SplitBody(p, h);
    SplitSession(p, 43, h);
    var i := 44 + |h.sessionId|;
    assert p[|r|..] == trail;
    CiphersBack(p, i, h, trail);
    HasCiphers(p, i, h);
  }

  /** Bytes behind a hello spell no extension other than GREASE, no curve and no format. */
  predicate SpellsNothing(trail: seq<u8>) {
    var end := P.BlockEnd(trail, 0);
    && P.NoGrease(P.TypesAt(trail, 2, end)) == []
    && P.NoGrease(P.CurvesAt(trail, 2, end)) == []
    && P.FormatsAt(trail, 2, end) == []
  }

  lemma {:induction false} TrailFields(h: Hello, trail: seq<u8>)
    ensures FieldsRead(h, trail) == FieldsRead(h, []) <==> h.extensions.Some? || SpellsNothing(trail)
  {
  }

  /** Bytes after the hello change nothing the reader finds exactly when the hello has an extension block of
      its own, or when they spell nothing that counts. */
  lemma {:induction false} TrailHarmlessIff(h: Hello, head: seq<u8>, length: seq<u8>, trail: seq<u8>)
    requires Valid(h) && |head| == 4 && |length| == 3
    ensures P.ParseHello(Record(h, head, length) + trail) == P.ParseHello(Record(h, head, length)) <==>
      h.extensions.Some? || SpellsNothing(trail)
  {
    ParseInvertsEncode(h, head, length, trail);
    ParseInvertsEncode(h, head, length, []);
    NothingAfter(Record(h, head, length));
    TrailFields(h, trail);
  }

  /** Six bytes behind it that change what is read of every hello without extensions: they spell an
      extension of type 5 with no data. */
  lemma {:induction false} TrailMisread(h: Hello, head: seq<u8>, length: seq<u8>)
    requires Valid(h) && |head| == 4 && |length| == 3 && h.extensions.None?
    ensures P.ParseHello(Record(h, head, length) + [0, 4, 0, 5, 0, 0]) != P.ParseHello(Record(h, head, length))
  {
    var trail: seq<u8> := [0, 4, 0, 5, 0, 0];
    assert P.BlockEnd(trail, 0) == 6 && P.Fits(trail, 2, 6) && P.TypesAt(trail, 2, 6)[0] == 5;
    assert P.NoGrease(P.TypesAt(trail, 2, 6))[0] == 5;
    assert !SpellsNothing(trail);
    TrailHarmlessIff(h, head, length, trail);
  }

  // ----- extension blocks that are cut off -----

  /** Of an extension cut off by `end`, its own bytes or fewer following, nothing fits. */
  lemma {:induction false} CutDoesNotFit(p: seq<u8>, i: nat, e: Extension, m: nat, end: nat)
    requires ValidExtension(e) && m <= |EncodeExtension(e)| && Holds(p, i, EncodeExtension(e)[..m])
    requires end <= i + m && end < i + |EncodeExtension(e)|
    ensures end <= |p| && !P.Fits(p, i, end)
  {
    var b := EncodeExtension(e);
    if i + 4 <= end {
      assert b[2] == |DataOf(e)| / 256 && b[3] == |DataOf(e)| % 256;
      assert p[i..i + m][2] == p[i + 2] && p[i..i + m][3] == p[i + 3];
    }
  }

  /** Of a hello cut off inside its extensions, or whose block says that it ends there, the reader finds exactly the
      whole extensions before the cut: `es` are those, `e` the next one, `m` of whose bytes are there, and `total` the
      length the block claims. */
  lemma {:induction false} TornHello(h: Hello, head: seq<u8>, length: seq<u8>, es: seq<Extension>, e: Extension, m: nat,
                                     total: u16)
    requires Valid(h) && |head| == 4 && |length| == 3 && h.extensions.None?
    requires AllValid(es) && ValidExtension(e) && m <= |EncodeExtension(e)|
    requires var whole := |EncodeExtensions(es)|; whole <= total && Min(total, whole + m) < whole + |EncodeExtension(e)|
    ensures var trail := Two(total) + (EncodeExtensions(es) + EncodeExtension(e)[..m]);
      P.ParseHello(Record(h, head, length) + trail) ==
      P.Read(Fields(h.version, P.NoGrease(h.ciphers), P.NoGrease(TypesOf(es)), P.NoGrease(CurvesOf(es)), FormatsOf(es)))
  {
    var rest := EncodeExtensions(es) + EncodeExtension(e)[..m];
    var trail := Two(total) + rest;
    ParseInvertsEncode(h, head, length, trail);
    TornBlock(trail, es, e, m, total);
  }

  lemma {:induction false} TornBlock(trail: seq<u8>, es: seq<Extension>, e: Extension, m: nat, total: u16)
    requires AllValid(es) && ValidExtension(e) && m <= |EncodeExtension(e)|
    requires var whole := |EncodeExtensions(es)|; whole <= total && Min(total, whole + m) < whole + |EncodeExtension(e)|
    requires trail == Two(total) + (EncodeExtensions(es) + EncodeExtension(e)[..m])
    ensures Finds(trail, 2, P.BlockEnd(trail, 0), TypesOf(es), CurvesOf(es), FormatsOf(es))
  {
    var rest := EncodeExtensions(es) + EncodeExtension(e)[..m];
    assert trail[0..0 + |trail|] == trail;
    HoldsBoth(trail, 0, Two(total), rest);
    HoldsTwo(trail, 0, total);
    HoldsBoth(trail, 2, EncodeExtensions(es), EncodeExtension(e)[..m]);
    var stop := 2 + |EncodeExtensions(es)|;
    CutDoesNotFit(trail, stop, e, m, P.BlockEnd(trail, 0));
    ExtensionsBack(trail, 2, es, stop, P.BlockEnd(trail, 0));
  }

  lemma {:induction false} HasCiphers(p: seq<u8>, i: nat, h: Hello)
    requires |p| >= 44 && p[0] == 0x16 && p[5] == 0x01
    requires Be16(p, 9) == h.version && i == 44 + p[43] as nat
    ensures P.ParseHello(p) == P.ParseCiphers(p, i, h.version)
  {
  }

  // ----- the fingerprint of a hello -----

  /** The string hashed for the hello `h`. */
  function Fingerprint(h: Hello): P.Outcome
    requires Valid(h)
  {
    P.Expected(P.ParseHello(Record(h, [3, 1, 0, 0], [0, 0, 0])))
  }

  /** Two hellos have the same string exactly when version and all four filtered lists agree. */
  lemma {:induction false} SameFingerprintIff(h: Hello, g: Hello)
    requires Valid(h) && Valid(g)
    ensures Fingerprint(h) == Fingerprint(g) <==> FieldsOf(h) == FieldsOf(g)
  {
    NoTrail(h);
    NoTrail(g);
    Unambiguous(FieldsOf(h), FieldsOf(g));
  }

  lemma {:induction false} NoTrail(h: Hello)
    requires Valid(h)
    ensures Fingerprint(h) == P.PreHashed(PreHash(FieldsOf(h)))
  {
    var r := Record(h, [3, 1, 0, 0], [0, 0, 0]);
    assert r + [] == r;
    ParseInvertsEncode(h, [3, 1, 0, 0], [0, 0, 0], []);
  }

  /** `longer` is `shorter` with GREASE values inserted anywhere. */
  ghost predicate Greased(longer: seq<u16>, shorter: seq<u16>) {
    if longer == [] then shorter == []
    else
      || (P.IsGrease(longer[0]) && Greased(longer[1..], shorter))
      || (shorter != [] && longer[0] == shorter[0] && Greased(longer[1..], shorter[1..]))
  }

  lemma {:induction false} GreaseVanishes(longer: seq<u16>, shorter: seq<u16>)
    requires Greased(longer, shorter)
    ensures P.NoGrease(longer) == P.NoGrease(shorter)
  {
    if longer != [] {
      if P.IsGrease(longer[0]) && Greased(longer[1..], shorter) {
        GreaseVanishes(longer[1..], shorter);
      } else {
        GreaseVanishes(longer[1..], shorter[1..]);
      }
    }
  }

  /** `e` is `f`, or the same groups extension with GREASE curves inserted. */
  ghost predicate GreasedExtension(e: Extension, f: Extension) {
    e == f || (e.Groups? && f.Groups? && Greased(e.curves, f.curves))
  }

  /** `longer` is `shorter` with GREASE extensions, of any content, inserted anywhere, and GREASE
      curves inserted into the groups extensions. */
  ghost predicate GreasedList(longer: seq<Extension>, shorter: seq<Extension>) {
    if longer == [] then shorter == []
    else
      || (longer[0].Other? && P.IsGrease(longer[0].etype) && GreasedList(longer[1..], shorter))
      || (shorter != [] && GreasedExtension(longer[0], shorter[0]) && GreasedList(longer[1..], shorter[1..]))
  }

  /** Two extension lists that the fingerprint cannot tell apart. */
  ghost predicate SameLists(a: seq<Extension>, b: seq<Extension>) {
    && P.NoGrease(TypesOf(a)) == P.NoGrease(TypesOf(b))
    && P.NoGrease(CurvesOf(a)) == P.NoGrease(CurvesOf(b))
    && FormatsOf(a) == FormatsOf(b)
  }

  lemma {:induction false} GreaseExtensionVanishes(a: seq<Extension>)
    requires a != [] && a[0].Other? && P.IsGrease(a[0].etype)
    ensures SameLists(a, a[1..])
  {
    assert ([a[0].etype] + TypesOf(a[1..]))[1..] == TypesOf(a[1..]);
    NothingBefore(P.NoGrease(TypesOf(a[1..])));
    NothingBefore(CurvesOf(a[1..]));
    NothingBefore(FormatsOf(a[1..]));
  }

  lemma {:induction false} SameHeads(a: seq<Extension>, b: seq<Extension>)
    requires a != [] && b != [] && GreasedExtension(a[0], b[0]) && SameLists(a[1..], b[1..])
    ensures SameLists(a, b)
  {
    assert TypeOf(a[0]) == TypeOf(b[0]) && FormatsOfOne(a[0]) == FormatsOfOne(b[0]);
    P.NoGreaseAppend([TypeOf(a[0])], TypesOf(a[1..]));
    P.NoGreaseAppend([TypeOf(b[0])], TypesOf(b[1..]));
    P.NoGreaseAppend(CurvesOfOne(a[0]), CurvesOf(a[1..]));
    P.NoGreaseAppend(CurvesOfOne(b[0]), CurvesOf(b[1..]));
    if a[0] != b[0] {
      GreaseVanishes(a[0].curves, b[0].curves);
    }
  }

  lemma {:induction false} GreasedListVanishes(longer: seq<Extension>, shorter: seq<Extension>)
    requires GreasedList(longer, shorter)
    ensures SameLists(longer, shorter)
    decreases |longer|
  {
    if longer != [] {
      if longer[0].Other? && P.IsGrease(longer[0].etype) && GreasedList(longer[1..], shorter) {
        GreaseExtensionVanishes(longer);
        GreasedListVanishes(longer[1..], shorter);
      } else {
        GreasedListVanishes(longer[1..], shorter[1..]);
        SameHeads(longer, shorter);
      }
    }
  }

  /** Inserting GREASE values into the cipher or curve lists, or GREASE extensions, never changes the
      string, whatever else of the hello (random, session, compression) is different. */
  lemma {:induction false} GreaseInvariant(h: Hello, g: Hello)
    requires Valid(h) && Valid(g) && h.version == g.version
    requires Greased(h.ciphers, g.ciphers)
    requires GreasedList(ExtensionsOf(h), ExtensionsOf(g))
    ensures Fingerprint(h) == Fingerprint(g)
  {
    GreaseVanishes(h.ciphers, g.ciphers);
    GreasedListVanishes(ExtensionsOf(h), ExtensionsOf(g));
    SameFingerprintIff(h, g);
  }
}
