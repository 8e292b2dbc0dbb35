/** The fixed-width binary file of collected risks (src/user/config/RiskFileUpdater.cpp): written
    from, and read back into, the configuration object. */
module RiskFile {
  import opened Machine
  import opened FixedFields
  import opened Wire

  datatype Risk = Risk(id: u64, indicator: seq<u8>, kind: seq<u8>, created: seq<u8>, isActive: u8)

  datatype Config = Config(syncNextUrl: seq<u8>, updateTime: seq<u8>, riskCount: u64, risks: seq<Risk>)

  // ----- layout: a header of 360 bytes, records of 137 -----

  function RecordBytes(r: Risk): (b: seq<u8>)
    ensures |b| == 137
  {
    LeBytes(r.id, 8) + (StrField(r.indicator, 64) + (StrField(r.kind, 32) + (StrField(r.created, 32) + [r.isActive])))
  }

  /** The header: the count is that of the list, whatever count the configuration had. */
  function HeaderBytes(c: Config): (b: seq<u8>)
    ensures |b| == 360
  {
    StrField(c.syncNextUrl, 256) + (StrField(c.updateTime, 64) + (LeBytes(|c.risks|, 8) + Zeros(32)))
  }

  function RecordsBytes(rs: seq<Risk>): (b: seq<u8>)
    ensures |b| == 137 * |rs|
  {
    if rs == [] then [] else RecordBytes(rs[0]) + RecordsBytes(rs[1..])
  }

  function FileOf(c: Config): seq<u8> { HeaderBytes(c) + RecordsBytes(c.risks) }

  /** A C string at `i`, in a structure whose last byte is `n` bytes on: it may run over the fields behind
      its own, and None says that it runs past the structure. Bytes past the end of the file are the zeros
      that stood there before the read. */
  function CText(f: seq<u8>, i: nat, n: nat): Option<seq<u8>> {
    var b := Bytes(f, i, n);
    if NulFrom(b, 0) < n then Some(CStr(b)) else None
  }

  /** All three strings of the record at `i` end inside it. */
  predicate RecordEnds(f: seq<u8>, i: nat) {
    CText(f, i + 8, 129).Some? && CText(f, i + 72, 65).Some? && CText(f, i + 104, 33).Some?
  }

  function RecordAt(f: seq<u8>, i: nat): Risk
    requires RecordEnds(f, i)
  {
    Risk(Le64(f, i), CText(f, i + 8, 129).value, CText(f, i + 72, 65).value, CText(f, i + 104, 33).value,
         Bytes(f, i + 136, 1)[0])
  }

  predicate RecordsEnd(f: seq<u8>, i: nat, n: nat) {
    forall k :: 0 <= k < n ==> RecordEnds(f, i + 137 * k)
  }

  function RecordsAt(f: seq<u8>, i: nat, n: nat): (rs: seq<Risk>)
    requires RecordsEnd(f, i, n)
    ensures |rs| == n && forall k :: 0 <= k < n ==> rs[k] == RecordAt(f, i + 137 * k)
  {
    seq(n, k requires 0 <= k < n => RecordAt(f, i + 137 * k))
  }

  /** What reading a file makes of the configuration; None when a string runs past its structure. */
  function Loaded(f: seq<u8>): Option<Config> {
    var url, time, count := CText(f, 0, 360), CText(f, 256, 104), Le64(f, 320);
    if url.Some? && time.Some? && RecordsEnd(f, 360, count) then
      Some(Config(url.value, time.value, count, RecordsAt(f, 360, count)))
    else None
  }

  /** A text read is the bytes up to the first NUL, which is there. */
  lemma {:induction false} TextIs(f: seq<u8>, i: nat, n: nat)
    ensures CText(f, i, n).Some? <==> exists k :: 0 <= k < n && Bytes(f, i, n)[k] == 0
    ensures CText(f, i, n).Some? ==>
      var t := CText(f, i, n).value;
      && |t| < n && NulFree(t) && Bytes(f, i, n)[|t|] == 0
      && forall k :: 0 <= k < |t| ==> t[k] == Bytes(f, i, n)[k]
  {
    NoneBefore(Bytes(f, i, n), 0);
  }

  /** A NUL stands in the `n` bytes from `i` on; past the end of the file all are. */
  ghost predicate NulIn(f: seq<u8>, i: nat, n: nat) {
    exists k :: 0 <= k < n && Bytes(f, i, n)[k] == 0
  }

  /** A file is read without running past a structure exactly when every string of its header, and of as many
      records as that announces, finds a NUL before its structure ends. */
  lemma LoadsIff(f: seq<u8>)
    ensures Loaded(f).Some? <==>
      && NulIn(f, 0, 360) && NulIn(f, 256, 104)
      && forall k :: 0 <= k < Le64(f, 320) ==> TextsEnd(f, 360 + 137 * k)
  {
    TextIs(f, 0, 360);
    TextIs(f, 256, 104);
    forall k | 0 <= k < Le64(f, 320) ensures RecordEnds(f, 360 + 137 * k) <==> TextsEnd(f, 360 + 137 * k) {
      var i := 360 + 137 * k;
      TextIs(f, i + 8, 129);
      TextIs(f, i + 72, 65);
      TextIs(f, i + 104, 33);
    }
  }

  ghost predicate TextsEnd(f: seq<u8>, i: nat) { NulIn(f, i + 8, 129) && NulIn(f, i + 72, 65) && NulIn(f, i + 104, 33) }

  // ----- the updater -----

  class RiskFileUpdater {
    var srfc: Config

    constructor (c: Config)
      ensures srfc == c
    {
      srfc := c;
    }

    /** riskConfigToBinary: the bytes the file ends up with. */
    method RiskConfigToBinary() returns (file: seq<u8>)
      requires |srfc.risks| < TWO64
      ensures file == FileOf(srfc)
    {
      file := HeaderBytes(srfc);
      ghost var body: seq<u8> := [];
      for i := 0 to |srfc.risks|
        invariant file == HeaderBytes(srfc) + body
        invariant RecordsBytes(srfc.risks) == body + RecordsBytes(srfc.risks[i..])
      {
        var record := RecordBytes(srfc.risks[i]);
        Regroup(HeaderBytes(srfc), body, record, RecordsBytes(srfc.risks[i + 1..]));
        assert srfc.risks[i..][1..] == srfc.risks[i + 1..];
        file, body := file + record, body + record;
      }
      assert srfc.risks[|srfc.risks|..] == [];
    }

    /** binaryToRiskConfig on a file with these contents; false when it runs past a structure, after which
        nothing is promised. */
    method BinaryToRiskConfig(file: seq<u8>) returns (ok: bool)
      modifies this
      ensures ok <==> Loaded(file).Some?
      ensures ok ==> Some(srfc) == Loaded(file)
    {
      var url, time := CText(file, 0, 360), CText(file, 256, 104);
      if url.None? || time.None? {
        return false;
      }
      var count := Le64(file, 320);
      var loaded: seq<Risk> := [];
      for i := 0 to count
        invariant RecordsEnd(file, 360, i) && loaded == RecordsAt(file, 360, i)
      {
        if !RecordEnds(file, 360 + 137 * i) {
          return false;
        }
        loaded := loaded + [RecordAt(file, 360 + 137 * i)];
      }
      srfc := Config(url.value, time.value, count, loaded);
      return true;
    }
  }

  // ----- the layout, byte by byte -----

  lemma {:induction false} HeaderLayout(c: Config)
    requires |c.risks| < TWO64
    ensures var b := FileOf(c);
      && |b| == 360 + 137 * |c.risks|
      && b[0..256] == StrField(c.syncNextUrl, 256) && b[256..320] == StrField(c.updateTime, 64)
      && b[320..328] == LeBytes(|c.risks|, 8) && b[328..360] == Zeros(32)
  {
    var b, h := FileOf(c), HeaderBytes(c);
    assert b[..360] == h;
    assert h[0..256] == StrField(c.syncNextUrl, 256) && h[256..320] == StrField(c.updateTime, 64);
    assert h[320..328] == LeBytes(|c.risks|, 8) && h[328..360] == Zeros(32);
  }

  /** The `k`-th record stands at byte 360 + 137 k: identifier, indicator, type, date and flag. */
  lemma {:induction false} RecordLayout(c: Config, k: nat)
    requires k < |c.risks|
    ensures var b, i, r := FileOf(c), 360 + 137 * k, c.risks[k];
      && |b| >= i + 137
      && b[i..i + 8] == LeBytes(r.id, 8) && b[i + 8..i + 72] == StrField(r.indicator, 64)
      && b[i + 72..i + 104] == StrField(r.kind, 32) && b[i + 104..i + 136] == StrField(r.created, 32)
      && b[i + 136] == r.isActive
  {
    var b, i, r := FileOf(c), 360 + 137 * k, c.risks[k];
    assert b[0..|b|] == b;
    assert Holds(b, 0, HeaderBytes(c) + RecordsBytes(c.risks));
    HoldsBoth(b, 0, HeaderBytes(c), RecordsBytes(c.risks));
    NthRecord(b, 360, c.risks, k);
    RecordHolds(b, i, r);
    assert b[i + 136..i + 137][0] == r.isActive;
  }

  lemma {:induction false} RecordHolds(f: seq<u8>, i: nat, r: Risk)
    requires Holds(f, i, RecordBytes(r))
    ensures Holds(f, i, LeBytes(r.id, 8)) && Holds(f, i + 8, StrField(r.indicator, 64))
    ensures Holds(f, i + 72, StrField(r.kind, 32)) && Holds(f, i + 104, StrField(r.created, 32))
    ensures Holds(f, i + 136, [r.isActive])
  {
    var tail3 := StrField(r.created, 32) + [r.isActive];
    var tail2 := StrField(r.kind, 32) + tail3;
    var tail1 := StrField(r.indicator, 64) + tail2;
    HoldsBoth(f, i, LeBytes(r.id, 8), tail1);
    HoldsBoth(f, i + 8, StrField(r.indicator, 64), tail2);
    HoldsBoth(f, i + 72, StrField(r.kind, 32), tail3);
    HoldsBoth(f, i + 104, StrField(r.created, 32), [r.isActive]);
  }

  lemma {:induction false} NthRecord(f: seq<u8>, i: nat, rs: seq<Risk>, k: nat)
    requires Holds(f, i, RecordsBytes(rs)) && k < |rs|
    ensures Holds(f, i + 137 * k, RecordBytes(rs[k]))
    decreases k
  {
    HoldsBoth(f, i, RecordBytes(rs[0]), RecordsBytes(rs[1..]));
    if k > 0 {
      NthRecord(f, i + 137, rs[1..], k - 1);
      assert i + 137 + 137 * (k - 1) == i + 137 * k;
    }
  }

  // ----- round trips -----

  /** What one write and read keeps of a record. */
  function KeptRisk(r: Risk): Risk {
    r.(indicator := Kept(r.indicator, 64), kind := Kept(r.kind, 32), created := Kept(r.created, 32))
  }

  function KeptRisks(rs: seq<Risk>): (ks: seq<Risk>)
    ensures |ks| == |rs| && forall i :: 0 <= i < |rs| ==> ks[i] == KeptRisk(rs[i])
  {
    seq(|rs|, i requires 0 <= i < |rs| => KeptRisk(rs[i]))
  }

  function KeptConfig(c: Config): Config
    requires |c.risks| < TWO64
  {
    Config(Kept(c.syncNextUrl, 256), Kept(c.updateTime, 64), |c.risks|, KeptRisks(c.risks))
  }

  /** A text that ends inside its field is read from the field alone. */
  lemma {:induction false} NulInField(f: seq<u8>, i: nat, w: nat, n: nat)
    requires w <= n && NulFrom(Bytes(f, i, w), 0) < w
    ensures CText(f, i, n) == Some(CStr(Bytes(f, i, w)))
  {
    var field, rest := Bytes(f, i, w), Bytes(f, i, n);
    var z := NulFrom(field, 0);
    NoneBefore(field, 0);
    assert forall k :: 0 <= k < w ==> rest[k] == field[k];
    NulIs(rest, 0, z);
    assert rest[..z] == field[..z];
  }

  lemma {:induction false} TextBack(f: seq<u8>, i: nat, s: seq<u8>, w: nat, n: nat)
    requires 0 < w <= n && Holds(f, i, StrField(s, w))
    ensures CText(f, i, n) == Some(Kept(s, w))
  {
    BytesHeld(f, i, StrField(s, w));
    CStrReads(s, w);
    KeptIsFree(s, w);
    assert NulFrom(StrField(s, w), 0) == |CStr(StrField(s, w))|;
    NulInField(f, i, w, n);
  }

  lemma {:induction false} RecordBack(f: seq<u8>, i: nat, r: Risk)
    requires Holds(f, i, RecordBytes(r))
    ensures RecordEnds(f, i) && RecordAt(f, i) == KeptRisk(r)
  {
    RecordHolds(f, i, r);
    Number64Back(f, i, r.id);
    TextBack(f, i + 8, r.indicator, 64, 129);
    TextBack(f, i + 72, r.kind, 32, 65);
    TextBack(f, i + 104, r.created, 32, 33);
    BytesHeld(f, i + 136, [r.isActive]);
  }

  lemma {:induction false} OneOfManyBack(f: seq<u8>, i: nat, rs: seq<Risk>, k: nat)
    requires Holds(f, i, RecordsBytes(rs)) && k < |rs|
    ensures RecordEnds(f, i + 137 * k) && RecordAt(f, i + 137 * k) == KeptRisk(rs[k])
  {
    NthRecord(f, i, rs, k);
    RecordBack(f, i + 137 * k, rs[k]);
  }

  lemma {:induction false} RecordsBack(f: seq<u8>, i: nat, rs: seq<Risk>)
    requires Holds(f, i, RecordsBytes(rs))
    ensures RecordsEnd(f, i, |rs|) && RecordsAt(f, i, |rs|) == KeptRisks(rs)
  {
    forall k | 0 <= k < |rs| ensures RecordEnds(f, i + 137 * k) && RecordAt(f, i + 137 * k) == KeptRisk(rs[k]) {
      OneOfManyBack(f, i, rs, k);
    }
    SameRecords(f, i, rs);
  }

  lemma SameRecords(f: seq<u8>, i: nat, rs: seq<Risk>)
    requires RecordsEnd(f, i, |rs|) && forall k :: 0 <= k < |rs| ==> RecordAt(f, i + 137 * k) == KeptRisk(rs[k])
    ensures RecordsAt(f, i, |rs|) == KeptRisks(rs)
  {
  }

  lemma {:induction false} HeaderBack(f: seq<u8>, c: Config)
    requires |c.risks| < TWO64 && Holds(f, 0, HeaderBytes(c))
    ensures CText(f, 0, 360) == Some(Kept(c.syncNextUrl, 256))
    ensures CText(f, 256, 104) == Some(Kept(c.updateTime, 64))
    ensures Le64(f, 320) == |c.risks|
  {
    var tail2 := LeBytes(|c.risks|, 8) + Zeros(32);
    var tail1 := StrField(c.updateTime, 64) + tail2;
    HoldsBoth(f, 0, StrField(c.syncNextUrl, 256), tail1);
    HoldsBoth(f, 256, StrField(c.updateTime, 64), tail2);
    HoldsBoth(f, 320, LeBytes(|c.risks|, 8), Zeros(32));
    TextBack(f, 0, c.syncNextUrl, 256, 360);
    TextBack(f, 256, c.updateTime, 64, 104);
    Number64Back(f, 320, |c.risks|);
  }

  /** Reading what was written: the count of the list, and every string cut at its first NUL and at
      one byte less than its field. */
  lemma WriteThenRead(c: Config)
    requires |c.risks| < TWO64
    ensures Loaded(FileOf(c)) == Some(KeptConfig(c))
  {
    var f := FileOf(c);
    assert f[0..|f|] == f;
    assert Holds(f, 0, HeaderBytes(c) + RecordsBytes(c.risks));
    HoldsBoth(f, 0, HeaderBytes(c), RecordsBytes(c.risks));
    HeaderBack(f, c);
    RecordsBack(f, 360, c.risks);
  }

  predicate FitsRisk(r: Risk) { Fits(r.indicator, 64) && Fits(r.kind, 32) && Fits(r.created, 32) }

  predicate FitsConfig(c: Config) {
    && Fits(c.syncNextUrl, 256) && Fits(c.updateTime, 64)
    && c.riskCount == |c.risks|
    && forall i :: 0 <= i < |c.risks| ==> FitsRisk(c.risks[i])
  }

  lemma KeptRiskIff(r: Risk)
    ensures KeptRisk(r) == r <==> FitsRisk(r)
  {
    KeptIff(r.indicator, 64);
    KeptIff(r.kind, 32);
    KeptIff(r.created, 32);
  }

  /** A configuration survives the file unchanged exactly when its strings have no NUL and are shorter
      than their fields, and its count was right. */
  lemma SurvivesIff(c: Config)
    requires |c.risks| < TWO64
    ensures Loaded(FileOf(c)) == Some(c) <==> FitsConfig(c)
  {
    WriteThenRead(c);
    KeptIff(c.syncNextUrl, 256);
    KeptIff(c.updateTime, 64);
    forall i | 0 <= i < |c.risks| ensures KeptRisks(c.risks)[i] == c.risks[i] <==> FitsRisk(c.risks[i]) {
      KeptRiskIff(c.risks[i]);
    }
    if FitsConfig(c) {
      assert KeptRisks(c.risks) == c.risks;
    }
  }

  /** The shortest address that does not survive: 256 bytes, of which one is cut. */
  lemma LongUrlIsCut(time: seq<u8>)
    ensures var c := Config(seq(256, _ => 0x61), time, 0, []);
      Loaded(FileOf(c)) != Some(c) && Loaded(FileOf(c)).Some? && |Loaded(FileOf(c)).value.syncNextUrl| == 255
  {
    var c := Config(seq(256, _ => 0x61), time, 0, []);
    WriteThenRead(c);
    NoneBefore(c.syncNextUrl, 0);
  }

  lemma KeptRiskFits(r: Risk)
    ensures FitsRisk(KeptRisk(r))
  {
    KeptIsFree(r.indicator, 64);
    KeptIsFree(r.kind, 32);
    KeptIsFree(r.created, 32);
  }

  /** A second write and read changes nothing more. */
  lemma SecondTripIsIdentity(c: Config)
    requires |c.risks| < TWO64
    ensures Loaded(FileOf(c)).Some? && Loaded(FileOf(Loaded(FileOf(c)).value)) == Loaded(FileOf(c))
  {
    WriteThenRead(c);
    var k := KeptConfig(c);
    KeptTwice(c.syncNextUrl, 256);
    KeptTwice(c.updateTime, 64);
    KeptIff(k.syncNextUrl, 256);
    KeptIff(k.updateTime, 64);
    forall i | 0 <= i < |k.risks| ensures FitsRisk(k.risks[i]) {
      KeptRiskFits(c.risks[i]);
    }
    SurvivesIff(k);
  }
}
