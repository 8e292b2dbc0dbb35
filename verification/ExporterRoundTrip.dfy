/** The C++ writer and the Go reader of the exporter socket agree on every stream of frames. */
module ExporterRoundTrip {
  import opened Machine
  import opened FixedFields
  import opened Wire
  import opened ExporterFrames
  import opened ExporterReader

  // ----- what the reader should say, told from the entries -----

  /** The body of an entry: both text fields hold the domain. */
  function BodyOf(m: Metric): Body {
    Body(StrField(m.domain, 32), StrField(m.domain, 32), StrField(m.srcIp, 16), StrField(m.dstIp, 16), m.count)
  }

  function EventOf(e: FileEntry): Call {
    FileEvent(e.pid, Trim(MemField(e.comm, 16)), Trim(MemField(e.filepath, 256)), e.isWrite,
              if e.count < 0x8000_0000_0000_0000 then e.count else e.count - 0x1_0000_0000_0000_0000)
  }

  /** The count arrives unchanged below 2^63, and modulo 2^64 always. */
  lemma CountKept(e: FileEntry)
    ensures EventOf(e).count == e.count <==> e.count < 0x8000_0000_0000_0000
    ensures EventOf(e).count % 0x1_0000_0000_0000_0000 == e.count
  {
  }

  function BodiesOf(ms: seq<Metric>): (bs: seq<Body>)
    ensures |bs| == |ms|
  {
    seq(|ms|, k requires 0 <= k < |ms| => BodyOf(ms[k]))
  }

  function EventsOf(es: seq<FileEntry>): (cs: seq<Call>)
    ensures |cs| == |es|
  {
    seq(|es|, k requires 0 <= k < |es| => EventOf(es[k]))
  }

  function Expected(f: Frame): seq<Call> {
    match f
    case Bpf(ms) => [Reset, Summary(Summed(BodiesOf(ms), |ms|))]
    case Ksm(es) => EventsOf(es)
  }

  function AllExpected(fs: seq<Frame>): (says: seq<seq<Call>>)
    ensures |says| == |fs|
  {
    seq(|fs|, k requires 0 <= k < |fs| => Expected(fs[k]))
  }

  // ----- one body -----

  lemma FieldBack(p: seq<u8>, i: nat, s: seq<u8>, w: nat)
    requires w > 0
    ensures Holds(p, i, StrField(s, w)) ==> Bytes(p, i, w) == StrField(s, w)
    ensures Holds(p, i, MemField(s, w)) ==> Bytes(p, i, w) == MemField(s, w)
  {
    if Holds(p, i, StrField(s, w)) {
      BytesHeld(p, i, StrField(s, w));
    }
    if Holds(p, i, MemField(s, w)) {
      BytesHeld(p, i, MemField(s, w));
    }
  }

  lemma {:induction false} MetricBack(p: seq<u8>, i: nat, m: Metric)
    requires Holds(p, i, MetricBytes(m))
    ensures BodyAt(p, i) == BodyOf(m)
  {
    var tail3 := StrField(m.dstIp, 16) + LeBytes(m.count, 8);
    var tail2 := StrField(m.srcIp, 16) + tail3;
    var tail1 := StrField(m.domain, 32) + tail2;
    HoldsBoth(p, i, StrField(m.domain, 32), tail1);
    HoldsBoth(p, i + 32, StrField(m.domain, 32), tail2);
    HoldsBoth(p, i + 64, StrField(m.srcIp, 16), tail3);
    HoldsBoth(p, i + 80, StrField(m.dstIp, 16), LeBytes(m.count, 8));
    FieldBack(p, i, m.domain, 32);
    FieldBack(p, i + 32, m.domain, 32);
    FieldBack(p, i + 64, m.srcIp, 16);
    FieldBack(p, i + 80, m.dstIp, 16);
    Number64Back(p, i + 96, m.count);
  }

  lemma SignedBack(x: i32)
    ensures Signed32(Wrap32(x)) == x
  {
  }

  lemma {:induction false} EntryHolds(p: seq<u8>, i: nat, e: FileEntry)
    requires Holds(p, i, EntryBytes(e))
    ensures Holds(p, i, LeBytes(e.pid, 4)) && Holds(p, i + 4, MemField(e.comm, 16))
    ensures Holds(p, i + 20, MemField(e.filepath, 256))
    ensures Holds(p, i + 276, LeBytes(Wrap32(e.isWrite), 4)) && Holds(p, i + 280, LeBytes(e.count, 8))
  {
    var tail3 := LeBytes(Wrap32(e.isWrite), 4) + LeBytes(e.count, 8);
    var tail2 := MemField(e.filepath, 256) + tail3;
    var tail1 := MemField(e.comm, 16) + tail2;
    HoldsBoth(p, i, LeBytes(e.pid, 4), tail1);
    HoldsBoth(p, i + 4, MemField(e.comm, 16), tail2);
    HoldsBoth(p, i + 20, MemField(e.filepath, 256), tail3);
    HoldsBoth(p, i + 276, LeBytes(Wrap32(e.isWrite), 4), LeBytes(e.count, 8));
  }

  /** The bodies byte by byte, as the packed C structures lay them out: label, domain, both addresses and count; and
      process, command, path, direction and count. */
  lemma {:induction false} MetricLayout(m: Metric)
    ensures var b := MetricBytes(m);
      && b[0..32] == StrField(m.domain, 32) && b[32..64] == StrField(m.domain, 32)
      && b[64..80] == StrField(m.srcIp, 16) && b[80..96] == StrField(m.dstIp, 16) && b[96..104] == LeBytes(m.count, 8)
  {
  }

  lemma {:induction false} EntryLayout(e: FileEntry)
    ensures var b := EntryBytes(e);
      && b[0..4] == LeBytes(e.pid, 4) && b[4..20] == MemField(e.comm, 16) && b[20..276] == MemField(e.filepath, 256)
      && b[276..280] == LeBytes(Wrap32(e.isWrite), 4) && b[280..288] == LeBytes(e.count, 8)
  {
    var b := EntryBytes(e);
    assert b[0..0 + 288] == b;
    EntryHolds(b, 0, e);
  }

  /** A frame starts with its type, 1 or 2, and its count modulo 2^32, four bytes each, least significant first. */
  lemma {:induction false} HeaderLayout(f: Frame)
    ensures var b := HeaderBytes(f);
      && b[0..4] == (if f.Bpf? then [1, 0, 0, 0] else [2, 0, 0, 0])
      && b[4..8] == LeBytes(Size(f) % 0x1_0000_0000, 4)
  {
    assert LeBytes(1, 4) == [1, 0, 0, 0] && LeBytes(2, 4) == [2, 0, 0, 0] by {
      assert LeBytes(0, 3) == [0, 0, 0] by { assert LeBytes(0, 1) == [0] && LeBytes(0, 2) == [0, 0]; }
    }
  }

  lemma {:induction false} EntryBack(p: seq<u8>, i: nat, e: FileEntry)
    requires Holds(p, i, EntryBytes(e))
    ensures EventAt(p, i) == EventOf(e)
  {
    EntryHolds(p, i, e);
    Number32Back(p, i, e.pid);
    FieldBack(p, i + 4, e.comm, 16);
    FieldBack(p, i + 20, e.filepath, 256);
    Number32Back(p, i + 276, Wrap32(e.isWrite));
    Number64Back(p, i + 280, e.count);
    SignedBack(e.isWrite);
  }

  /** What the reader makes of text without NULs: the text, cut to fit. */
  lemma TextBack(m: Metric, e: FileEntry)
    ensures Trim(BodyOf(m).domain) == Kept(m.domain, 32)
    ensures NulFree(e.comm) ==> EventOf(e).comm == Cut(e.comm, 15)
    ensures NulFree(e.filepath) ==> EventOf(e).filepath == Cut(e.filepath, 255)
  {
    TrimReads(m.domain, 32);
    TrimReads(e.comm, 16);
    TrimReads(e.filepath, 256);
  }

  // ----- one frame -----

  lemma {:induction false} NthMetric(p: seq<u8>, i: nat, ms: seq<Metric>, k: nat)
    requires Holds(p, i, MetricsBytes(ms)) && k < |ms|
    ensures Holds(p, i + 104 * k, MetricBytes(ms[k]))
    decreases k
  {
    HoldsBoth(p, i, MetricBytes(ms[0]), MetricsBytes(ms[1..]));
    if k > 0 {
      NthMetric(p, i + 104, ms[1..], k - 1);
      assert i + 104 + 104 * (k - 1) == i + 104 * k;
    }
  }

  lemma {:induction false} NthEntry(p: seq<u8>, i: nat, es: seq<FileEntry>, k: nat)
    requires Holds(p, i, EntriesBytes(es)) && k < |es|
    ensures Holds(p, i + 288 * k, EntryBytes(es[k]))
    decreases k
  {
    HoldsBoth(p, i, EntryBytes(es[0]), EntriesBytes(es[1..]));
    if k > 0 {
      NthEntry(p, i + 288, es[1..], k - 1);
      assert i + 288 + 288 * (k - 1) == i + 288 * k;
    }
  }

  lemma {:induction false} NthBody(p: seq<u8>, i: nat, ms: seq<Metric>, k: nat)
    requires Holds(p, i, MetricsBytes(ms)) && k < |ms|
    ensures BodyAt(p, i + 104 * k) == BodyOf(ms[k])
  {
    NthMetric(p, i, ms, k);
    MetricBack(p, i + 104 * k, ms[k]);
  }

  lemma {:induction false} NthEvent(p: seq<u8>, i: nat, es: seq<FileEntry>, k: nat)
    requires Holds(p, i, EntriesBytes(es)) && k < |es|
    ensures EventAt(p, i + 288 * k) == EventOf(es[k])
  {
    NthEntry(p, i, es, k);
    EntryBack(p, i + 288 * k, es[k]);
  }

  lemma {:induction false} BodiesBack(p: seq<u8>, i: nat, ms: seq<Metric>)
    requires Holds(p, i, MetricsBytes(ms))
    ensures BodiesAt(p, i, |ms|) == BodiesOf(ms)
  {
    forall k | 0 <= k < |ms| ensures BodyAt(p, i + 104 * k) == BodyOf(ms[k]) {
      NthBody(p, i, ms, k);
    }
  }

  lemma {:induction false} EventsBack(p: seq<u8>, i: nat, es: seq<FileEntry>)
    requires Holds(p, i, EntriesBytes(es))
    ensures EventsAt(p, i, |es|) == EventsOf(es)
  {
    forall k | 0 <= k < |es| ensures EventAt(p, i + 288 * k) == EventOf(es[k]) {
      NthEvent(p, i, es, k);
    }
    SameEvents(p, i, es);
  }

  lemma SameEvents(p: seq<u8>, i: nat, es: seq<FileEntry>)
    requires forall k :: 0 <= k < |es| ==> EventAt(p, i + 288 * k) == EventOf(es[k])
    ensures EventsAt(p, i, |es|) == EventsOf(es)
  {
  }

  function KindOf(f: Frame): u32 { if f.Bpf? then 1 else 2 }

  /** The header as it reads back. */
  lemma {:induction false} HeaderBack(p: seq<u8>, i: nat, f: Frame)
    requires Holds(p, i, HeaderBytes(f))
    ensures i + 8 <= |p| && Le32(p, i) == KindOf(f) && Le32(p, i + 4) == Wrap32(Size(f))
  {
    HoldsBoth(p, i, LeBytes(KindOf(f), 4), LeBytes(Wrap32(Size(f)), 4));
    Number32Back(p, i, KindOf(f));
    Number32Back(p, i + 4, Wrap32(Size(f)));
  }

  /** The reader looks for the next header right after a frame exactly when the frame's count fits the
      header's 32 bits. */
  lemma {:induction false} InStepIff(p: seq<u8>, i: nat, f: Frame)
    requires Holds(p, i, FrameBytes(f))
    ensures i + 8 <= |p|
    ensures NextHeader(p, i) == i + |FrameBytes(f)| <==> Size(f) < TWO32
  {
    HoldsBoth(p, i, HeaderBytes(f), BodyBytes(f));
    HeaderBack(p, i, f);
  }

  /** The smallest frame that puts them out of step: its count wraps to zero. */
  lemma {:induction false} WrappedCount(m: Metric)
    ensures var f := Bpf(seq(TWO32, _ => m));
      NextHeader(FrameBytes(f), 0) == 8 && |FrameBytes(f)| == 8 + 104 * TWO32
  {
    var f := Bpf(seq(TWO32, _ => m));
    var p := FrameBytes(f);
    assert p[..8] == HeaderBytes(f);
    HeaderBack(p, 0, f);
  }

  lemma {:induction false} FrameBack(p: seq<u8>, i: nat, f: Frame)
    requires Holds(p, i, FrameBytes(f)) && Size(f) < TWO32
    ensures i + 8 <= |p| && Sound(p, i) && NextHeader(p, i) == i + |FrameBytes(f)|
    ensures Said(p, i) == Expected(f)
  {
    HoldsBoth(p, i, HeaderBytes(f), BodyBytes(f));
    HeaderBack(p, i, f);
    InStepIff(p, i, f);
    match f
    case Bpf(ms) => BodiesBack(p, i + 8, ms);
    case Ksm(es) =>
      WholeIs(p, i + 8, |es|, |es|);
      EventsBack(p, i + 8, es);
  }

  // ----- streams -----

  ghost predicate Countable(fs: seq<Frame>) { forall k :: 0 <= k < |fs| ==> Size(fs[k]) < TWO32 }

  ghost predicate Leads(a: seq<u8>, b: seq<u8>) { |a| <= |b| && b[..|a|] == a }

  lemma LeadsMore(a: seq<u8>, b: seq<u8>, c: seq<u8>)
    requires Leads(a, b)
    ensures Leads(a, b + c)
  {
  }

  lemma LeadsOn(a: seq<u8>, b: seq<u8>, p: seq<u8>)
    requires Leads(a, b) && Leads(b, p)
    ensures Leads(a, p)
  {
    assert p[..|b|][..|a|] == p[..|a|];
  }

  lemma {:induction false} LeadsFrame(fs: seq<Frame>, n: nat, next: nat, a: seq<u8>)
    requires n < next == n + 1 <= |fs| && Leads(a, Stream(fs, n))
    ensures Leads(a, Stream(fs, next))
  {
    LeadsMore(a, Stream(fs, n), FrameBytes(fs[n]));
  }

  /** Shorter streams are prefixes of longer ones. */
  lemma {:induction false} StreamGrows(fs: seq<Frame>, k: nat, n: nat, a: seq<u8>)
    requires k <= n <= |fs| && a == Stream(fs, k)
    ensures Leads(a, Stream(fs, n))
    decreases n
  {
    if k < n {
      var last := n - 1;
      StreamGrows(fs, k, last, a);
      LeadsFrame(fs, last, n, a);
    }
  }

  /** The data begins with the first `n` frames. */
  ghost predicate Begins(p: seq<u8>, fs: seq<Frame>, n: nat) {
    n <= |fs| && Leads(Stream(fs, n), p)
  }

  lemma {:induction false} BeginsLess(p: seq<u8>, fs: seq<Frame>, k: nat, n: nat)
    requires Begins(p, fs, n) && k <= n
    ensures Begins(p, fs, k)
  {
    StreamGrows(fs, k, n, Stream(fs, k));
    LeadsOn(Stream(fs, k), Stream(fs, n), p);
  }

  lemma SecondPart(p: seq<u8>, s: seq<u8>, a: seq<u8>, b: seq<u8>)
    requires Leads(s, p) && s == a + b
    ensures Holds(p, |a|, b)
  {
    assert p[0..0 + |s|] == s;
    HoldsBoth(p, 0, a, b);
  }

  lemma {:induction false} LastFrame(p: seq<u8>, fs: seq<Frame>, n: nat, f: Frame, i: nat)
    requires 0 < n && Begins(p, fs, n) && f == fs[n - 1] && i == |Stream(fs, n - 1)|
    ensures Holds(p, i, FrameBytes(f)) && i + |FrameBytes(f)| == |Stream(fs, n)|
  {
    SecondPart(p, Stream(fs, n), Stream(fs, n - 1), FrameBytes(f));
  }

  lemma {:induction false} WholeRound(p: seq<u8>, i: nat, f: Frame, next: nat)
    requires Holds(p, i, FrameBytes(f)) && Size(f) < TWO32 && next == i + FrameSize(f)
    ensures RoundAt(p, i) == Go(Expected(f), next)
  {
    FrameBack(p, i, f);
  }

  /** Every whole frame at the beginning is read as what it is. */
  lemma {:induction false} FrameRound(p: seq<u8>, fs: seq<Frame>, n: nat, k: nat, f: Frame, i: nat, next: nat)
    requires k < n && Begins(p, fs, n) && Countable(fs)
    requires f == fs[k] && i == Offset(fs, k) && next == i + FrameSize(f)
    ensures RoundAt(p, i) == Go(Expected(f), next)
  {
    FrameStands(p, fs, n, k, f, i);
    WholeRound(p, i, f, next);
  }

  lemma {:induction false} FrameStands(p: seq<u8>, fs: seq<Frame>, n: nat, k: nat, f: Frame, i: nat)
    requires k < n && Begins(p, fs, n) && f == fs[k] && i == Offset(fs, k)
    ensures Holds(p, i, FrameBytes(f))
  {
    var k' := k + 1;
    BeginsLess(p, fs, k', n);
    LastFrame(p, fs, k', f, i);
  }

  function Offsets(fs: seq<Frame>): (offs: seq<nat>)
    ensures |offs| == |fs| + 1
  {
    seq(|fs| + 1, k requires 0 <= k <= |fs| => Offset(fs, k))
  }

  lemma {:induction false} GoesOn(p: seq<u8>, fs: seq<Frame>, n: nat, k: nat)
    requires k < n && Begins(p, fs, n) && Countable(fs)
    ensures RoundsOf(p)(Offsets(fs)[k]) == Go(AllExpected(fs)[k], Offsets(fs)[k + 1])
  {
    FrameRound(p, fs, n, k, fs[k], Offset(fs, k), Offset(fs, k + 1));
  }

  lemma {:induction false} StreamAhead(p: seq<u8>, fs: seq<Frame>, n: nat, rounds: nat)
    requires Begins(p, fs, n) && Countable(fs) && n <= rounds
    ensures Ahead(RoundsOf(p), SumOf(RoundsOf(p), 0, rounds), Flat(AllExpected(fs), n), Offset(fs, n), rounds - n)
  {
    forall k | 0 <= k < n ensures RoundsOf(p)(Offsets(fs)[k]) == Go(AllExpected(fs)[k], Offsets(fs)[k + 1]) {
      GoesOn(p, fs, n, k);
    }
    ManyRounds(RoundsOf(p), AllExpected(fs), Offsets(fs), n, rounds);
  }

  /** Reading the concatenation of any frames gives exactly what they hold, in order, up to the round in
      which the reader is cancelled, and stops on a header boundary; uncancelled, with nothing left over. */
  lemma {:induction false} SelfSynchronising(fs: seq<Frame>, rounds: nat)
    requires Countable(fs)
    ensures var p, n := Stream(fs, |fs|), Min(rounds, |fs|);
      && Calls(RoundsOf(p), 0, rounds) == Flat(AllExpected(fs), n)
      && Boundary(RoundsOf(p), 0, rounds) == |Stream(fs, n)|
      && (Cancelled(RoundsOf(p), 0, rounds) <==> rounds <= |fs|)
  {
    var p, n := Stream(fs, |fs|), Min(rounds, |fs|);
    BeginsLess(p, fs, n, |fs|);
    StreamAhead(p, fs, n, rounds);
    assert n < rounds ==> RoundsOf(p)(Offset(fs, n)) == Stop([]);
    LastRound(RoundsOf(p), SumOf(RoundsOf(p), 0, rounds), Flat(AllExpected(fs), n), Offset(fs, n), rounds - n, []);
    NothingAfter(Flat(AllExpected(fs), n));
  }

  // ----- a stream that is cut off -----

  /** What the reader says to the first `m` bytes of a frame, fewer than all. */
  function CutSays(f: Frame, m: nat): seq<Call>
    requires m < |FrameBytes(f)|
  {
    if m < 8 then []
    else
      match f
      case Bpf(_) => [Reset]
      case Ksm(es) => EventsOf(es)[..(m - 8) / 288]
  }

  lemma {:induction false} EntriesPrefix(es: seq<FileEntry>, w: nat)
    requires w <= |es|
    ensures |EntriesBytes(es[..w])| == 288 * w && EntriesBytes(es[..w]) == EntriesBytes(es)[..288 * w]
    decreases w
  {
    if w > 0 {
      EntriesPrefix(es[1..], w - 1);
      assert es[..w][1..] == es[1..][..w - 1] && es[..w][0] == es[0];
      TakeFirst(EntryBytes(es[0]), EntriesBytes(es[1..]), 288 * (w - 1));
    }
  }

  lemma TakeFirst(a: seq<u8>, b: seq<u8>, n: nat)
    requires n <= |b|
    ensures a + b[..n] == (a + b)[..|a| + n]
  {
  }

  /** A frame that stands at `i` but is cut off after `m` bytes, at the end of the data. */
  ghost predicate CutAt(p: seq<u8>, i: nat, f: Frame, m: nat) {
    m < |FrameBytes(f)| && |p| == i + m && p[i..] == FrameBytes(f)[..m]
  }

  lemma {:induction false} CutHeader(p: seq<u8>, i: nat, f: Frame, m: nat)
    requires CutAt(p, i, f, m) && m >= 8
    ensures Holds(p, i, HeaderBytes(f)) && p[i + 8..] == BodyBytes(f)[..m - 8]
  {
    var h, b := HeaderBytes(f), BodyBytes(f);
    TakeFirst(h, b, m - 8);
    assert p[i..] == h + b[..m - 8];
    assert p[i..][..8] == h && p[i..][8..] == b[..m - 8];
    assert p[i..i + 8] == p[i..][..8] && p[i + 8..] == p[i..][8..];
  }

  lemma {:induction false} CutEvents(p: seq<u8>, i: nat, es: seq<FileEntry>, m: nat)
    requires i <= |p| && m < 288 * |es| && |p| == i + m && p[i..] == EntriesBytes(es)[..m]
    ensures Whole(p, i, |es|) == m / 288
    ensures EventsAt(p, i, m / 288) == EventsOf(es)[..m / 288]
  {
    var w := m / 288;
    WholeIs(p, i, |es|, w);
    EntriesPrefix(es, w);
    assert p[i..i + 288 * w] == p[i..][..288 * w] == EntriesBytes(es)[..288 * w];
    EventsBack(p, i, es[..w]);
    assert EventsOf(es[..w]) == EventsOf(es)[..w];
  }

  lemma {:induction false} CutUnsound(p: seq<u8>, i: nat, f: Frame, m: nat)
    requires CutAt(p, i, f, m) && Size(f) < TWO32 && m >= 8
    ensures i + 8 <= |p| && Le32(p, i) == KindOf(f) && Le32(p, i + 4) == Size(f) && !Sound(p, i)
    ensures NextHeader(p, i) > |p| && p[i + 8..] == BodyBytes(f)[..m - 8]
  {
    CutHeader(p, i, f, m);
    HeaderBack(p, i, f);
  }

  lemma {:induction false} CutRound(p: seq<u8>, i: nat, f: Frame, m: nat)
    requires CutAt(p, i, f, m) && Size(f) < TWO32
    ensures RoundAt(p, i) == Stop(CutSays(f, m))
  {
    if m >= 8 {
      CutUnsound(p, i, f, m);
      if f.Ksm? {
        CutEvents(p, i + 8, f.entries, m - 8);
      }
    }
  }

  lemma {:induction false} BothParts(p: seq<u8>, fs: seq<Frame>, f: Frame, m: nat, whole: seq<u8>, cut: seq<u8>)
    requires m < |FrameBytes(f)| && whole == Stream(fs, |fs|) && cut == FrameBytes(f)[..m] && p == whole + cut
    ensures Begins(p, fs, |fs|) && CutAt(p, Offset(fs, |fs|), f, m)
  {
    assert p[..|whole|] == whole && p[|whole|..] == cut;
  }

  /** When the sender fails inside a frame, the reader has got every whole frame before it, and of the cut
      one no more than the reset or the events that came whole: nothing is made up and nothing mixed up. */
  lemma {:induction false} CutOff(fs: seq<Frame>, f: Frame, m: nat, rounds: nat)
    requires Countable(fs) && Size(f) < TWO32 && m < |FrameBytes(f)| && rounds > |fs|
    ensures var step := RoundsOf(Stream(fs, |fs|) + FrameBytes(f)[..m]);
      && Calls(step, 0, rounds) == Flat(AllExpected(fs), |fs|) + CutSays(f, m)
      && Boundary(step, 0, rounds) == Offset(fs, |fs|)
      && !Cancelled(step, 0, rounds)
  {
    var p := Stream(fs, |fs|) + FrameBytes(f)[..m];
    BothParts(p, fs, f, m, Stream(fs, |fs|), FrameBytes(f)[..m]);
    StreamAhead(p, fs, |fs|, rounds);
    CutRound(p, Offset(fs, |fs|), f, m);
    LastRound(RoundsOf(p), SumOf(RoundsOf(p), 0, rounds), Flat(AllExpected(fs), |fs|), Offset(fs, |fs|), rounds - |fs|,
              CutSays(f, m));
  }

  // ----- sums per domain -----

  predicate Of(b: Body, d: seq<u8>) { Trim(b.domain) == d }

  /** The counts of the first `n` bodies of a domain. */
  function Total(bs: seq<Body>, n: nat, d: seq<u8>): nat
    requires n <= |bs|
  {
    if n == 0 then 0 else Total(bs, n - 1, d) + if Of(bs[n - 1], d) then bs[n - 1].count else 0
  }

  /** Body `k` is the last of its domain. */
  predicate Last(bs: seq<Body>, n: nat, d: seq<u8>, k: nat)
    requires n <= |bs|
  {
    k < n && Of(bs[k], d) && forall j :: k < j < n ==> !Of(bs[j], d)
  }

  /** The summary of the first `n` bodies has domain `d` exactly when some body has it; its count is
      then the sum of that domain's counts modulo 2^64, and the rest is that of its last body. */
  ghost predicate AddsUp(bs: seq<Body>, n: nat, d: seq<u8>)
    requires n <= |bs|
  {
    var s := Summed(bs, n);
    if d in s then exists k: nat :: Last(bs, n, d, k) && s[d] == bs[k].(count := Wrap64(Total(bs, n, d)))
    else Total(bs, n, d) == 0 && forall k :: 0 <= k < n ==> !Of(bs[k], d)
  }

  lemma {:induction false} AddsUpOfSame(bs: seq<Body>, n: nat, d: seq<u8>)
    requires 0 < n <= |bs| && AddsUp(bs, n - 1, d) && Of(bs[n - 1], d)
    ensures AddsUp(bs, n, d)
  {
    WrapSum(bs[n - 1].count, Total(bs, n - 1, d));
    assert Last(bs, n, d, n - 1);
    assert Summed(bs, n)[d] == bs[n - 1].(count := Wrap64(Total(bs, n, d)));
  }

  lemma {:induction false} AddsUpOfOther(bs: seq<Body>, n: nat, d: seq<u8>)
    requires 0 < n <= |bs| && AddsUp(bs, n - 1, d) && !Of(bs[n - 1], d)
    ensures AddsUp(bs, n, d)
  {
    var before := Summed(bs, n - 1);
    if d in before {
      var k: nat :| Last(bs, n - 1, d, k) && before[d] == bs[k].(count := Wrap64(Total(bs, n - 1, d)));
      assert Last(bs, n, d, k);
    }
  }

  lemma {:induction false} SummaryAddsUp(bs: seq<Body>, n: nat, d: seq<u8>)
    requires n <= |bs|
    ensures AddsUp(bs, n, d)
    decreases n
  {
    if n > 0 {
      SummaryAddsUp(bs, n - 1, d);
      if Of(bs[n - 1], d) {
        AddsUpOfSame(bs, n, d);
      } else {
        AddsUpOfOther(bs, n, d);
      }
    }
  }
}
