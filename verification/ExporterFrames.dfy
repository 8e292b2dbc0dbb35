/** The frames the C++ exporter sends over its Unix socket (src/user/servie/ExporterService.hpp,
    src/user/model/Common.h): a header with a type and a count, then that many fixed-width bodies. */
module ExporterFrames {
  import opened Machine
  import opened FixedFields

  type i32 = x: int | -0x8000_0000 <= x < 0x8000_0000

  /** One entry of the risk metrics; the addresses already printed. */
  datatype Metric = Metric(domain: seq<u8>, srcIp: seq<u8>, dstIp: seq<u8>, count: u64)

  /** One entry of the file-event metrics. */
  datatype FileEntry = FileEntry(pid: u32, comm: seq<u8>, filepath: seq<u8>, isWrite: i32, count: u64)

  datatype Frame = Bpf(metrics: seq<Metric>) | Ksm(entries: seq<FileEntry>)

  /** BPFTraceBody: 32 + 32 + 16 + 16 + 8 bytes. */
  function MetricBytes(m: Metric): (b: seq<u8>)
    ensures |b| == 104
  {
    StrField(m.domain, 32) + (StrField(m.domain, 32)
      + (StrField(m.srcIp, 16) + (StrField(m.dstIp, 16) + LeBytes(m.count, 8))))
  }

  /** KsmFEExportBody: 4 + 16 + 256 + 4 + 8 bytes. */
  function EntryBytes(e: FileEntry): (b: seq<u8>)
    ensures |b| == 288
  {
    LeBytes(e.pid, 4) + (MemField(e.comm, 16)
      + (MemField(e.filepath, 256) + (LeBytes(Wrap32(e.isWrite), 4) + LeBytes(e.count, 8))))
  }

  function MetricsBytes(ms: seq<Metric>): (b: seq<u8>)
    ensures |b| == 104 * |ms|
  {
    if ms == [] then [] else MetricBytes(ms[0]) + MetricsBytes(ms[1..])
  }

  function EntriesBytes(es: seq<FileEntry>): (b: seq<u8>)
    ensures |b| == 288 * |es|
  {
    if es == [] then [] else EntryBytes(es[0]) + EntriesBytes(es[1..])
  }

  function Size(f: Frame): nat {
    match f
    case Bpf(ms) => |ms|
    case Ksm(es) => |es|
  }

  /** The header: the count is cast to 32 bits. */
  function HeaderBytes(f: Frame): (b: seq<u8>)
    ensures |b| == 8
  {
    LeBytes(if f.Bpf? then 1 else 2, 4) + LeBytes(Wrap32(Size(f)), 4)
  }

  function FrameSize(f: Frame): nat { 8 + (if f.Bpf? then 104 else 288) * Size(f) }

  function BodyBytes(f: Frame): (b: seq<u8>)
    ensures |b| + 8 == FrameSize(f)
  {
    match f
    case Bpf(ms) => MetricsBytes(ms)
    case Ksm(es) => EntriesBytes(es)
  }

  function FrameBytes(f: Frame): (b: seq<u8>)
    ensures |b| == FrameSize(f)
  {
    HeaderBytes(f) + BodyBytes(f)
  }

  /** Where the `n`-th frame begins. */
  function Offset(fs: seq<Frame>, n: nat): nat
    requires n <= |fs|
  {
    if n == 0 then 0 else Offset(fs, n - 1) + FrameSize(fs[n - 1])
  }

  /** The first `n` frames, one after the other. */
  function Stream(fs: seq<Frame>, n: nat): (b: seq<u8>)
    requires n <= |fs|
    ensures |b| == Offset(fs, n)
  {
    if n == 0 then [] else Stream(fs, n - 1) + FrameBytes(fs[n - 1])
  }

  // ----- the sender -----

  /** What gets through of `b` when at most `n` more bytes do. */
  function Upto(b: seq<u8>, n: nat): (c: seq<u8>)
    ensures c <= b && |c| == Min(|b|, n)
  {
    if |b| <= n then b else b[..n]
  }

  lemma UptoBoth(a: seq<u8>, b: seq<u8>, n: nat)
    ensures Upto(a + b, n) == if |a| <= n then a + Upto(b, n - |a|) else Upto(a, n)
  {
    if |a| <= n && |a + b| > n {
      assert (a + b)[..n] == a + b[..n - |a|];
    }
  }

  function Concat(bodies: seq<seq<u8>>): seq<u8> {
    if bodies == [] then [] else bodies[0] + Concat(bodies[1..])
  }

  lemma {:induction false} SnapshotOfMetrics(ms: seq<Metric>, bodies: seq<seq<u8>>)
    requires |bodies| == |ms| && forall k :: 0 <= k < |ms| ==> bodies[k] == MetricBytes(ms[k])
    ensures Concat(bodies) == MetricsBytes(ms)
    decreases |ms|
  {
    if ms != [] {
      SnapshotOfMetrics(ms[1..], bodies[1..]);
    }
  }

  lemma {:induction false} SnapshotOfEntries(es: seq<FileEntry>, bodies: seq<seq<u8>>)
    requires |bodies| == |es| && forall k :: 0 <= k < |es| ==> bodies[k] == EntryBytes(es[k])
    ensures Concat(bodies) == EntriesBytes(es)
    decreases |es|
  {
    if es != [] {
      SnapshotOfEntries(es[1..], bodies[1..]);
    }
  }

  /** One client connection. `room` is how many more bytes the peer takes before a send fails or the
      service is stopped. */
  class ExporterService {
    var sent: seq<u8>
    var room: nat

    constructor (room: nat)
      ensures sent == [] && this.room == room
    {
      sent, this.room := [], room;
    }

    /** `b` has been sent since `before`, as far as it goes. */
    twostate predicate Sends(b: seq<u8>, ok: bool)
      reads this
    {
      && sent == old(sent) + Upto(b, old(room))
      && room == old(room) - |Upto(b, old(room))|
      && (ok <==> |b| <= old(room))
    }

    /** send_all: everything, or what got through before the failure. */
    method SendAll(buf: seq<u8>) returns (ok: bool)
      modifies this
      ensures Sends(buf, ok)
    {
      if |buf| <= room {
        sent, room := sent + buf, room - |buf|;
        return true;
      }
      sent, room := sent + buf[..room], 0;
      return false;
    }

    /** The loop that sends the snapshot body by body. */
    method SendBodies(bodies: seq<seq<u8>>) returns (ok: bool)
      modifies this
      ensures Sends(Concat(bodies), ok)
    {
      ghost var all, room0, sent0 := Concat(bodies), room, sent;
      assert bodies[0..] == bodies;
      for i := 0 to |bodies|
        invariant room <= room0
        invariant |Concat(bodies[i..])| <= room <==> |all| <= room0
        invariant sent + Upto(Concat(bodies[i..]), room) == sent0 + Upto(all, room0)
        invariant room - |Upto(Concat(bodies[i..]), room)| == room0 - |Upto(all, room0)|
      {
        ghost var rest := Concat(bodies[i + 1..]);
        assert bodies[i..][1..] == bodies[i + 1..];
        UptoBoth(bodies[i], rest, room);
        if |bodies[i]| <= room {
          Associate(sent, bodies[i], Upto(rest, room - |bodies[i]|));
        }
        var sentOne := SendAll(bodies[i]);
        if !sentOne {
          return false;
        }
      }
      assert bodies[|bodies|..] == [];
      return true;
    }

    /** _send_bpftrace: first a snapshot of all bodies, then the header, then the bodies. `metrics` is the
        map in the order it iterates. */
    method SendBpftrace(metrics: seq<Metric>) returns (ok: bool)
      modifies this
      ensures Sends(FrameBytes(Bpf(metrics)), ok)
    {
      var bodies: seq<seq<u8>> := [];
      for i := 0 to |metrics|
        invariant |bodies| == i && forall k :: 0 <= k < i ==> bodies[k] == MetricBytes(metrics[k])
        invariant sent == old(sent) && room == old(room)
      {
        bodies := bodies + [MetricBytes(metrics[i])];
      }
      SnapshotOfMetrics(metrics, bodies);
      var head := LeBytes(1, 4) + LeBytes(Wrap32(|bodies|), 4);
      UptoBoth(head, Concat(bodies), room);
      if |head| <= room {
        Associate(sent, head, Upto(Concat(bodies), room - |head|));
      }
      ok := SendAll(head);
      if !ok {
        return;
      }
      ok := SendBodies(bodies);
    }

    /** _send_ksm_events */
    method SendKsmEvents(entries: seq<FileEntry>) returns (ok: bool)
      modifies this
      ensures Sends(FrameBytes(Ksm(entries)), ok)
    {
      var bodies: seq<seq<u8>> := [];
      for i := 0 to |entries|
        invariant |bodies| == i && forall k :: 0 <= k < i ==> bodies[k] == EntryBytes(entries[k])
        invariant sent == old(sent) && room == old(room)
      {
        bodies := bodies + [EntryBytes(entries[i])];
      }
      SnapshotOfEntries(entries, bodies);
      var head := LeBytes(2, 4) + LeBytes(Wrap32(|bodies|), 4);
      UptoBoth(head, Concat(bodies), room);
      if |head| <= room {
        Associate(sent, head, Upto(Concat(bodies), room - |head|));
      }
      ok := SendAll(head);
      if !ok {
        return;
      }
      if bodies == [] {
        return true;
      }
      ok := SendBodies(bodies);
    }
  }
}
