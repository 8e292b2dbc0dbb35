/** LockFreeSPSCQueue: the ring buffer of src/user/util/LockFreeSPSCQueue.hpp, first as the
    class used by one thread at a time, then as the interleaving of one producer's and one
    consumer's individual loads, buffer accesses and stores. Accesses are taken to be
    sequentially consistent. */
module SpscQueue {
  import opened Machine

  // ----- the ring as a sequence -----

  /** Items from `tail` up to, not including, `head`, around a ring of `buf`. */
  function Slots<T>(buf: seq<T>, tail: nat, head: nat): (s: seq<T>)
    requires tail < |buf| && head < |buf|
    ensures |s| == Count(|buf|, tail, head)
  {
    if tail <= head then buf[tail..head] else buf[tail..] + buf[..head]
  }

  function Count(capacity: nat, tail: nat, head: nat): nat
    requires tail < capacity && head < capacity
  {
    if tail <= head then head - tail else capacity - tail + head
  }

  /** The index after `i` around the ring: zero exactly at the last slot. */
  function After(i: nat, capacity: nat): (r: nat)
    requires i < capacity
    ensures r == if i == capacity - 1 then 0 else i + 1
  {
    (i + 1) % capacity
  }

  lemma PutAtHead<T>(buf: seq<T>, tail: nat, head: nat, v: T)
    requires tail < |buf| && head < |buf| && After(head, |buf|) != tail
    ensures Slots(buf[head := v], tail, head) == Slots(buf, tail, head)
    ensures Slots(buf[head := v], tail, After(head, |buf|)) == Slots(buf, tail, head) + [v]
  {
    var b := buf[head := v];
    var next := After(head, |buf|);
    if tail <= head {
      assert b[tail..head] == buf[tail..head];
      if next == 0 {
        assert b[tail..] + b[..0] == buf[tail..head] + [v];
      } else {
        assert b[tail..next] == buf[tail..head] + [v];
      }
    } else {
      assert b[tail..] == buf[tail..] && b[..head] == buf[..head];
      assert b[..next] == buf[..head] + [v];
      assert b[tail..] + b[..next] == (buf[tail..] + buf[..head]) + [v];
    }
  }

  lemma TakeAtTail<T>(buf: seq<T>, tail: nat, head: nat)
    requires tail < |buf| && head < |buf| && tail != head
    ensures |Slots(buf, tail, head)| > 0 && Slots(buf, tail, head)[0] == buf[tail]
    ensures Slots(buf, After(tail, |buf|), head) == Slots(buf, tail, head)[1..]
  {
    var next := After(tail, |buf|);
    if tail <= head {
      assert buf[tail..head][1..] == buf[next..head];
    } else if next == 0 {
      assert (buf[tail..] + buf[..head])[1..] == buf[0..head];
    } else {
      assert (buf[tail..] + buf[..head])[1..] == buf[next..] + buf[..head];
    }
  }

  lemma FullIff(capacity: nat, tail: nat, head: nat)
    requires tail < capacity && head < capacity
    ensures After(head, capacity) == tail <==> Count(capacity, tail, head) == capacity - 1
  {
  }

  class Queue<T(0)> {
    const capacity: nat
    const buffer: array<T>
    var head: nat
    var tail: nat

    ghost predicate Valid()
      reads this
    {
      buffer.Length == capacity && head < capacity && tail < capacity
    }

    function Contents(): seq<T>
      requires Valid()
      reads this, buffer
    {
      Slots(buffer[..], tail, head)
    }

    constructor (capacity: nat)
      requires capacity >= 1
      ensures Valid() && this.capacity == capacity && Contents() == [] && fresh(buffer)
    {
      this.capacity := capacity;
      buffer := new T[capacity];
      head, tail := 0, 0;
    }

    method Push(val: T) returns (ok: bool)
      requires Valid()
      modifies this`head, buffer
      ensures Valid()
      ensures ok <==> |old(Contents())| < capacity - 1
      ensures Contents() == if ok then old(Contents()) + [val] else old(Contents())
    {
      var currentHead := head;
      var currentTail := tail;
      FullIff(capacity, currentTail, currentHead);
      if (currentHead + 1) % capacity == currentTail {
        return false;
      }
      PutAtHead(buffer[..], tail, head, val);
      buffer[currentHead] := val;
      head := (currentHead + 1) % capacity;
      assert buffer[..] == old(buffer[..])[currentHead := val];
      return true;
    }

    method Pop() returns (r: Option<T>)
      requires Valid()
      modifies this`tail
      ensures Valid()
      ensures r == (if old(Contents()) == [] then None else Some(old(Contents())[0]))
      ensures Contents() == if r.None? then old(Contents()) else old(Contents())[1..]
    {
      var currentTail := tail;
      var currentHead := head;
      if currentTail == currentHead {
        return None;
      }
      TakeAtTail(buffer[..], tail, head);
      var val := buffer[currentTail];
      tail := (currentTail + 1) % capacity;
      return Some(val);
    }
  }

  // ----- the interleaving of producer and consumer -----

  /** Producer: about to load tail, to write the slot, to store head. */
  datatype Producer<T> =
    | PIdle
    | PLoadTail(val: T, h: nat)
    | PWrite(val: T, h: nat)
    | PPublish(val: T, h: nat)

  /** Consumer: about to load head, to read the slot, to store tail. */
  datatype Consumer<T> =
    | CIdle
    | CLoadHead(t: nat)
    | CRead(t: nat)
    | CRelease(t: nat, val: T)

  /** The answers the calls returned, each placed at the access where it took effect. */
  datatype Answer<T> = Pushed(val: T) | Full | Popped(val: T) | Empty

  datatype State<T> = State(buf: seq<T>, head: nat, tail: nat, p: Producer<T>, c: Consumer<T>, log: seq<Answer<T>>)

  datatype Move<T> = StartPush(val: T) | Produce | StartPop | Consume

  ghost predicate InRange<T>(s: State<T>) {
    && s.head < |s.buf| && s.tail < |s.buf|
    && (s.p.PWrite? || s.p.PPublish? ==> s.p.h < |s.buf|)
    && (s.p.PLoadTail? ==> s.p.h < |s.buf|)
    && (!s.c.CIdle? ==> s.c.t < |s.buf|)
  }

  /** One atomic access. Starting a call performs its first load. */
  function Next<T>(s: State<T>, m: Move<T>): State<T>
    requires InRange(s)
  {
    match m
    case StartPush(v) => if s.p.PIdle? then s.(p := PLoadTail(v, s.head)) else s
    case Produce => (
      match s.p
      case PIdle => s
      case PLoadTail(v, h) =>
        if After(h, |s.buf|) == s.tail then s.(p := PIdle, log := s.log + [Full]) else s.(p := PWrite(v, h))
      case PWrite(v, h) => s.(buf := s.buf[h := v], p := PPublish(v, h))
      case PPublish(v, h) => s.(head := After(h, |s.buf|), p := PIdle, log := s.log + [Pushed(v)])
    )
    case StartPop => if s.c.CIdle? then s.(c := CLoadHead(s.tail)) else s
    case Consume => (
      match s.c
      case CIdle => s
      case CLoadHead(t) =>
        if t == s.head then s.(c := CIdle, log := s.log + [Empty]) else s.(c := CRead(t))
      case CRead(t) => s.(c := CRelease(t, s.buf[t]))
      case CRelease(t, v) => s.(tail := After(t, |s.buf|), c := CIdle, log := s.log + [Popped(v)])
    )
  }

  function Held<T>(s: State<T>): seq<T>
    requires InRange(s)
  {
    Slots(s.buf, s.tail, s.head)
  }

  /** What holds between any two accesses: a producer past its check has room for its item
      and owns the slot it writes; a consumer past its check has an item, and holds the oldest. */
  ghost predicate Inv<T>(s: State<T>) {
    && InRange(s)
    && (!s.p.PIdle? ==> s.p.h == s.head)
    && (s.p.PWrite? || s.p.PPublish? ==> After(s.head, |s.buf|) != s.tail)
    && (s.p.PPublish? ==> s.buf[s.head] == s.p.val)
    && (!s.c.CIdle? ==> s.c.t == s.tail)
    && (s.c.CRead? || s.c.CRelease? ==> s.head != s.tail)
    && (s.c.CRelease? ==> s.buf[s.tail] == s.c.val)
  }

  /** The FIFO queue of at most `capacity - 1` items, answering a log of calls in order;
      None when some answer is not the one a FIFO queue gives. */
  function Fifo<T(==)>(capacity: nat, log: seq<Answer<T>>): Option<seq<T>>
    decreases |log|
  {
    if log == [] then Some([])
    else
      var q := Fifo(capacity, log[..|log| - 1]);
      if q.None? then None else Answered(capacity, q.value, log[|log| - 1])
  }

  function Answered<T(==)>(capacity: nat, q: seq<T>, a: Answer<T>): Option<seq<T>> {
    match a
    case Pushed(v) => if |q| + 1 < capacity then Some(q + [v]) else None
    case Full => if |q| + 1 == capacity then Some(q) else None
    case Popped(v) => if q != [] && q[0] == v then Some(q[1..]) else None
    case Empty => if q == [] then Some(q) else None
  }

  lemma FifoOneMore<T>(capacity: nat, log: seq<Answer<T>>, a: Answer<T>)
    requires Fifo(capacity, log).Some?
    ensures Fifo(capacity, log + [a]) == Answered(capacity, Fifo(capacity, log).value, a)
  {
    assert (log + [a])[..|log + [a]| - 1] == log;
  }

  ghost predicate Linearized<T>(s: State<T>) {
    Inv(s) && Fifo(|s.buf|, s.log) == Some(Held(s))
  }

  lemma ProducerStep<T>(s: State<T>)
    requires Linearized(s)
    ensures Linearized(Next(s, Produce)) && |Next(s, Produce).buf| == |s.buf|
  {
    FullIff(|s.buf|, s.tail, s.head);
    match s.p
    case PIdle =>
    case PLoadTail(v, h) => FifoOneMore(|s.buf|, s.log, Full);
    case PWrite(v, h) =>
      PutAtHead(s.buf, s.tail, s.head, v);
    case PPublish(v, h) =>
      assert s.buf[h := v] == s.buf;
      PutAtHead(s.buf, s.tail, s.head, v);
      FifoOneMore(|s.buf|, s.log, Pushed(v));
      PublishKeepsConsumer(|s.buf|, s.tail, s.head);
  }

  lemma PublishKeepsConsumer(capacity: nat, tail: nat, head: nat)
    requires tail < capacity && head < capacity && After(head, capacity) != tail
    ensures Count(capacity, tail, head) + 1 < capacity
    ensures After(head, capacity) < capacity
  {
    FullIff(capacity, tail, head);
  }

  lemma ConsumerStep<T>(s: State<T>)
    requires Linearized(s)
    ensures Linearized(Next(s, Consume)) && |Next(s, Consume).buf| == |s.buf|
  {
    match s.c
    case CIdle =>
    case CLoadHead(t) =>
      FifoOneMore(|s.buf|, s.log, Empty);
    case CRead(t) =>
    case CRelease(t, v) =>
      ReleaseStep(s);
  }

  lemma ReleaseStep<T>(s: State<T>)
    requires Linearized(s) && s.c.CRelease?
    ensures Linearized(Next(s, Consume)) && |Next(s, Consume).buf| == |s.buf|
  {
    TakeAtTail(s.buf, s.tail, s.head);
    ReleaseKeepsProducer(|s.buf|, s.tail, s.head);
    var s' := Next(s, Consume);
    assert Inv(s');
    FifoOneMore(|s.buf|, s.log, Popped(s.c.val));
  }

  lemma ReleaseKeepsProducer(capacity: nat, tail: nat, head: nat)
    requires tail < capacity && head < capacity && tail != head
    ensures After(head, capacity) != After(tail, capacity)
    ensures After(tail, capacity) < capacity
  {
  }

  lemma StepLinearized<T>(s: State<T>, m: Move<T>)
    requires Linearized(s)
    ensures Linearized(Next(s, m)) && |Next(s, m).buf| == |s.buf|
  {
    match m
    case Produce => ProducerStep(s);
    case Consume => ConsumerStep(s);
    case StartPush(_) =>
    case StartPop =>
  }

  ghost function Run<T>(s: State<T>, ms: seq<Move<T>>): (r: State<T>)
    requires Linearized(s)
    ensures Linearized(r) && |r.buf| == |s.buf|
    decreases |ms|
  {
    if ms == [] then s
    else
      StepLinearized(s, ms[0]);
      Run(Next(s, ms[0]), ms[1..])
  }

  ghost function Fresh<T>(buf: seq<T>): (s: State<T>)
    requires |buf| >= 1
    ensures Linearized(s)
  {
    State(buf, 0, 0, PIdle, CIdle, [])
  }

  // ----- what the FIFO answers mean -----

  function Accepted<T>(log: seq<Answer<T>>): seq<T>
    decreases |log|
  {
    if log == [] then []
    else
      var a := log[|log| - 1];
      Accepted(log[..|log| - 1]) + if a.Pushed? then [a.val] else []
  }

  function Delivered<T>(log: seq<Answer<T>>): seq<T>
    decreases |log|
  {
    if log == [] then []
    else
      var a := log[|log| - 1];
      Delivered(log[..|log| - 1]) + if a.Popped? then [a.val] else []
  }

  lemma {:induction false} FifoConserves<T>(capacity: nat, log: seq<Answer<T>>)
    requires capacity >= 1 && Fifo(capacity, log).Some?
    ensures Delivered(log) + Fifo(capacity, log).value == Accepted(log)
    ensures |Fifo(capacity, log).value| <= capacity - 1
    decreases |log|
  {
    if log != [] {
      var front, a := log[..|log| - 1], log[|log| - 1];
      FifoConserves(capacity, front);
      var q := Fifo(capacity, front).value;
      assert a.Popped? ==> q == [a.val] + q[1..];
    }
  }

  /** Every interleaving is linearizable: the answers, in the order of the accesses where the
      calls take effect, are those of a FIFO queue holding at most capacity - 1 items, and the
      ring always holds exactly that queue's items. */
  lemma Linearizable<T>(buf: seq<T>, ms: seq<Move<T>>)
    requires |buf| >= 1
    ensures var s := Run(Fresh(buf), ms);
      Fifo(|buf|, s.log) == Some(Slots(s.buf, s.tail, s.head))
  {
    var s := Run(Fresh(buf), ms);
    assert Linearized(s);
  }

  /** In every interleaving from an empty queue of any capacity: the values popped, followed by
      those in the ring, are the accepted pushes in order; at most capacity - 1 items are held;
      and the slot about to be written is never the slot about to be read. */
  lemma NothingLost<T>(buf: seq<T>, ms: seq<Move<T>>)
    requires |buf| >= 1
    ensures var s := Run(Fresh(buf), ms);
      && Delivered(s.log) + Held(s) == Accepted(s.log)
      && Delivered(s.log) <= Accepted(s.log)
      && |Held(s)| <= |buf| - 1
      && (s.p.PWrite? && s.c.CRead? ==> s.p.h != s.c.t)
  {
    var s := Run(Fresh(buf), ms);
    FifoConserves(|s.buf|, s.log);
  }

  lemma RunFour<T>(s: State<T>, a: Move<T>, b: Move<T>) returns (s1: State<T>, s2: State<T>, s3: State<T>, s4: State<T>)
    requires Linearized(s)
    ensures s1 == Next(s, a) && Linearized(s1)
    ensures s2 == Next(s1, b) && Linearized(s2)
    ensures s3 == Next(s2, b) && Linearized(s3)
    ensures s4 == Next(s3, b) && s4 == Run(s, [a, b, b, b])
  {
    s1 := RunOne(s, a, [b, b, b]);
    s2 := RunOne(s1, b, [b, b]);
    s3 := RunOne(s2, b, [b]);
    s4 := RunOne(s3, b, []);
  }

  lemma RunOne<T>(s: State<T>, m: Move<T>, ms: seq<Move<T>>) returns (s': State<T>)
    requires Linearized(s)
    ensures s' == Next(s, m) && Linearized(s') && Run(s, [m] + ms) == Run(s', ms)
  {
    StepLinearized(s, m);
    s' := Next(s, m);
    assert ([m] + ms)[1..] == ms;
  }

  /** A push whose accesses are not interleaved with a pop answers as the method Push does. */
  lemma SoloPush<T>(s: State<T>, v: T)
    requires Linearized(s) && s.p.PIdle?
    ensures var r := Run(s, [StartPush(v), Produce, Produce, Produce]);
      && r.p.PIdle? && r.c == s.c
      && r.log == s.log + [if |Held(s)| < |s.buf| - 1 then Pushed(v) else Full]
      && Held(r) == if |Held(s)| < |s.buf| - 1 then Held(s) + [v] else Held(s)
  {
    FullIff(|s.buf|, s.tail, s.head);
    var s1, s2, s3, s4 := RunFour(s, StartPush(v), Produce);
    if |Held(s)| < |s.buf| - 1 {
      PutAtHead(s.buf, s.tail, s.head, v);
    }
  }

  /** A pop whose accesses are not interleaved with a push answers as the method Pop does. */
  lemma SoloPop<T>(s: State<T>)
    requires Linearized(s) && s.c.CIdle?
    ensures var r := Run(s, [StartPop, Consume, Consume, Consume]);
      && r.c.CIdle? && r.p == s.p
      && r.log == s.log + [if Held(s) == [] then Empty else Popped(Held(s)[0])]
      && Held(r) == if Held(s) == [] then [] else Held(s)[1..]
  {
    var s1, s2, s3, s4 := RunFour(s, StartPop, Consume);
    if Held(s) != [] {
      TakeAtTail(s.buf, s.tail, s.head);
    }
  }
}
