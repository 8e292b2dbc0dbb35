/** The dpi_state byte of a conntrack entry (src/ebpf/trace_connect.c): the class of the flow in
    the low nibble, the number of packets sent on for inspection in the high one. */
module DpiState {

  const MAX_DPI_ATTEMPTS: bv8 := 5

  const DPI_UNKNOWN: bv8 := 0
  const DPI_IGNORE: bv8 := 1
  const DPI_BLOCKLIST: bv8 := 2
  const DPI_TLS_PENDING: bv8 := 3
  const DPI_TLS_DONE: bv8 := 4

  function DpiSt(x: bv8): bv8 { x & 0x0F }
  function DpiAttempts(x: bv8): bv8 { x >> 4 }
  function DpiMake(state: bv8, attempts: bv8): bv8 { ((attempts & 0x0F) << 4) | (state & 0x0F) }

  /** What a byte that the programs store can say. */
  datatype Class = Unknown | Ignore | Blocklisted | Pending(attempts: nat) | Done

  /** The nine bytes that ever stand in the table. */
  predicate Stored(x: bv8) {
    || x == 0x00 || x == 0x01 || x == 0x02
    || x == 0x13 || x == 0x23 || x == 0x33 || x == 0x43 || x == 0x53
    || x == 0x54
  }

  function Decode(x: bv8): Class
    requires Stored(x)
  {
    if x == 0x00 then Unknown
    else if x == 0x01 then Ignore
    else if x == 0x02 then Blocklisted
    else if x == 0x13 then Pending(1)
    else if x == 0x23 then Pending(2)
    else if x == 0x33 then Pending(3)
    else if x == 0x43 then Pending(4)
    else if x == 0x53 then Pending(5)
    else Done
  }

  /** On stored bytes, the low nibble that TC switches on and the raw byte that XDP switches on
      tell the same classes apart, and the high nibble counts the attempts. */
  lemma NibbleAndByteAgree(x: bv8)
    requires Stored(x)
    ensures DpiSt(x) == DPI_UNKNOWN <==> Decode(x) == Unknown
    ensures DpiSt(x) == DPI_IGNORE <==> Decode(x) == Ignore
    ensures DpiSt(x) == DPI_BLOCKLIST <==> Decode(x) == Blocklisted
    ensures DpiSt(x) == DPI_TLS_PENDING <==> Decode(x).Pending?
    ensures DpiSt(x) == DPI_TLS_DONE <==> Decode(x) == Done
    ensures x == 1 <==> Decode(x) == Ignore
    ensures x == 2 <==> Decode(x) == Blocklisted
    ensures Decode(x).Pending? ==>
      1 <= Decode(x).attempts <= 5 && (DpiAttempts(x) >= MAX_DPI_ATTEMPTS <==> Decode(x).attempts == 5)
  {
  }

  /** One more attempt, and giving up, stay among the stored bytes. */
  lemma AttemptsAdvance(x: bv8)
    requires Stored(x) && Decode(x).Pending?
    ensures DpiAttempts(x) < MAX_DPI_ATTEMPTS ==>
      var y := DpiMake(DPI_TLS_PENDING, DpiAttempts(x) + 1);
      Stored(y) && Decode(y) == Pending(Decode(x).attempts + 1)
    ensures DpiAttempts(x) >= MAX_DPI_ATTEMPTS ==>
      var y := DpiMake(DPI_TLS_DONE, DpiAttempts(x));
      Stored(y) && Decode(y) == Done
  {
  }

  /** The byte TC stores for a newly classified flow. */
  function FirstByte(state: bv8): bv8 {
    DpiMake(state, if state == DPI_TLS_PENDING then 1 else 0)
  }

  lemma FirstBytes()
    ensures FirstByte(DPI_UNKNOWN) == 0x00 && FirstByte(DPI_IGNORE) == 0x01 && FirstByte(DPI_BLOCKLIST) == 0x02
    ensures FirstByte(DPI_TLS_PENDING) == 0x13
  {
  }
}
