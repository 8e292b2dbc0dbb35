/** The 32-bit status word of src/ebpf/fw_status_code.h: action, stage and reason in one word. */
module StatusCode {

  const ACT_PASS: bv32 := 0x0100_0000
  const ACT_DROP: bv32 := 0x0200_0000
  const ACT_CHALLENGE: bv32 := 0x0300_0000

  const STG_PARSE: bv32 := 0x0001_0000
  const STG_FUSE: bv32 := 0x0002_0000
  const STG_ESTABLISHED: bv32 := 0x0003_0000
  const STG_PERM_BLK: bv32 := 0x0004_0000
  const STG_TEMP_BLK: bv32 := 0x0005_0000
  const STG_PORT_WHT: bv32 := 0x0006_0000
  const STG_GLOBAL_LMT: bv32 := 0x0007_0000
  const STG_FLOW_LMT: bv32 := 0x0008_0000

  const RSN_SUCCESS: bv32 := 0x00
  const RSN_BAD_PKT: bv32 := 0x01
  const RSN_UNSUPPORTED: bv32 := 0x02
  const RSN_RULE_STATIC: bv32 := 0x20
  const RSN_RULE_DYNA: bv32 := 0x21
  const RSN_PORT_MISS: bv32 := 0x30
  const RSN_LIMIT_BYTES: bv32 := 0x40
  const RSN_DPI_PENDING: bv32 := 0x60
  const RSN_DPI_PASSED: bv32 := 0x61
  const RSN_DPI_VIOLATION: bv32 := 0x62

  function MakeStatus(act: bv32, stg: bv32, rsn: bv32): bv32 { act | stg | rsn }

  function GetAction(code: bv32): bv32 { (code & 0xFF00_0000) >> 24 }
  function GetStage(code: bv32): bv32 { (code & 0x00FF_0000) >> 16 }
  function GetReason(code: bv32): bv32 { code & 0x0000_FFFF }

  /** Unpacking undoes packing for parts that keep to their own bits, and every word is the
      packing of its parts: the three fields neither overlap nor leave a bit out. */
  lemma PackUnpack(act: bv32, stg: bv32, rsn: bv32, code: bv32)
    requires act & 0x00FF_FFFF == 0 && stg & 0xFF00_FFFF == 0 && rsn & 0xFFFF_0000 == 0
    ensures var c := MakeStatus(act, stg, rsn);
      GetAction(c) == act >> 24 && GetStage(c) == stg >> 16 && GetReason(c) == rsn
    ensures MakeStatus(GetAction(code) << 24, GetStage(code) << 16, GetReason(code)) == code
  {
  }

  datatype XdpAction = XDP_DROP | XDP_PASS | XDP_TX

  /** resolve_action: the top byte decides; anything but a drop or a challenge passes. */
  function ResolveAction(status: bv32): XdpAction {
    if status & 0xFF00_0000 == ACT_DROP then XDP_DROP
    else if status & 0xFF00_0000 == ACT_CHALLENGE then XDP_TX
    else XDP_PASS
  }
}
