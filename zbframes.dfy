/**
 * The radio module's serial protocol, as values: the system answers the
 * module sends, the 45-byte parameter block it reports and accepts, the
 * commands the gateway sends it and the frames that carry application data.
 */
module ZBFrames {
  import opened Bytes
  import opened Counters
  import opened DataLink
  import Settings

  // ---------------------------------------------------------------------
  // System answers
  // ---------------------------------------------------------------------

  /** ZBAnswer, in declaration order. */
  datatype Answer =
    | AUndef | AError | ABldNet | AJoinNet | ANoNet
    | ASetConfig | ARestart | ACfgFactory | ANetRestart | AReadConfig
  {
    /** The answers that report a completed system command. */
    predicate Completes()
    {
      ASetConfig? || ARestart? || ACfgFactory? || ANetRestart? || AReadConfig?
    }
  }

  type B2 = s: seq<byte> | |s| == 2 witness [0, 0]

  datatype AnswerRow = AnswerRow(id: Answer, code: B2)

  /** zb_answr: the two-byte system answers, searched in this order. */
  const ANSWERS: seq<AnswerRow> := [
    AnswerRow(AError, [0xF7, 0xFF]),
    AnswerRow(ABldNet, [0xFF, 0xFF]),
    AnswerRow(AJoinNet, [0xFF, 0xAA]),
    AnswerRow(ANoNet, [0xFF, 0x00]),
    AnswerRow(ASetConfig, [0xFA, 0xFE]),
    AnswerRow(ARestart, [0xFA, 0x12]),
    AnswerRow(ACfgFactory, [0xFA, 0x13]),
    AnswerRow(ANetRestart, [0xFA, 0x14])
  ]

  /** The head byte of a parameter-block report. */
  const ZB_SYS_CONFIG: byte := 0xFB

  /** The code of each answer of the table, stated answer by answer. */
  function CodeOf(a: Answer): Option<seq<byte>>
  {
    match a
    case AError => Some([0xF7, 0xFF])
    case ABldNet => Some([0xFF, 0xFF])
    case AJoinNet => Some([0xFF, 0xAA])
    case ANoNet => Some([0xFF, 0x00])
    case ASetConfig => Some([0xFA, 0xFE])
    case ARestart => Some([0xFA, 0x12])
    case ACfgFactory => Some([0xFA, 0x13])
    case ANetRestart => Some([0xFA, 0x14])
    case _ => None
  }

  /** The answer of the first table row from row i on whose code is `code`. */
  function Scan(code: B2, i: nat): (a: Answer)
    requires i <= |ANSWERS|
    ensures a != AUndef ==> CodeOf(a).Some? && CodeOf(a).value == code
    decreases |ANSWERS| - i
  {
    if i == |ANSWERS| then AUndef
    else if ANSWERS[i].code[0] == code[0] && ANSWERS[i].code[1] == code[1] then ANSWERS[i].id
    else Scan(code, i + 1)
  }

  /** The table is the code assignment: a two-byte frame is matched to an
   *  answer exactly when it is that answer's code, and to none when it is
   *  no answer's code. */
  lemma ScanIff(code: B2, a: Answer)
    requires a != AUndef
    ensures Scan(code, 0) == a <==> (CodeOf(a).Some? && CodeOf(a).value == code)
  {
    if (CodeOf(a).Some? && CodeOf(a).value == code) {
      match a
      case AError => assert Scan([0xF7, 0xFF], 0) == AError;
      case ABldNet => assert Scan([0xFF, 0xFF], 0) == ABldNet;
      case AJoinNet => assert Scan([0xFF, 0xAA], 0) == AJoinNet;
      case ANoNet => assert Scan([0xFF, 0x00], 0) == ANoNet;
      case ASetConfig => assert Scan([0xFA, 0xFE], 0) == ASetConfig;
      case ARestart => assert Scan([0xFA, 0x12], 0) == ARestart;
      case ACfgFactory => assert Scan([0xFA, 0x13], 0) == ACfgFactory;
      case ANetRestart => assert Scan([0xFA, 0x14], 0) == ANetRestart;
    }
  }

  /** The answer CheckAnswer recognises in a received frame whose length
   *  truncated to a byte is `len`: a table answer for a two-byte frame, a
   *  parameter-block report for a 46-byte frame with head 0xFB, and none
   *  otherwise. */
  function SysAnswer(frame: seq<byte>, len: byte): (a: Answer)
    requires 1 <= |frame| && len as int <= |frame|
    ensures len != 2 && len != 46 ==> a == AUndef
    ensures a.AReadConfig? <==> len == 46 && frame[0] == ZB_SYS_CONFIG
    ensures len == 2 ==> a == Scan(frame[..2], 0)
  {
    var a := if len == 2 then Scan(frame[..2], 0) else AUndef;
    if a == AUndef && frame[0] == ZB_SYS_CONFIG && len == 46 then AReadConfig else a
  }

  // ---------------------------------------------------------------------
  // The module's parameter block (ZB_CONFIG)
  // ---------------------------------------------------------------------

  type B8 = s: seq<byte> | |s| == 8 witness [0, 0, 0, 0, 0, 0, 0, 0]

  /** ZB_CONFIG. Addresses and the PAN ID are stored high byte first. */
  datatype ZbConfig = ZbConfig(
    devType: byte, nwkState: byte, panId: B2, key: Settings.Key,
    shortAddr: B2, mac: B8, coorShort: B2, coorMac: B8,
    group: byte, chanel: byte, txPower: byte, baud: byte, sleepTime: byte)

  const CFG_SIZE: nat := 45
  const ZB_DEV_COORDINATOR: byte := 0
  const ZB_NETSTATE_NO: byte := 0
  const ZB_NETSTATE_OK: byte := 1

  /** The block as zero-initialised static storage. */
  const CFG_ZERO: ZbConfig := ZbConfig(0, 0, [0, 0], seq(16, _ => 0), [0, 0], [0, 0, 0, 0, 0, 0, 0, 0],
    [0, 0], [0, 0, 0, 0, 0, 0, 0, 0], 0, 0, 0, 0, 0)

  function CfgBytes(z: ZbConfig): (r: seq<byte>)
    ensures |r| == CFG_SIZE
  {
    [z.devType, z.nwkState] + z.panId + z.key + z.shortAddr + z.mac + z.coorShort + z.coorMac
      + [z.group, z.chanel, z.txPower, z.baud, z.sleepTime]
  }

  function CfgOf(b: seq<byte>): (z: ZbConfig)
    requires |b| >= CFG_SIZE
  {
    ZbConfig(b[0], b[1], b[2..4], b[4..20], b[20..22], b[22..30], b[30..32], b[32..40],
      b[40], b[41], b[42], b[43], b[44])
  }

  /** The block read from its bytes is the block written. */
  lemma CfgRoundTrip(z: ZbConfig)
    ensures CfgOf(CfgBytes(z)) == z
  {
    var b := CfgBytes(z);
    assert b[2..4] == z.panId && b[4..20] == z.key && b[20..22] == z.shortAddr;
    assert b[22..30] == z.mac && b[30..32] == z.coorShort && b[32..40] == z.coorMac;
  }

  /** The bytes written from a block read are the bytes read. */
  lemma CfgBytesRoundTrip(b: seq<byte>)
    requires |b| == CFG_SIZE
    ensures CfgBytes(CfgOf(b)) == b
  {
    var r := CfgBytes(CfgOf(b));
    forall i | 0 <= i < CFG_SIZE
      ensures r[i] == b[i]
    {
    }
  }

  /** The block after CheckAnswer: a network answer sets the network state,
   *  a parameter-block report replaces the whole block, network state
   *  included. */
  function CfgAfter(z: ZbConfig, frame: seq<byte>, len: byte, a: Answer): (r: ZbConfig)
    requires 1 <= |frame| && len as int <= |frame|
    requires a == SysAnswer(frame, len)
    ensures a.AJoinNet? || a.ABldNet? ==> r == z.(nwkState := ZB_NETSTATE_OK)
    ensures a.ANoNet? ==> r == z.(nwkState := ZB_NETSTATE_NO)
    ensures a.AReadConfig? ==> CfgBytes(r) == frame[1..46]
    ensures !(a.AJoinNet? || a.ABldNet? || a.ANoNet? || a.AReadConfig?) ==> r == z
  {
    if a.AJoinNet? || a.ABldNet? then z.(nwkState := ZB_NETSTATE_OK)
    else if a.ANoNet? then z.(nwkState := ZB_NETSTATE_NO)
    else if a.AReadConfig? then
      CfgBytesRoundTrip(frame[1..46]);
      CfgOf(frame[1..46])
    else z
  }

  // ---------------------------------------------------------------------
  // Resolving the cached results (GetAnswer)
  // ---------------------------------------------------------------------

  /** The result GetAnswer derives from the cached answer and packet kind. */
  function Resolve(a: Answer, p: PackType): (e: ZBError)
    ensures e == Ok || e == Exec || e == Undef
  {
    if a == AUndef && p == PUndef then Undef
    else if a == AError then Exec
    else if a.Completes() then Ok
    else if p != PUndef then Ok
    else Undef
  }

  /** Success exactly when a system command completed or a packet was
   *  identified, and the module did not report an error; a command error
   *  exactly when the module reported one. */
  lemma ResolveIff(a: Answer, p: PackType)
    ensures Resolve(a, p) == Ok <==> a.Completes() || (a != AError && p != PUndef)
    ensures Resolve(a, p) == Exec <==> a == AError
  {
  }

  // ---------------------------------------------------------------------
  // Module commands (zb_cmd)
  // ---------------------------------------------------------------------

  /** ZBCmnd, in declaration order. */
  datatype ZBCmnd = CmdNo | CmdReset | CmdRead | CmdSave | CmdInit | CmdFactory | CmdNetRestart | CmdSendData

  /** A command row: the four code bytes, the answer time in milliseconds
   *  and whether it is executed by SetCfg (otherwise by Command). */
  type B4 = s: seq<byte> | |s| == 4 witness [0, 0, 0, 0]

  datatype CmdRow = CmdRow(id: ZBCmnd, code: B4, time: u16, setCfg: bool)

  const ZB_CMD: seq<CmdRow> := [
    CmdRow(CmdRead, [0xFE, 0x01, 0xFE, 0xFF], 100, false),
    CmdRow(CmdSave, [0xFD, 0x2E, 0xFE, 0xFF], 200, true),
    CmdRow(CmdInit, [0xFD, 0x01, 0x12, 0xFF], 100, false),
    CmdRow(CmdFactory, [0xFD, 0x01, 0x13, 0xFF], 100, false),
    CmdRow(CmdNetRestart, [0xFD, 0x01, 0x14, 0xFF], 100, false)
  ]

  /** The first row for a command, or |ZB_CMD| when there is none. */
  function CmdIndex(c: ZBCmnd): (i: nat)
    ensures i <= |ZB_CMD|
    ensures i < |ZB_CMD| ==> ZB_CMD[i].id == c
    ensures forall j :: 0 <= j < i ==> ZB_CMD[j].id != c
  {
    if c == CmdRead then 0 else if c == CmdSave then 1 else if c == CmdInit then 2
    else if c == CmdFactory then 3 else if c == CmdNetRestart then 4 else 5
  }

  /** Exactly the five module commands have a row; reset, "no command" and
   *  data transmission do not. */
  lemma CmdIndexFound(c: ZBCmnd)
    ensures CmdIndex(c) < |ZB_CMD| <==> !(c.CmdNo? || c.CmdReset? || c.CmdSendData?)
  {
  }

  // ---------------------------------------------------------------------
  // Writing the parameter block (SetCfg) and reconciling it (ZBCheckConfig)
  // ---------------------------------------------------------------------

  const ZEROS8: B8 := [0, 0, 0, 0, 0, 0, 0, 0]

  /** The block SetCfg prepares: coordinator, the gateway's PAN ID high byte
   *  first, its group and key, and zero addresses, as the module requires
   *  for a write. */
  function Prepared(z: ZbConfig, c: Settings.Config): (r: ZbConfig)
    ensures r.devType == ZB_DEV_COORDINATOR && r.group == c.group && r.key == c.key
    ensures r.panId == [Hi(c.panId), Lo(c.panId)]
    ensures r.shortAddr == [0, 0] && r.coorShort == [0, 0] && r.mac == ZEROS8 && r.coorMac == ZEROS8
    ensures r.nwkState == z.nwkState && r.chanel == z.chanel && r.txPower == z.txPower
    ensures r.baud == z.baud && r.sleepTime == z.sleepTime
  {
    z.(devType := ZB_DEV_COORDINATOR, panId := [Hi(c.panId), Lo(c.panId)], group := c.group,
       shortAddr := [0, 0], mac := ZEROS8, coorShort := [0, 0], coorMac := ZEROS8, key := c.key)
  }

  /** The SAVE_CONFIG frame: the first three command bytes, the block, and
   *  the command's last byte. */
  function SetCfgFrame(code: seq<byte>, z: ZbConfig): (r: seq<byte>)
    requires |code| == 4
    ensures |r| == 4 + CFG_SIZE
    ensures r[..3] == code[..3] && r[3..48] == CfgBytes(z) && r[48] == code[3]
  {
    code[..3] + CfgBytes(z) + [code[3]]
  }

  /** The tests of ZBCheckConfig: the device type, the PAN ID compared as
   *  the byte-swapped setting against the block's bytes read low byte first,
   *  the group and the key. */
  predicate Differs(z: ZbConfig, c: Settings.Config)
  {
    z.devType != ZB_DEV_COORDINATOR ||
    Swap16(c.panId) != ReadLE16(z.panId, 0) ||
    z.group != c.group ||
    z.key != c.key
  }

  /** The block after ZBCheckConfig's copies. */
  function Reconciled(z: ZbConfig, c: Settings.Config): ZbConfig
  {
    var z1 := if z.devType != ZB_DEV_COORDINATOR then z.(devType := ZB_DEV_COORDINATOR) else z;
    var z2 := if Swap16(c.panId) != ReadLE16(z1.panId, 0) then z1.(panId := [Hi(c.panId), Lo(c.panId)]) else z1;
    var z3 := if z2.group != c.group then z2.(group := c.group) else z2;
    if z3.key != c.key then z3.(key := c.key) else z3
  }

  /** The PAN ID test holds exactly when the block stores the setting high
   *  byte first. */
  lemma PanMatchIff(z: ZbConfig, c: Settings.Config)
    ensures Swap16(c.panId) == ReadLE16(z.panId, 0) <==> z.panId == [Hi(c.panId), Lo(c.panId)]
  {
    if Swap16(c.panId) == ReadLE16(z.panId, 0) {
      assert z.panId[0] == Hi(c.panId) && z.panId[1] == Lo(c.panId);
    }
  }

  /** After the copies the block agrees with the settings in all four
   *  fields, and nothing else in it changed. */
  lemma ReconciledAgrees(z: ZbConfig, c: Settings.Config)
    ensures !Differs(Reconciled(z, c), c)
    ensures Reconciled(z, c) == z.(devType := ZB_DEV_COORDINATOR, panId := Reconciled(z, c).panId, group := c.group, key := c.key)
  {
    PanMatchIff(Reconciled(z, c), c);
  }

  /** A block that already agrees is left as it is. */
  lemma ReconciledNoChange(z: ZbConfig, c: Settings.Config)
    requires !Differs(z, c)
    ensures Reconciled(z, c) == z
  {
  }

  /** A block prepared by SetCfg passes the reconciliation tests. */
  lemma PreparedAgrees(z: ZbConfig, c: Settings.Config)
    ensures !Differs(Prepared(z, c), c)
  {
    PanMatchIff(Prepared(z, c), c);
  }

  // ---------------------------------------------------------------------
  // Data frames (ZBSendPack1, ZBSendPack)
  // ---------------------------------------------------------------------

  const ZB_SEND_DATA: byte := 0xFC
  const BUFFER_CMD: nat := 80
  const BUFF_SEND_SIZE: nat := 128

  /** The largest payload ZBSendPack1 puts into the 80-byte command buffer
   *  after its four command bytes and two address bytes. */
  const MAX_PACK1: nat := BUFFER_CMD - 4 - 2

  /** The largest payload ZBSendPack puts after its four command bytes. */
  const MAX_PACK: nat := BUFFER_CMD - 4

  /** A frame to one device: command, length, on-demand mode with sender
   *  address, the destination high byte first, then the payload. */
  function UnicastFrame(data: seq<byte>, addr: u16): (r: seq<byte>)
    requires |data| <= MAX_PACK1
    ensures |r| == |data| + 6 <= BUFFER_CMD
    ensures r[0] == ZB_SEND_DATA && r[1] == |r| - 2 && r[2..4] == [3, 2]
    ensures ReadBE16(r, 4) == addr && r[6..] == data
  {
    [ZB_SEND_DATA, |data| + 4, 3, 2, Hi(addr), Lo(addr)] + data
  }

  /** A broadcast frame: command, length, broadcast to the whole network,
   *  then the payload. */
  function BroadcastFrame(data: seq<byte>): (r: seq<byte>)
    requires |data| <= MAX_PACK
    ensures |r| == |data| + 4 <= BUFFER_CMD
    ensures r[0] == ZB_SEND_DATA && r[1] == |r| - 2 && r[2..4] == [1, 1] && r[4..] == data
  {
    [ZB_SEND_DATA, |data| + 2, 1, 1] + data
  }

  /** The length check as written in ZBSendPack1: the payload may take the
   *  whole buffer after the four command bytes, forgetting the two address
   *  bytes that precede it. */
  predicate Pack1GuardAsWritten(len: byte)
  {
    len <= BUFFER_CMD - 4
  }

  /** A 75-byte payload passes that check yet its frame is 81 bytes long,
   *  one more than the buffer it is assembled in. */
  lemma Pack1GuardOverrun()
    ensures Pack1GuardAsWritten(75) && 75 + 6 > BUFFER_CMD
    ensures forall len: byte :: Pack1GuardAsWritten(len) && len > MAX_PACK1 ==> len + 6 > BUFFER_CMD
  {
  }
}
