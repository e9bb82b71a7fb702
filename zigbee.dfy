/**
 * The radio engine: the byte collector fed by the UART interrupt, the
 * processing of a received block (system answers first, then a split into
 * application packets), the request/answer transaction with the module,
 * unicast and broadcast data frames, the module commands, the start-up
 * reconciliation of the module's parameter block, and the acknowledgement
 * of a log packet.
 *
 * The engine's statics are the fields of `Radio`. Every operation is
 * proved against a function of a snapshot of that state (`Snap`), and the
 * engine's promises are lemmas about those functions. The line levels the
 * firmware reads (the module's RUN output), the outcome of each exchange
 * with the module (`Link`) and the CRC routine are inputs.
 */
module ZigBee {
  import opened Bytes
  import opened Calendar
  import opened Counters
  import opened Directory
  import opened DataLink
  import opened ZBFrames
  import Settings

  const BUFF_RECV_SIZE: nat := 512
  const TIME_DELAY_ANSWER: u16 := 100
  const TIME_NO_WAIT: u16 := 0

  // ---------------------------------------------------------------------
  // The byte collector (ZBRecvComplt)
  // ---------------------------------------------------------------------

  /** One received byte: appended while there is room; a byte arriving at a
   *  full buffer clears it and is itself dropped. */
  function Collect(c: seq<byte>, b: byte): seq<byte>
  {
    if |c| < BUFF_RECV_SIZE then c + [b] else []
  }

  /** The buffer after a run of bytes arriving into an empty buffer. */
  function Collected(s: seq<byte>): (c: seq<byte>)
    ensures |c| <= BUFF_RECV_SIZE
  {
    if s == [] then [] else Collect(Collected(s[..|s| - 1]), s[|s| - 1])
  }

  /** The buffer always holds the last |s| mod 513 bytes of the run: it
   *  fills up to 512 bytes, and the 513th byte empties it. */
  lemma {:induction false} CollectedKeepsTail(s: seq<byte>)
    ensures Collected(s) == s[|s| - |s| % (BUFF_RECV_SIZE + 1)..]
  {
    if s != [] {
      var p := s[..|s| - 1];
      CollectedKeepsTail(p);
      var k := |p| % (BUFF_RECV_SIZE + 1);
      RunLengthStep(|p|);
      if k < BUFF_RECV_SIZE {
        assert p[|p| - k..] + [s[|s| - 1]] == s[|s| - (k + 1)..];
      }
    }
  }

  /** One more byte moves the run length modulo 513 on by one, or back to 0. */
  lemma RunLengthStep(n: nat)
    ensures (n + 1) % (BUFF_RECV_SIZE + 1) == if n % (BUFF_RECV_SIZE + 1) < BUFF_RECV_SIZE then n % (BUFF_RECV_SIZE + 1) + 1 else 0
  {
    assert BUFF_RECV_SIZE + 1 == 513;
    var q := n / 513;
    assert n == 513 * q + n % 513;
    if n % 513 < 512 {
      assert n + 1 == 513 * q + (n % 513 + 1);
    } else {
      assert n + 1 == 513 * (q + 1);
    }
  }

  // ---------------------------------------------------------------------
  // The engine state as a value
  // ---------------------------------------------------------------------

  /** The statics: the received bytes, the cached answer and packet kind,
   *  the acknowledgement target and its pending event, the answer-wait
   *  flag, the module's parameter block, the command and transmit buffers,
   *  the frames handed to the UART so far, the directory and the counters. */
  datatype Snap = Snap(
    recv: seq<byte>, answ: Answer, pack: PackType, ack: DataAck, wlog: bool, timeOut: bool,
    cfg: ZbConfig, buffData: seq<byte>, sendBuff: seq<byte>, sent: seq<seq<byte>>,
    slots: seq<Slot>, errs: seq<u32>, sendCnt: u32, recvCnt: u32)

  /** The outcome of one exchange with the module: whether the UART accepted
   *  the transmission, and the block received before the answer time ran
   *  out, if any. */
  datatype Link = Link(txOk: bool, reply: Option<seq<byte>>)

  /** A received block is what the collector can hand over. */
  predicate Framed(l: Link)
  {
    l.reply.Some? ==> 1 <= |l.reply.value| <= BUFF_RECV_SIZE
  }

  /** The state after ZBInit. */
  const INIT: Snap := Snap([], AUndef, PUndef, DataAck(0, 0), false, false, CFG_ZERO,
    Zeros(BUFFER_CMD), Zeros(BUFF_SEND_SIZE), [], seq(DEV_LIST_MAX, _ => EMPTY), seq(ERR_COUNT, _ => 0), 0, 0)

  /** GetAnswer: the verdict on the cached results, which it clears. */
  function Answered(s: Snap): (Snap, ZBError)
  {
    (s.(answ := AUndef, pack := PUndef), Resolve(s.answ, s.pack))
  }

  /** ZBIncError. */
  function Counted(s: Snap, e: ZBError): Snap
  {
    s.(errs := Bumped(s.errs, e.Code()))
  }

  // ---------------------------------------------------------------------
  // Processing one received block (TaskZBFlow)
  // ---------------------------------------------------------------------

  /** The bookkeeping of one CheckPack2 call with verdict `v` in the flow
   *  task: the packet total, the cached kind, the acknowledgement target,
   *  the log event for an accepted log packet, the directory and the
   *  counters. */
  function Checked(s: Snap, v: Verdict): (r: Snap)
  {
    s.(recvCnt := Inc32(s.recvCnt),
       pack := if v.Accepted? then v.kind else PUndef,
       ack := if v.Accepted? && v.kind.PWlog? then DataAck(v.numb, v.addr) else DataAck(0, 0),
       wlog := s.wlog || (v.Accepted? && v.kind.PWlog?),
       slots := if v.Accepted? then Upserted(s.slots, v.numb, v.addr) else s.slots,
       errs := if v.BadCrc? then Bumped(s.errs, Crc.Code())
               else if v.BadAddr? then Bumped(s.errs, Addr.Code())
               else s.errs)
  }

  /** The length of the packet at `off`: the size its tag names, or 0 when
   *  the tag names no inbound kind or the block ends before that size. */
  function Chunk(frame: seq<byte>, off: nat): (n: byte)
    requires off < |frame|
    ensures n as int <= |frame| - off
    ensures n != 0 ==> n as int == CheckPack1(frame[off..])
  {
    var n := CheckPack1(frame[off..]);
    if n > |frame| - off then 0 else n
  }

  /** The split loop from offset `off` on. */
  function Split(crc: Crc16, frame: seq<byte>, off: nat, s: Snap): (r: Snap)
    requires off < |frame|
    ensures r == s.(pack := r.pack, ack := r.ack, wlog := r.wlog, slots := r.slots, errs := r.errs, recvCnt := r.recvCnt)
    decreases |frame| - off
  {
    var n := Chunk(frame, off);
    var s1 := Checked(s, Verify(crc, frame[off..], n as int));
    if n != 0 && off + n as int < |frame| then Split(crc, frame, off + n as int, s1) else s1
  }

  /** A received block: its system answer is cached and applied to the
   *  parameter block; a block that is no system answer is split into
   *  packets; a waiting transaction is released. */
  function Processed(crc: Crc16, s: Snap, frame: seq<byte>): Snap
    requires 1 <= |frame|
  {
    var len: byte := |frame| % 0x100;
    var a := SysAnswer(frame, len);
    var s1 := s.(answ := a, cfg := CfgAfter(s.cfg, frame, len, a));
    var s2 := if a == AUndef then Split(crc, frame, 0, s1) else s1;
    s2.(timeOut := false)
  }

  // ---------------------------------------------------------------------
  // Transactions (SendData) and data frames (ZBSendPack1, ZBSendPack)
  // ---------------------------------------------------------------------

  /** SendData: stale results and received bytes are discarded, the data
   *  goes to the transmit buffer and the UART; with an answer time the
   *  transaction waits, and a received block decides the result. */
  function Transact(crc: Crc16, s: Snap, data: seq<byte>, timeout: u16, l: Link): (Snap, ZBError)
    requires |data| < 0x100 && Framed(l)
  {
    var s1 := Answered(s).0.(recv := []);
    if |data| > BUFF_SEND_SIZE then (s1, Data)
    else
      var s2 := s1.(sendBuff := data + Zeros(BUFF_SEND_SIZE - |data|));
      if !l.txOk then (s2, Send)
      else
        var s3 := s2.(sent := s2.sent + [data]);
        if timeout == 0 then (s3, Ok)
        else if l.reply.None? then (s3.(timeOut := true), Timeout)
        else Answered(Processed(crc, s3.(timeOut := true), l.reply.value))
  }

  /** ZBSendPack1: the three checks, each counted, then one counted
   *  transaction of the unicast frame. */
  function Unicast(crc: Crc16, s: Snap, data: seq<byte>, addr: u16, time: u16, running: bool, l: Link): (Snap, ZBError)
    requires |data| < 0x100 && Framed(l)
  {
    if |data| > MAX_PACK1 then (Counted(s, Data), Data)
    else if !running then (Counted(s, Run), Run)
    else if s.cfg.nwkState == ZB_NETSTATE_NO then (Counted(s, Network), Network)
    else
      var r := Framing(crc, s, UnicastFrame(data, addr), time, l);
      (Counted(r.0, r.1), r.1)
  }

  /** The transmit path shared by ZBSendPack1 and ZBSendPack: the frame is
   *  counted as sent, assembled in the command buffer and transacted. */
  function Framing(crc: Crc16, s: Snap, f: seq<byte>, time: u16, l: Link): (Snap, ZBError)
    requires |f| <= BUFFER_CMD && Framed(l)
  {
    var s1 := s.(sendCnt := Inc32(s.sendCnt), buffData := f + Zeros(BUFFER_CMD - |f|));
    Transact(crc, s1, f, time, l)
  }

  /** ZBSendPack: as ZBSendPack1 for a broadcast frame with the standard
   *  answer time; a broadcast draws no answer, so a time-out is success and
   *  is not counted. */
  function Broadcast(crc: Crc16, s: Snap, data: seq<byte>, running: bool, l: Link): (Snap, ZBError)
    requires |data| < 0x100 && Framed(l)
  {
    if |data| > MAX_PACK then (Counted(s, Data), Data)
    else if !running then (Counted(s, Run), Run)
    else if s.cfg.nwkState == ZB_NETSTATE_NO then (Counted(s, Network), Network)
    else
      var r := Framing(crc, s, BroadcastFrame(data), TIME_DELAY_ANSWER, l);
      if r.1 == Timeout then (r.0, Ok) else (Counted(r.0, r.1), r.1)
  }

  // ---------------------------------------------------------------------
  // Module commands (ZBControl, Command, SetCfg, ZBCheckConfig)
  // ---------------------------------------------------------------------

  /** ZBControl with the settings `config`. */
  function Control(crc: Crc16, s: Snap, c: ZBCmnd, config: Settings.Config, running: bool, l: Link): (Snap, ZBError)
    requires Framed(l)
  {
    if !running then (s, Run)
    else if c == CmdReset then (s, Ok)
    else
      var i := CmdIndex(c);
      if i == |ZB_CMD| then (s, Cmd)
      else if ZB_CMD[i].setCfg then Saved(crc, s, i, config, l)
      else Commanded(crc, s, i, l)
  }

  /** Command for row `i`: its four code bytes go to the command buffer and
   *  are transacted, and the result is counted. */
  function Commanded(crc: Crc16, s: Snap, i: nat, l: Link): (Snap, ZBError)
    requires i < |ZB_CMD| && Framed(l)
  {
    var f := ZB_CMD[i].code;
    var r := Transact(crc, s.(buffData := f + Zeros(BUFFER_CMD - |f|)), f, ZB_CMD[i].time, l);
    (Counted(r.0, r.1), r.1)
  }

  /** SetCfg for row `i`: the parameter block is prepared from the settings
   *  and written inside the row's command bytes. */
  function Saved(crc: Crc16, s: Snap, i: nat, config: Settings.Config, l: Link): (Snap, ZBError)
    requires i < |ZB_CMD| && Framed(l)
  {
    var z := Prepared(s.cfg, config);
    var f := SetCfgFrame(ZB_CMD[i].code, z);
    var r := Transact(crc, s.(cfg := z, buffData := f + Zeros(BUFFER_CMD - |f|)), f, ZB_CMD[i].time, l);
    (Counted(r.0, r.1), r.1)
  }

  /** ZBCheckConfig with the three exchanges it may make: read the block;
   *  if that succeeded, bring the four fields in line with the settings;
   *  if any differed, write the block and read it back. Each exchange reads
   *  the module's RUN line anew: `run1`, `run2` and `run3` are those levels. */
  function CheckConfig(crc: Crc16, s: Snap, config: Settings.Config, run1: bool, run2: bool, run3: bool, l1: Link, l2: Link, l3: Link): Snap
    requires Framed(l1) && Framed(l2) && Framed(l3)
  {
    var r1 := Control(crc, s, CmdRead, config, run1, l1);
    if r1.1 != Ok then r1.0
    else
      var s1 := r1.0.(cfg := Reconciled(r1.0.cfg, config));
      if !Differs(r1.0.cfg, config) then s1
      else
        var r2 := Control(crc, s1, CmdSave, config, run2, l2);
        Control(crc, r2.0, CmdRead, config, run3, l3).0
  }

  // ---------------------------------------------------------------------
  // Acknowledging a log packet (TaskZBCtrl)
  // ---------------------------------------------------------------------

  /** The clock is read only for synchronisation packets; an
   *  acknowledgement does not read it. */
  const NO_CLOCK: DateTime := DateTime(1, 1, 2000, 0, 0, 0)

  /** The log event: build the acknowledgement for the cached target through
   *  the directory and send it without waiting for an answer. */
  function WlogAck(crc: Crc16, s: Snap, running: bool, l: Link): Snap
    requires Framed(l)
  {
    var c := CreatePack(crc, s.slots, PAck, s.ack.numb, s.ack.netAddr, 0, Nothing, Nothing, NO_CLOCK);
    var s1 := s.(ack := s.ack.(netAddr := c.netAddr), wlog := false);
    if c.pack.None? then s1
    else
      CreatedFields(crc, s.slots, PAck, s.ack.numb, s.ack.netAddr, 0, Nothing, Nothing, NO_CLOCK);
      Unicast(crc, s1, c.pack.value, c.netAddr, TIME_NO_WAIT, running, l).0
  }

  // ---------------------------------------------------------------------
  // The engine
  // ---------------------------------------------------------------------

  class Radio {
    const recvBuff: array<byte>
    const buffData: array<byte>
    const sendBuff: array<byte>
    const dir: DevList
    const cnt: ErrorCounters
    var recvInd: nat
    var chkAnsw: Answer
    var chkPack: PackType
    var dataAck: DataAck
    var wlogPending: bool
    var timeOut: bool
    var zbCfg: ZbConfig
    var sent: seq<seq<byte>>

    ghost predicate Valid()
      reads this, recvBuff, dir, cnt
    {
      recvBuff.Length == BUFF_RECV_SIZE && buffData.Length == BUFFER_CMD && sendBuff.Length == BUFF_SEND_SIZE &&
      recvBuff != buffData && recvBuff != sendBuff && buffData != sendBuff &&
      recvInd <= BUFF_RECV_SIZE &&
      dir.Valid() && cnt.Valid()
    }

    /** The contents of the buffers and tables, the received bytes being
     *  the first `k` bytes of the receive buffer. */
    ghost function Arrays(k: nat): (seq<byte>, seq<byte>, seq<byte>, seq<Slot>, seq<u32>)
      reads recvBuff, buffData, sendBuff, dir.slots, cnt.errorCnt
    {
      (recvBuff[..if k <= recvBuff.Length then k else recvBuff.Length], buffData[..], sendBuff[..],
       dir.slots[..], cnt.errorCnt[..])
    }

    /** The state as a value. */
    ghost function S(): Snap
      reads this, recvBuff, buffData, sendBuff, dir.slots, cnt, cnt.errorCnt
    {
      var a := Arrays(recvInd);
      Snap(a.0, chkAnsw, chkPack, dataAck, wlogPending, timeOut, zbCfg,
        a.1, a.2, sent, a.3, a.4, cnt.sendCnt, cnt.recvCnt)
    }

    /** ZBInit: counters, directory, cached results and receive buffer
     *  cleared; the statics start at zero. */
    constructor ()
      ensures Valid() && S() == INIT
      ensures fresh(recvBuff) && fresh(buffData) && fresh(sendBuff)
      ensures fresh(dir) && fresh(dir.slots) && fresh(cnt) && fresh(cnt.errorCnt)
    {
      recvBuff := new byte[BUFF_RECV_SIZE](_ => 0);
      buffData := new byte[BUFFER_CMD](_ => 0);
      sendBuff := new byte[BUFF_SEND_SIZE](_ => 0);
      dir := new DevList();
      cnt := new ErrorCounters();
      recvInd := 0;
      chkAnsw, chkPack := AUndef, PUndef;
      dataAck := DataAck(0, 0);
      wlogPending, timeOut := false, false;
      zbCfg := CFG_ZERO;
      sent := [];
      new;
      assert recvBuff[..0] == [];
    }

    /** ClearRecv. */
    method ClearRecv()
      requires Valid()
      modifies this, recvBuff
      ensures Valid() && S() == old(S()).(recv := [])
      ensures recvBuff[..] == Zeros(BUFF_RECV_SIZE)
    {
      recvInd := 0;
      forall i | 0 <= i < recvBuff.Length {
        recvBuff[i] := 0;
      }
      assert recvBuff[..recvInd] == [];
    }

    /** ZBRecvComplt: one byte from the UART. */
    method RecvByte(b: byte)
      requires Valid()
      modifies this, recvBuff
      ensures Valid() && S() == old(S()).(recv := Collect(old(S()).recv, b))
    {
      if recvInd < recvBuff.Length {
        recvBuff[recvInd] := b;
        recvInd := recvInd + 1;
        assert recvBuff[..recvInd] == old(recvBuff[..recvInd]) + [b];
      } else {
        ClearRecv();
      }
    }

    /** ZBCallBack and the receive event of TaskZBCtrl: after a pause in
     *  reception a non-empty buffer is handed over as one block and
     *  cleared. */
    method RecvCheck() returns (frame: Option<seq<byte>>)
      requires Valid()
      modifies this, recvBuff
      ensures Valid()
      ensures old(recvInd) == 0 ==> frame.None? && S() == old(S())
      ensures old(recvInd) != 0 ==> frame == Some(old(S()).recv) && S() == old(S()).(recv := [])
      ensures frame.Some? ==> 1 <= |frame.value| <= BUFF_RECV_SIZE
    {
      if recvInd == 0 {
        return None;
      }
      frame := Some(recvBuff[..recvInd]);
      ClearRecv();
    }

    /** The table search of CheckAnswer: only a two-byte block is compared,
     *  row by row, and the first row with its code gives the answer. */
    method MatchAnswer(frame: seq<byte>, len: byte) returns (answ: Answer)
      requires len as int <= |frame|
      ensures len != 2 ==> answ == AUndef
      ensures len == 2 ==> answ == Scan(frame[..2], 0)
    {
      answ := AUndef;
      var ind := 0;
      while ind < |ANSWERS| && answ == AUndef
        invariant 0 <= ind <= |ANSWERS|
        invariant len != 2 ==> answ == AUndef
        invariant len == 2 ==> Scan(frame[..2], 0) == if answ == AUndef then Scan(frame[..2], ind) else answ
      {
        if len == 2 && frame[..2] == ANSWERS[ind].code {
          answ := ANSWERS[ind].id;
        }
        ind := ind + 1;
      }
    }

    /** CheckAnswer on `len` bytes at `frame` (the block's length as the
     *  byte the function takes). */
    method CheckAnswer(frame: seq<byte>, len: byte) returns (answ: Answer)
      requires Valid() && 1 <= |frame| && len as int <= |frame|
      modifies this
      ensures answ == SysAnswer(frame, len)
      ensures Valid() && S() == old(S()).(cfg := CfgAfter(old(zbCfg), frame, len, answ))
    {
      var head := frame[0];
      answ := MatchAnswer(frame, len);
      if answ == AJoinNet || answ == ABldNet {
        zbCfg := zbCfg.(nwkState := ZB_NETSTATE_OK);
      }
      if answ == ANoNet {
        zbCfg := zbCfg.(nwkState := ZB_NETSTATE_NO);
      }
      if answ == AUndef && head == ZB_SYS_CONFIG && len == CFG_SIZE + 1 {
        zbCfg := CfgOf(frame[1..CFG_SIZE + 1]);
        answ := AReadConfig;
      }
      assert zbCfg == CfgAfter(old(zbCfg), frame, len, answ);
    }

    /** GetAnswer. */
    method GetAnswer() returns (e: ZBError)
      requires Valid()
      modifies this
      ensures Valid() && (S(), e) == Answered(old(S()))
    {
      var answ, pack := chkAnsw, chkPack;
      chkAnsw, chkPack := AUndef, PUndef;
      if answ == AUndef && pack == PUndef {
        e := Undef;
      } else if answ == AError {
        e := Exec;
      } else if answ == ASetConfig || answ == ARestart || answ == ACfgFactory || answ == ANetRestart || answ == AReadConfig {
        e := Ok;
      } else if pack != PUndef {
        e := Ok;
      } else {
        e := Undef;
      }
      assert e == Resolve(answ, pack);
    }

    /** The packet total of the flow task. */
    method CountRecv()
      requires Valid()
      modifies cnt
      ensures Valid() && S() == old(S()).(recvCnt := Inc32(old(cnt.recvCnt)))
    {
      cnt.recvCnt := Inc32(cnt.recvCnt);
    }

    /** CheckPack2 on the engine's directory and counters. */
    method CheckDirect(crc: Crc16, data: seq<byte>, len: byte) returns (t: PackType, ack: DataAck)
      requires Valid() && |data| >= 1 && len as int <= |data|
      modifies dir.slots, cnt.errorCnt
      ensures var v := Verify(crc, data, len as int);
        var c := Checked(old(S()), v);
        Valid() && S() == old(S()).(slots := c.slots, errs := c.errs) && t == c.pack && ack == c.ack
    {
      t, ack := CheckPack2(crc, dir, cnt, data, len);
    }

    /** The cached kind, the acknowledgement target and the log event. */
    method Note(t: PackType, ack: DataAck)
      requires Valid()
      modifies this
      ensures Valid() && S() == old(S()).(pack := t, ack := ack, wlog := old(wlogPending) || t == PWlog)
    {
      chkPack, dataAck := t, ack;
      if t == PWlog {
        wlogPending := true;
      }
    }

    /** One pass of the split loop: the packet total, CheckPack2 on `len`
     *  bytes at `data`, and the log event. */
    method CheckOne(crc: Crc16, data: seq<byte>, len: byte)
      requires Valid() && |data| >= 1 && len as int <= |data|
      modifies this, dir.slots, cnt, cnt.errorCnt
      ensures Valid() && S() == Checked(old(S()), Verify(crc, data, len as int))
    {
      ghost var s0 := S();
      ghost var v := Verify(crc, data, len as int);
      CountRecv();
      ghost var s1 := S();
      var t, ack := CheckDirect(crc, data, len);
      ghost var c := Checked(s1, v);
      ghost var s2 := s1.(slots := c.slots, errs := c.errs);
      assert S() == s2;
      Note(t, ack);
      assert S() == s2.(pack := c.pack, ack := c.ack, wlog := c.wlog);
    }

    /** The split loop of TaskZBFlow over a block that is no system answer:
     *  each packet is sized by its tag and checked, until the block is used
     *  up or a packet cannot be sized. */
    method SplitPackets(crc: Crc16, frame: seq<byte>)
      requires Valid() && 1 <= |frame| <= BUFF_RECV_SIZE
      modifies this, dir.slots, cnt, cnt.errorCnt
      ensures Valid() && S() == Split(crc, frame, 0, old(S()))
    {
      ghost var goal := Split(crc, frame, 0, S());
      var offset := 0;
      var lenPack := |frame|;
      while true
        invariant Valid() && offset + lenPack == |frame| && 0 < lenPack
        invariant Split(crc, frame, offset, S()) == goal
        decreases lenPack
      {
        var lenChk := CheckPack1(frame[offset..]);
        if lenChk > lenPack {
          lenChk := 0;
        }
        assert lenChk == Chunk(frame, offset);
        CheckOne(crc, frame[offset..], lenChk);
        offset := offset + lenChk;
        lenPack := lenPack - lenChk;
        if lenPack == 0 || lenChk == 0 {
          break;
        }
      }
    }

    /** One block taken from the receive queue by TaskZBFlow. Returns
     *  whether a waiting transaction was released. */
    method ProcessFrame(crc: Crc16, frame: seq<byte>) returns (released: bool)
      requires Valid() && 1 <= |frame| <= BUFF_RECV_SIZE
      modifies this, dir.slots, cnt, cnt.errorCnt
      ensures released == old(timeOut)
      ensures Valid() && S() == Processed(crc, old(S()), frame)
    {
      ghost var s0 := S();
      var len: byte := |frame| % 0x100;
      var answ := CheckAnswer(frame, len);
      chkAnsw := answ;
      ghost var s1 := s0.(answ := answ, cfg := CfgAfter(s0.cfg, frame, len, answ));
      assert S() == s1;
      if answ == AUndef {
        SplitPackets(crc, frame);
      }
      ghost var s2 := S();
      assert s2 == if answ == AUndef then Split(crc, frame, 0, s1) else s1;
      released := timeOut;
      timeOut := false;
      assert S() == s2.(timeOut := false);
    }

    /** Fill the transmit buffer with `data` and zeros. */
    method FillSend(data: seq<byte>)
      requires Valid() && |data| <= BUFF_SEND_SIZE
      modifies sendBuff
      ensures Valid() && S() == old(S()).(sendBuff := data + Zeros(BUFF_SEND_SIZE - |data|))
    {
      forall i | 0 <= i < sendBuff.Length {
        sendBuff[i] := if i < |data| then data[i] else 0;
      }
      assert sendBuff[..] == data + Zeros(BUFF_SEND_SIZE - |data|);
    }

    /** The UART takes the transmit buffer's first |data| bytes. */
    method Transmit(data: seq<byte>)
      requires Valid()
      modifies this
      ensures Valid() && S() == old(S()).(sent := old(sent) + [data])
    {
      sent := sent + [data];
    }

    /** The transaction waits for an answer. */
    method Wait()
      requires Valid()
      modifies this
      ensures Valid() && S() == old(S()).(timeOut := true)
    {
      timeOut := true;
    }

    /** SendData. */
    method SendData(crc: Crc16, data: seq<byte>, timeout: u16, l: Link) returns (e: ZBError)
      requires Valid() && |data| < 0x100 && Framed(l)
      modifies this, recvBuff, sendBuff, dir.slots, cnt, cnt.errorCnt
      ensures Valid() && (S(), e) == Transact(crc, old(S()), data, timeout, l)
    {
      ghost var s0 := S();
      var _ := GetAnswer();
      ClearRecv();
      ghost var s1 := Answered(s0).0.(recv := []);
      assert S() == s1;
      if |data| > sendBuff.Length {
        return Data;
      }
      FillSend(data);
      ghost var s2 := s1.(sendBuff := data + Zeros(BUFF_SEND_SIZE - |data|));
      assert S() == s2;
      if !l.txOk {
        return Send;
      }
      Transmit(data);
      ghost var s3 := s2.(sent := s2.sent + [data]);
      assert S() == s3;
      if timeout == 0 {
        return Ok;
      }
      Wait();
      assert S() == s3.(timeOut := true);
      if l.reply.None? {
        return Timeout;
      }
      var _ := ProcessFrame(crc, l.reply.value);
      ghost var s4 := Processed(crc, s3.(timeOut := true), l.reply.value);
      assert S() == s4;
      e := GetAnswer();
      assert (S(), e) == Answered(s4);
    }

    /** Fill the command buffer with `f` and zeros. */
    method FillCommand(f: seq<byte>)
      requires Valid() && |f| <= BUFFER_CMD
      modifies buffData
      ensures Valid() && S() == old(S()).(buffData := f + Zeros(BUFFER_CMD - |f|))
      ensures buffData[..|f|] == f
    {
      forall i | 0 <= i < buffData.Length {
        buffData[i] := if i < |f| then f[i] else 0;
      }
      assert buffData[..] == f + Zeros(BUFFER_CMD - |f|);
      assert buffData[..|f|] == f;
    }

    /** The transmit path of ZBSendPack1 and ZBSendPack. */
    method SendFrame(crc: Crc16, f: seq<byte>, time: u16, l: Link) returns (e: ZBError)
      requires Valid() && |f| <= BUFFER_CMD && Framed(l)
      modifies this, recvBuff, buffData, sendBuff, dir.slots, cnt, cnt.errorCnt
      ensures Valid() && (S(), e) == Framing(crc, old(S()), f, time, l)
    {
      ghost var s0 := S();
      cnt.sendCnt := Inc32(cnt.sendCnt);
      FillCommand(f);
      ghost var s1 := s0.(sendCnt := Inc32(s0.sendCnt), buffData := f + Zeros(BUFFER_CMD - |f|));
      assert S() == s1;
      e := SendData(crc, buffData[..|f|], time, l);
    }

    /** ZBSendPack1 with the length check corrected to leave room for the
     *  two address bytes; `running` is the module's RUN line. */
    method ZBSendPack1(crc: Crc16, data: seq<byte>, addr: u16, timeAnsw: u16, running: bool, l: Link)
      returns (e: ZBError)
      requires Valid() && |data| < 0x100 && Framed(l)
      modifies this, recvBuff, buffData, sendBuff, dir.slots, cnt, cnt.errorCnt
      ensures Valid() && (S(), e) == Unicast(crc, old(S()), data, addr, timeAnsw, running, l)
    {
      if |data| > MAX_PACK1 {
        cnt.ZBIncError(Data.Code());
        return Data;
      }
      if !running {
        cnt.ZBIncError(Run.Code());
        return Run;
      }
      if zbCfg.nwkState == ZB_NETSTATE_NO {
        cnt.ZBIncError(Network.Code());
        return Network;
      }
      e := SendFrame(crc, UnicastFrame(data, addr), timeAnsw, l);
      cnt.ZBIncError(e.Code());
    }

    /** ZBSendPack. */
    method ZBSendPack(crc: Crc16, data: seq<byte>, running: bool, l: Link) returns (e: ZBError)
      requires Valid() && |data| < 0x100 && Framed(l)
      modifies this, recvBuff, buffData, sendBuff, dir.slots, cnt, cnt.errorCnt
      ensures Valid() && (S(), e) == Broadcast(crc, old(S()), data, running, l)
    {
      if |data| > MAX_PACK {
        cnt.ZBIncError(Data.Code());
        return Data;
      }
      if !running {
        cnt.ZBIncError(Run.Code());
        return Run;
      }
      if zbCfg.nwkState == ZB_NETSTATE_NO {
        cnt.ZBIncError(Network.Code());
        return Network;
      }
      e := SendFrame(crc, BroadcastFrame(data), TIME_DELAY_ANSWER, l);
      if e == Timeout {
        e := Ok;
      } else {
        cnt.ZBIncError(e.Code());
      }
    }

    /** The exchange shared by Command and SetCfg: the command bytes `f`
     *  go to the command buffer and are transacted, and the result is
     *  counted. */
    method Exchange(crc: Crc16, f: seq<byte>, time: u16, l: Link) returns (e: ZBError)
      requires Valid() && |f| <= BUFFER_CMD && Framed(l)
      modifies this, recvBuff, buffData, sendBuff, dir.slots, cnt, cnt.errorCnt
      ensures var r := Transact(crc, old(S()).(buffData := f + Zeros(BUFFER_CMD - |f|)), f, time, l);
        Valid() && S() == Counted(r.0, r.1) && e == r.1
    {
      ghost var s1 := S().(buffData := f + Zeros(BUFFER_CMD - |f|));
      FillCommand(f);
      e := SendData(crc, buffData[..|f|], time, l);
      ghost var r := Transact(crc, s1, f, time, l);
      assert S() == r.0 && e == r.1;
      cnt.ZBIncError(e.Code());
    }

    /** Command: the four code bytes of command row `i`. */
    method Command(crc: Crc16, i: nat, l: Link) returns (e: ZBError)
      requires Valid() && i < |ZB_CMD| && Framed(l)
      modifies this, recvBuff, buffData, sendBuff, dir.slots, cnt, cnt.errorCnt
      ensures Valid() && (S(), e) == Commanded(crc, old(S()), i, l)
    {
      e := Exchange(crc, ZB_CMD[i].code, ZB_CMD[i].time, l);
    }

    /** The module's parameter block in memory becomes `z`. */
    method Store(z: ZbConfig)
      requires Valid()
      modifies this
      ensures Valid() && S() == old(S()).(cfg := z)
    {
      zbCfg := z;
    }

    /** SetCfg: prepare the parameter block from the settings and write it. */
    method SetCfg(crc: Crc16, i: nat, config: Settings.Config, l: Link) returns (e: ZBError)
      requires Valid() && i < |ZB_CMD| && Framed(l)
      modifies this, recvBuff, buffData, sendBuff, dir.slots, cnt, cnt.errorCnt
      ensures Valid() && (S(), e) == Saved(crc, old(S()), i, config, l)
    {
      var z := Prepared(zbCfg, config);
      ghost var s1 := S().(cfg := z);
      Store(z);
      var f := SetCfgFrame(ZB_CMD[i].code, z);
      e := Exchange(crc, f, ZB_CMD[i].time, l);
      ghost var r := Transact(crc, s1.(buffData := f + Zeros(BUFFER_CMD - |f|)), f, ZB_CMD[i].time, l);
      assert S() == Counted(r.0, r.1) && e == r.1;
    }

    /** The table search of ZBControl: the first row for `command`, or
     *  |ZB_CMD| when there is none. */
    method FindCommand(command: ZBCmnd) returns (ind: nat)
      ensures ind == CmdIndex(command)
    {
      ind := 0;
      while ind < |ZB_CMD|
        invariant 0 <= ind <= |ZB_CMD|
        invariant forall j :: 0 <= j < ind ==> ZB_CMD[j].id != command
      {
        if ZB_CMD[ind].id == command {
          return;
        }
        ind := ind + 1;
      }
    }

    /** ZBControl. */
    method ZBControl(crc: Crc16, command: ZBCmnd, config: Settings.Config, running: bool, l: Link)
      returns (e: ZBError)
      requires Valid() && Framed(l)
      modifies this, recvBuff, buffData, sendBuff, dir.slots, cnt, cnt.errorCnt
      ensures Valid() && (S(), e) == Control(crc, old(S()), command, config, running, l)
    {
      if !running {
        return Run;
      }
      if command == CmdReset {
        return Ok;
      }
      var ind := FindCommand(command);
      if ind == |ZB_CMD| {
        e := Cmd;
      } else if ZB_CMD[ind].setCfg {
        e := SetCfg(crc, ind, config, l);
      } else {
        e := Command(crc, ind, l);
      }
    }

    /** The comparisons and copies of ZBCheckConfig. */
    method Reconcile(config: Settings.Config) returns (change: bool)
      requires Valid()
      modifies this
      ensures change == Differs(old(zbCfg), config)
      ensures Valid() && S() == old(S()).(cfg := Reconciled(old(zbCfg), config))
    {
      var z := zbCfg;
      change := false;
      if z.devType != ZB_DEV_COORDINATOR {
        change := true;
        z := z.(devType := ZB_DEV_COORDINATOR);
      }
      var cfgId := Swap16(config.panId);
      var cfgZb := ReadLE16(z.panId, 0);
      if cfgId != cfgZb {
        change := true;
        z := z.(panId := [Hi(config.panId), Lo(config.panId)]);
      }
      if z.group != config.group {
        change := true;
        z := z.(group := config.group);
      }
      if z.key != config.key {
        change := true;
        z := z.(key := config.key);
      }
      assert z == Reconciled(zbCfg, config) && change == Differs(zbCfg, config);
      Store(z);
    }

    /** ZBCheckConfig; `run1`..`run3` are the RUN line at each of its exchanges. */
    method ZBCheckConfig(crc: Crc16, config: Settings.Config, run1: bool, run2: bool, run3: bool, l1: Link, l2: Link, l3: Link)
      requires Valid() && Framed(l1) && Framed(l2) && Framed(l3)
      modifies this, recvBuff, buffData, sendBuff, dir.slots, cnt, cnt.errorCnt
      ensures Valid() && S() == CheckConfig(crc, old(S()), config, run1, run2, run3, l1, l2, l3)
    {
      ghost var s0 := S();
      var state := ZBControl(crc, CmdRead, config, run1, l1);
      ghost var r1 := Control(crc, s0, CmdRead, config, run1, l1);
      assert S() == r1.0 && state == r1.1;
      if state != Ok {
        return;
      }
      ghost var z := zbCfg;
      var change := Reconcile(config);
      ghost var s1 := r1.0.(cfg := Reconciled(z, config));
      assert S() == s1;
      if !change {
        return;
      }
      state := ZBControl(crc, CmdSave, config, run2, l2);
      ghost var r2 := Control(crc, s1, CmdSave, config, run2, l2);
      assert S() == r2.0;
      state := ZBControl(crc, CmdRead, config, run3, l3);
      assert S() == Control(crc, r2.0, CmdRead, config, run3, l3).0;
    }

    /** The log event of TaskZBCtrl: acknowledge the log packet to the
     *  device that sent it. */
    method SendWlogAck(crc: Crc16, running: bool, l: Link)
      requires Valid() && Framed(l)
      modifies this, recvBuff, buffData, sendBuff, dir.slots, cnt, cnt.errorCnt
      ensures Valid() && S() == WlogAck(crc, old(S()), running, l)
    {
      ghost var s0 := S();
      wlogPending := false;
      var c := CreatePack(crc, dir.slots[..], PAck, dataAck.numb, dataAck.netAddr, 0, Nothing, Nothing, NO_CLOCK);
      dataAck := dataAck.(netAddr := c.netAddr);
      ghost var s1 := s0.(ack := s0.ack.(netAddr := c.netAddr), wlog := false);
      assert S() == s1;
      if c.pack.None? {
        return;
      }
      CreatedFields(crc, s0.slots, PAck, s0.ack.numb, s0.ack.netAddr, 0, Nothing, Nothing, NO_CLOCK);
      var _ := ZBSendPack1(crc, c.pack.value, dataAck.netAddr, TIME_NO_WAIT, running, l);
      assert S() == Unicast(crc, s1, c.pack.value, c.netAddr, TIME_NO_WAIT, running, l).0;
    }
  }
}
