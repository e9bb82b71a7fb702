/**
 * What the radio engine promises, stated about the functions its
 * operations are proved against: the frame splitter recovers a run of
 * concatenated packets, counts every pass and keeps the last packet's
 * kind; a transaction always starts from a clean cache and answers with
 * the verdict on what the module sent back; the data frames and module
 * commands carry what they should and are checked and counted in order;
 * the start-up reconciliation leaves the module's block agreeing with the
 * settings; a log packet is acknowledged to the device that sent it.
 */
module ZigBeeProps {
  import opened Bytes
  import opened Counters
  import opened Directory
  import opened DataLink
  import opened ZBFrames
  import opened ZigBee
  import Settings

  // ---------------------------------------------------------------------
  // The frame splitter
  // ---------------------------------------------------------------------

  /** An inbound packet as a device builds it. */
  datatype Packet = Packet(kind: PackType, numb: u16, addr: u16, body: seq<byte>)

  predicate WellFormed(p: Packet)
  {
    p.kind.Inbound() && |p.body| == BodyLen(p.kind)
  }

  predicate AllWellFormed(ps: seq<Packet>)
  {
    forall i :: 0 <= i < |ps| ==> WellFormed(ps[i])
  }

  /** The packets sealed and sent back to back in one block. */
  function Wire(crc: Crc16, ps: seq<Packet>): (w: seq<byte>)
    requires AllWellFormed(ps)
    ensures ps != [] ==> |w| >= 10
  {
    if ps == [] then []
    else Seal(crc, ps[0].kind, ps[0].numb, ps[0].addr, ps[0].body) + Wire(crc, ps[1..])
  }

  /** The reference: each packet accepted in turn. */
  function Received(s: Snap, ps: seq<Packet>): Snap
    decreases |ps|
  {
    if ps == [] then s
    else Received(Checked(s, Accepted(ps[0].kind, ps[0].numb, ps[0].addr)), ps[1..])
  }

  /** The directory after each packet's sender was entered in turn. */
  function UpsertedAll(t: seq<Slot>, ps: seq<Packet>): seq<Slot>
    decreases |ps|
  {
    if ps == [] then t else UpsertedAll(Upserted(t, ps[0].numb, ps[0].addr), ps[1..])
  }

  /** A block made of sealed packets is split exactly into them: each is
   *  checked and accepted, in order. */
  lemma {:induction false} SplitWire(crc: Crc16, frame: seq<byte>, off: nat, s: Snap, ps: seq<Packet>)
    requires ps != [] && AllWellFormed(ps)
    requires off < |frame| && frame[off..] == Wire(crc, ps)
    ensures Split(crc, frame, off, s) == Received(s, ps)
    decreases |ps|
  {
    var q := ps[0];
    var p := Seal(crc, q.kind, q.numb, q.addr, q.body);
    var rest := Wire(crc, ps[1..]);
    assert WellFormed(q);
    SplitHead(crc, frame, off, s, q, rest);
    if |ps| > 1 {
      SplitWire(crc, frame, off + |p|, Checked(s, Accepted(q.kind, q.numb, q.addr)), ps[1..]);
    }
  }

  /** One step of the split on a sealed packet followed by `rest`. */
  lemma SplitHead(crc: Crc16, frame: seq<byte>, off: nat, s: Snap, q: Packet, rest: seq<byte>)
    requires WellFormed(q) && off < |frame|
    requires frame[off..] == Seal(crc, q.kind, q.numb, q.addr, q.body) + rest
    ensures var p := Seal(crc, q.kind, q.numb, q.addr, q.body);
      var s1 := Checked(s, Accepted(q.kind, q.numb, q.addr));
      off + |p| <= |frame| && frame[off + |p|..] == rest &&
      Split(crc, frame, off, s) == if rest == [] then s1 else Split(crc, frame, off + |p|, s1)
  {
    var p := Seal(crc, q.kind, q.numb, q.addr, q.body);
    SealAccepted(crc, q.kind, q.numb, q.addr, q.body, rest);
    assert CheckPack1(frame[off..]) == |p|;
    assert Chunk(frame, off) as int == |p|;
    assert frame[off + |p|..] == rest;
  }

  /** Accepting a run of packets counts every one, keeps the kind of the
   *  last, enters every sender in the directory and counts no error. */
  lemma {:induction false} ReceivedFacts(s: Snap, ps: seq<Packet>)
    requires ps != []
    ensures var r := Received(s, ps);
      r.recvCnt == Ticks(s.recvCnt, |ps|) &&
      r.pack == ps[|ps| - 1].kind &&
      r.slots == UpsertedAll(s.slots, ps) &&
      r.errs == s.errs
    decreases |ps|
  {
    var s1 := Checked(s, Accepted(ps[0].kind, ps[0].numb, ps[0].addr));
    if |ps| > 1 {
      ReceivedFacts(s1, ps[1..]);
      assert ps[1..][|ps[1..]| - 1] == ps[|ps| - 1];
    }
  }

  /** Entering senders keeps the device numbers of the directory distinct. */
  lemma {:induction false} UpsertedAllKeepsUnique(t: seq<Slot>, ps: seq<Packet>)
    requires Unique(t)
    ensures Unique(UpsertedAll(t, ps))
    decreases |ps|
  {
    if ps != [] {
      UpsertKeepsUnique(t, ps[0].numb, ps[0].addr);
      UpsertedAllKeepsUnique(Upserted(t, ps[0].numb, ps[0].addr), ps[1..]);
    }
  }

  /** The packet total after `k` more packets, one increment at a time. */
  function Ticks(c: u32, k: nat): u32
    decreases k
  {
    if k == 0 then c else Ticks(Inc32(c), k - 1)
  }

  /** `k` increments add `k` modulo 2^32. */
  lemma {:induction false} TicksAdd(c: u32, k: nat)
    ensures Ticks(c, k) == (c + k) % U32
    decreases k
  {
    if k > 0 {
      TicksAdd(Inc32(c), k - 1);
      CountStep(c, k - 1);
    }
  }

  lemma CountStep(c: u32, k: nat)
    ensures (Inc32(c) + k) % U32 == (c + (k + 1)) % U32
  {
    var q := (c + 1) / U32;
    assert Inc32(c) == c + 1 - q * U32;
    assert (Inc32(c) + k) == (c + (k + 1)) - q * U32;
  }

  /** The number of passes the split loop makes from offset `off`. */
  function Passes(frame: seq<byte>, off: nat): (k: nat)
    requires off < |frame|
    ensures 1 <= k <= |frame| - off
    decreases |frame| - off
  {
    var n := Chunk(frame, off);
    if n != 0 && off + n as int < |frame| then 1 + Passes(frame, off + n as int) else 1
  }

  /** The offset of the split loop's last pass. */
  function LastPass(frame: seq<byte>, off: nat): (o: nat)
    requires off < |frame|
    ensures off <= o < |frame|
    decreases |frame| - off
  {
    var n := Chunk(frame, off);
    if n != 0 && off + n as int < |frame| then LastPass(frame, off + n as int) else off
  }

  /** Every pass counts one packet, so the total grows by the number of
   *  passes, and no pass starts outside the block. */
  lemma {:induction false} SplitCounts(crc: Crc16, frame: seq<byte>, off: nat, s: Snap)
    requires off < |frame|
    ensures Split(crc, frame, off, s).recvCnt == Ticks(s.recvCnt, Passes(frame, off))
    decreases |frame| - off
  {
    var n := Chunk(frame, off);
    var s1 := Checked(s, Verify(crc, frame[off..], n as int));
    SplitStep(crc, frame, off, s);
    if n != 0 && off + n as int < |frame| {
      var k := Passes(frame, off + n as int);
      SplitCounts(crc, frame, off + n as int, s1);
      TicksStep(s.recvCnt, k);
      assert Split(crc, frame, off, s).recvCnt == Ticks(Inc32(s.recvCnt), k);
      assert Passes(frame, off) == k + 1;
    } else {
      TicksStep(s.recvCnt, 0);
      assert Split(crc, frame, off, s).recvCnt == Inc32(s.recvCnt);
    }
  }

  /** One pass of the split loop. */
  lemma SplitStep(crc: Crc16, frame: seq<byte>, off: nat, s: Snap)
    requires off < |frame|
    ensures var n := Chunk(frame, off);
      var s1 := Checked(s, Verify(crc, frame[off..], n as int));
      s1.recvCnt == Inc32(s.recvCnt) &&
      (n != 0 && off + n as int < |frame| ==>
        Split(crc, frame, off, s) == Split(crc, frame, off + n as int, s1) &&
        Passes(frame, off) == 1 + Passes(frame, off + n as int) &&
        LastPass(frame, off) == LastPass(frame, off + n as int)) &&
      (!(n != 0 && off + n as int < |frame|) ==>
        Split(crc, frame, off, s) == s1 && Passes(frame, off) == 1 && LastPass(frame, off) == off)
  {
  }

  lemma TicksStep(c: u32, k: nat)
    ensures Ticks(c, k + 1) == Ticks(Inc32(c), k)
  {
  }

  /** Each pass overwrites the cached kind, so the last packet wins: the
   *  kind is that of the last pass's verdict, whatever was cached. */
  lemma {:induction false} SplitLastWins(crc: Crc16, frame: seq<byte>, off: nat, s: Snap)
    requires off < |frame|
    ensures var o := LastPass(frame, off);
      var v := Verify(crc, frame[o..], Chunk(frame, o) as int);
      Split(crc, frame, off, s).pack == if v.Accepted? then v.kind else PUndef
    decreases |frame| - off
  {
    var n := Chunk(frame, off);
    SplitStep(crc, frame, off, s);
    if n != 0 && off + n as int < |frame| {
      var s1 := Checked(s, Verify(crc, frame[off..], n as int));
      SplitLastWins(crc, frame, off + n as int, s1);
    }
  }

  // The split loop's remainder as written: the 16-bit remainder is reduced
  // by the size CheckPack1 names, with no check that the size fits.

  /** The remainder after one pass as the C code computes it. */
  function RemainderAsWritten(lenPack: u16, n: nat): u16
  {
    (lenPack - n) % 0x10000
  }

  /** A ten-byte block that starts with the STATE tag: CheckPack1 names 24
   *  bytes, the 16-bit remainder wraps to 65522 instead of reaching zero,
   *  and the next pass starts at offset 24, past the end of the block. */
  lemma SplitUnderflow()
    ensures var frame: seq<byte> := [1, 0, 0, 0, 0, 0, 0, 0, 0, 0];
      CheckPack1(frame) == 24 &&
      RemainderAsWritten(|frame|, CheckPack1(frame)) == 65522 &&
      0 + CheckPack1(frame) > |frame|
  {
  }

  /** With the size checked against the remainder, the same block takes one
   *  pass that accepts nothing, and the loop stops inside the block. */
  lemma SplitTruncatedStops(crc: Crc16, s: Snap)
    ensures var frame: seq<byte> := [1, 0, 0, 0, 0, 0, 0, 0, 0, 0];
      Chunk(frame, 0) == 0 && Passes(frame, 0) == 1 &&
      Split(crc, frame, 0, s) == Checked(s, Unmatched)
  {
    var frame: seq<byte> := [1, 0, 0, 0, 0, 0, 0, 0, 0, 0];
    assert CheckPack1(frame[0..]) == 24;
  }

  /** Where the size fits, the remainder as written is the true remainder. */
  lemma RemainderAgrees(lenPack: u16, n: nat)
    requires n <= lenPack
    ensures RemainderAsWritten(lenPack, n) == lenPack - n
  {
  }

  // ---------------------------------------------------------------------
  // Processing a received block
  // ---------------------------------------------------------------------

  /** A system answer is no application data: the packet total, the cached
   *  kind, the acknowledgement target, the directory and the counters are
   *  untouched, and the waiting transaction is released. */
  lemma ProcessedSystemAnswer(crc: Crc16, s: Snap, frame: seq<byte>)
    requires 1 <= |frame| && SysAnswer(frame, |frame| % 0x100) != AUndef
    ensures var r := Processed(crc, s, frame);
      r.answ == SysAnswer(frame, |frame| % 0x100) && !r.timeOut &&
      r.recvCnt == s.recvCnt && r.pack == s.pack && r.ack == s.ack && r.wlog == s.wlog &&
      r.slots == s.slots && r.errs == s.errs && r.sent == s.sent
  {
  }

  /** A two-byte block is cached as an answer exactly when it is that
   *  answer's code. */
  lemma ProcessedAnswerCode(crc: Crc16, s: Snap, frame: seq<byte>, a: Answer)
    requires |frame| == 2 && a != AUndef
    ensures Processed(crc, s, frame).answ == a <==> CodeOf(a) == Some(frame)
  {
    assert frame[..2] == frame;
    ScanIff(frame, a);
  }

  /** A block whose length truncated to a byte is 46 and whose head is 0xFB
   *  is a parameter-block report: the block becomes the 45 bytes after the
   *  head. */
  lemma ProcessedConfigReport(crc: Crc16, s: Snap, frame: seq<byte>)
    requires |frame| % 0x100 == 46 && frame[0] == ZB_SYS_CONFIG
    ensures var r := Processed(crc, s, frame);
      r.answ == AReadConfig && CfgBytes(r.cfg) == frame[1..46] && r.slots == s.slots
  {
  }

  /** No block of sealed packets is mistaken for a system answer: its first
   *  byte is a device tag. */
  lemma {:induction false} WireNoAnswer(crc: Crc16, ps: seq<Packet>)
    requires ps != [] && AllWellFormed(ps)
    ensures var w := Wire(crc, ps); SysAnswer(w, |w| % 0x100) == AUndef
  {
    var w := Wire(crc, ps);
    var q := ps[0];
    assert w[0] == q.kind.Code();
    if |w| % 0x100 == 2 {
      assert w[..2][0] == w[0];
    }
  }

  /** A block of sealed packets is split into exactly those packets. */
  lemma {:induction false} ProcessedWire(crc: Crc16, s: Snap, ps: seq<Packet>)
    requires ps != [] && AllWellFormed(ps)
    ensures Processed(crc, s, Wire(crc, ps)) == Received(s.(answ := AUndef), ps).(timeOut := false)
  {
    var w := Wire(crc, ps);
    WireNoAnswer(crc, ps);
    assert w[0..] == w;
    SplitWire(crc, w, 0, s.(answ := AUndef), ps);
  }

  // ---------------------------------------------------------------------
  // Transactions
  // ---------------------------------------------------------------------

  /** Every transaction leaves the cache and the receive buffer empty, and
   *  its outcome does not depend on what was cached or received before. */
  lemma TransactClean(crc: Crc16, s: Snap, data: seq<byte>, timeout: u16, l: Link,
                      a: Answer, p: PackType, q: seq<byte>)
    requires |data| < 0x100 && Framed(l)
    ensures var r := Transact(crc, s, data, timeout, l).0;
      r.answ == AUndef && r.pack == PUndef && r.recv == []
    ensures Transact(crc, s, data, timeout, l) == Transact(crc, s.(answ := a, pack := p, recv := q), data, timeout, l)
  {
  }

  /** The data is handed to the UART exactly when it fits the transmit
   *  buffer and the UART takes it; a transaction counts nothing itself,
   *  and one that processes no block leaves the directory, the counters,
   *  the log event and the parameter block as they were. */
  lemma TransactSends(crc: Crc16, s: Snap, data: seq<byte>, timeout: u16, l: Link)
    requires |data| < 0x100 && Framed(l)
    ensures var r := Transact(crc, s, data, timeout, l).0;
      r.sent == (if |data| <= BUFF_SEND_SIZE && l.txOk then s.sent + [data] else s.sent) &&
      r.sendCnt == s.sendCnt
    ensures timeout == 0 || l.reply.None? ==>
      var r := Transact(crc, s, data, timeout, l).0;
      r.slots == s.slots && r.errs == s.errs && r.wlog == s.wlog && r.cfg == s.cfg
  {
  }

  /** The result of a transaction: too long, not transmitted, not waited
   *  for, nothing received within the wait, or the verdict on what was
   *  received. */
  lemma TransactResult(crc: Crc16, s: Snap, data: seq<byte>, timeout: u16, l: Link)
    requires |data| < 0x100 && Framed(l)
    ensures var (r, e) := Transact(crc, s, data, timeout, l);
      (e == Data <==> |data| > BUFF_SEND_SIZE) &&
      (e == Send <==> |data| <= BUFF_SEND_SIZE && !l.txOk) &&
      (e == Timeout <==> |data| <= BUFF_SEND_SIZE && l.txOk && timeout != 0 && l.reply.None?) &&
      (|data| <= BUFF_SEND_SIZE && l.txOk && timeout == 0 ==> e == Ok && r.timeOut == s.timeOut) &&
      (|data| <= BUFF_SEND_SIZE && l.txOk && timeout != 0 ==> (r.timeOut <==> l.reply.None?)) &&
      (e == Ok || e == Exec || e == Undef || e == Data || e == Send || e == Timeout)
  {
  }

  /** A system answer received within the wait decides the result: a
   *  command error for an error report, success for a completed command,
   *  and no identified result for a network report. */
  lemma TransactAnswer(crc: Crc16, s: Snap, data: seq<byte>, timeout: u16, l: Link, a: Answer)
    requires |data| <= BUFF_SEND_SIZE && Framed(l) && l.txOk && timeout != 0
    requires a != AUndef && l.reply.Some? && CodeOf(a) == l.reply
    ensures var e := Transact(crc, s, data, timeout, l).1;
      (e == Exec <==> a == AError) && (e == Ok <==> a.Completes()) && (e == Undef <==> a.ABldNet? || a.AJoinNet? || a.ANoNet?)
  {
    var f := l.reply.value;
    var s3 := Answered(s).0.(recv := [], sendBuff := data + Zeros(BUFF_SEND_SIZE - |data|));
    var s4 := s3.(sent := s3.sent + [data], timeOut := true);
    ProcessedAnswerCode(crc, s4, f, a);
  }

  /** Sealed packets received within the wait: every one is accepted and
   *  counted, every sender is entered in the directory, nothing counts as
   *  an error, and the transaction succeeds. */
  lemma {:induction false} TransactWire(crc: Crc16, s: Snap, data: seq<byte>, timeout: u16, l: Link, ps: seq<Packet>)
    requires |data| <= BUFF_SEND_SIZE && Framed(l) && l.txOk && timeout != 0
    requires ps != [] && AllWellFormed(ps) && l.reply == Some(Wire(crc, ps))
    ensures var (r, e) := Transact(crc, s, data, timeout, l);
      e == Ok && r.slots == UpsertedAll(s.slots, ps) && r.recvCnt == Ticks(s.recvCnt, |ps|) && r.errs == s.errs
  {
    var s3 := Answered(s).0.(recv := [], sendBuff := data + Zeros(BUFF_SEND_SIZE - |data|));
    var s4 := s3.(sent := s3.sent + [data], timeOut := true);
    ProcessedWire(crc, s4, ps);
    ReceivedFacts(s4.(answ := AUndef), ps);
  }

  // ---------------------------------------------------------------------
  // Data frames
  // ---------------------------------------------------------------------

  /** ZBSendPack1's checks, in order, each counted and each leaving
   *  everything else as it was; no other result of the frame's
   *  transaction is mistaken for one of them. */
  lemma UnicastChecks(crc: Crc16, s: Snap, data: seq<byte>, addr: u16, time: u16, running: bool, l: Link)
    requires |data| < 0x100 && Framed(l)
    ensures var r := Unicast(crc, s, data, addr, time, running, l);
      (r.1 == Data <==> |data| > MAX_PACK1) &&
      (r.1 == Run <==> |data| <= MAX_PACK1 && !running) &&
      (r.1 == Network <==> |data| <= MAX_PACK1 && running && s.cfg.nwkState == ZB_NETSTATE_NO) &&
      (r.1 == Data || r.1 == Run || r.1 == Network ==> r.0 == Counted(s, r.1))
  {
    if |data| <= MAX_PACK1 && running && s.cfg.nwkState != ZB_NETSTATE_NO {
      var f := UnicastFrame(data, addr);
      TransactResult(crc, s.(sendCnt := Inc32(s.sendCnt), buffData := f + Zeros(BUFFER_CMD - |f|)), f, time, l);
    }
  }

  /** A unicast frame that passes the checks is counted as sent and goes to
   *  the UART as the command, the destination high byte first and the
   *  payload. */
  lemma UnicastSends(crc: Crc16, s: Snap, data: seq<byte>, addr: u16, time: u16, running: bool, l: Link)
    requires |data| <= MAX_PACK1 && running && s.cfg.nwkState != ZB_NETSTATE_NO && Framed(l)
    ensures var r := Unicast(crc, s, data, addr, time, running, l).0;
      r.sent == (if l.txOk then s.sent + [UnicastFrame(data, addr)] else s.sent) &&
      r.sendCnt == Inc32(s.sendCnt)
  {
    var f := UnicastFrame(data, addr);
    TransactSends(crc, s.(sendCnt := Inc32(s.sendCnt), buffData := f + Zeros(BUFFER_CMD - |f|)), f, time, l);
  }

  /** When no block is processed, the frame's result is counted once and
   *  nothing else is. */
  lemma UnicastCounted(crc: Crc16, s: Snap, data: seq<byte>, addr: u16, time: u16, running: bool, l: Link)
    requires |data| < 0x100 && Framed(l) && (time == 0 || l.reply.None?)
    ensures var r := Unicast(crc, s, data, addr, time, running, l);
      r.0.errs == Bumped(s.errs, r.1.Code())
  {
    if |data| <= MAX_PACK1 && running && s.cfg.nwkState != ZB_NETSTATE_NO {
      var f := UnicastFrame(data, addr);
      TransactSends(crc, s.(sendCnt := Inc32(s.sendCnt), buffData := f + Zeros(BUFFER_CMD - |f|)), f, time, l);
    }
  }

  /** ZBSendPack never reports a time-out: the checks come first and are
   *  counted; a broadcast without an answer is a success. */
  lemma BroadcastChecks(crc: Crc16, s: Snap, data: seq<byte>, running: bool, l: Link)
    requires |data| < 0x100 && Framed(l)
    ensures var r := Broadcast(crc, s, data, running, l);
      r.1 != Timeout &&
      (r.1 == Data <==> |data| > MAX_PACK) &&
      (r.1 == Run <==> |data| <= MAX_PACK && !running) &&
      (r.1 == Network <==> |data| <= MAX_PACK && running && s.cfg.nwkState == ZB_NETSTATE_NO) &&
      (r.1 == Data || r.1 == Run || r.1 == Network ==> r.0 == Counted(s, r.1))
  {
    if |data| <= MAX_PACK && running && s.cfg.nwkState != ZB_NETSTATE_NO {
      var f := BroadcastFrame(data);
      TransactResult(crc, s.(sendCnt := Inc32(s.sendCnt), buffData := f + Zeros(BUFFER_CMD - |f|)), f, TIME_DELAY_ANSWER, l);
    }
  }

  /** A broadcast frame that passes the checks goes to the UART. */
  lemma BroadcastSends(crc: Crc16, s: Snap, data: seq<byte>, running: bool, l: Link)
    requires |data| <= MAX_PACK && running && s.cfg.nwkState != ZB_NETSTATE_NO && Framed(l)
    ensures var r := Broadcast(crc, s, data, running, l).0;
      r.sent == (if l.txOk then s.sent + [BroadcastFrame(data)] else s.sent) &&
      r.sendCnt == Inc32(s.sendCnt)
  {
    var f := BroadcastFrame(data);
    TransactSends(crc, s.(sendCnt := Inc32(s.sendCnt), buffData := f + Zeros(BUFFER_CMD - |f|)), f, TIME_DELAY_ANSWER, l);
  }

  /** A broadcast that draws no answer succeeds and counts no error. */
  lemma BroadcastSilentOk(crc: Crc16, s: Snap, data: seq<byte>, l: Link)
    requires |data| <= MAX_PACK && s.cfg.nwkState != ZB_NETSTATE_NO && Framed(l) && l.txOk && l.reply.None?
    ensures var r := Broadcast(crc, s, data, true, l);
      r.1 == Ok && r.0.errs == s.errs
  {
    var f := BroadcastFrame(data);
    var s1 := s.(sendCnt := Inc32(s.sendCnt), buffData := f + Zeros(BUFFER_CMD - |f|));
    TransactSends(crc, s1, f, TIME_DELAY_ANSWER, l);
    TransactResult(crc, s1, f, TIME_DELAY_ANSWER, l);
  }

  // ---------------------------------------------------------------------
  // Module commands
  // ---------------------------------------------------------------------

  /** Without the RUN line, for a reset and for the two identifiers with no
   *  row, ZBControl exchanges nothing and changes nothing. */
  lemma ControlNoExchange(crc: Crc16, s: Snap, c: ZBCmnd, config: Settings.Config, running: bool, l: Link)
    requires Framed(l)
    ensures !running ==> Control(crc, s, c, config, running, l) == (s, Run)
    ensures running && c.CmdReset? ==> Control(crc, s, c, config, running, l) == (s, Ok)
    ensures running && (c.CmdNo? || c.CmdSendData?) ==> Control(crc, s, c, config, running, l) == (s, Cmd)
  {
    CmdIndexFound(c);
  }

  /** A module command other than SAVE sends its row's four code bytes. */
  lemma ControlCommandSends(crc: Crc16, s: Snap, c: ZBCmnd, config: Settings.Config, running: bool, l: Link)
    requires Framed(l) && running && !(c.CmdNo? || c.CmdReset? || c.CmdSendData? || c.CmdSave?)
    ensures var r := Control(crc, s, c, config, running, l);
      var i := CmdIndex(c);
      i < |ZB_CMD| && ZB_CMD[i].id == c &&
      r.0.sent == (if l.txOk then s.sent + [ZB_CMD[i].code] else s.sent)
  {
    CmdIndexFound(c);
    var i := CmdIndex(c);
    var f := ZB_CMD[i].code;
    TransactSends(crc, s.(buffData := f + Zeros(BUFFER_CMD - |f|)), f, ZB_CMD[i].time, l);
  }

  /** Every module command waits for an answer: a time-out is reported
   *  exactly when nothing came back, and then the result is counted once
   *  and the parameter block is left as it was. */
  lemma ControlCommandTimeout(crc: Crc16, s: Snap, c: ZBCmnd, config: Settings.Config, l: Link)
    requires Framed(l) && l.txOk && !(c.CmdNo? || c.CmdReset? || c.CmdSendData? || c.CmdSave?)
    ensures var r := Control(crc, s, c, config, true, l);
      (r.1 == Timeout <==> l.reply.None?) &&
      (l.reply.None? ==> r.0.errs == Bumped(s.errs, r.1.Code()) && r.0.cfg == s.cfg)
  {
    CmdIndexFound(c);
    var i := CmdIndex(c);
    var f := ZB_CMD[i].code;
    var s1 := s.(buffData := f + Zeros(BUFFER_CMD - |f|));
    TransactSends(crc, s1, f, ZB_CMD[i].time, l);
    TransactResult(crc, s1, f, ZB_CMD[i].time, l);
  }

  /** SAVE sends the SAVE_CONFIG frame around the block prepared from the
   *  settings; the block read back from that frame passes the
   *  reconciliation tests. */
  lemma ControlSaveSends(crc: Crc16, s: Snap, config: Settings.Config, l: Link)
    requires Framed(l) && l.txOk
    ensures var r := Control(crc, s, CmdSave, config, true, l);
      var f := SetCfgFrame(ZB_CMD[1].code, Prepared(s.cfg, config));
      r.0.sent == s.sent + [f] &&
      f[..3] == [0xFD, 0x2E, 0xFE] && f[48] == 0xFF &&
      CfgOf(f[3..48]) == Prepared(s.cfg, config) && !Differs(CfgOf(f[3..48]), config)
  {
    var z := Prepared(s.cfg, config);
    var f := SetCfgFrame(ZB_CMD[1].code, z);
    TransactSends(crc, s.(cfg := z, buffData := f + Zeros(BUFFER_CMD - |f|)), f, ZB_CMD[1].time, l);
    CfgRoundTrip(z);
    PreparedAgrees(s.cfg, config);
  }

  /** The block SetCfg prepares does not depend on the fields the
   *  reconciliation copies. */
  lemma PreparedAfterReconciled(z: ZbConfig, c: Settings.Config)
    ensures Prepared(Reconciled(z, c), c) == Prepared(z, c)
  {
    ReconciledAgrees(z, c);
  }

  // ---------------------------------------------------------------------
  // Start-up reconciliation
  // ---------------------------------------------------------------------

  /** When the block cannot be read, nothing else is done. */
  lemma CheckConfigReadFails(crc: Crc16, s: Snap, config: Settings.Config, run1: bool, run2: bool, run3: bool, l1: Link, l2: Link, l3: Link)
    requires Framed(l1) && Framed(l2) && Framed(l3)
    requires Control(crc, s, CmdRead, config, run1, l1).1 != Ok
    ensures CheckConfig(crc, s, config, run1, run2, run3, l1, l2, l3) == Control(crc, s, CmdRead, config, run1, l1).0
  {
  }

  /** A block read back that already agrees with the settings is left as it
   *  is, and nothing is written. */
  lemma CheckConfigKeeps(crc: Crc16, s: Snap, config: Settings.Config, run1: bool, run2: bool, run3: bool, l1: Link, l2: Link, l3: Link)
    requires Framed(l1) && Framed(l2) && Framed(l3)
    requires var r1 := Control(crc, s, CmdRead, config, run1, l1);
      r1.1 == Ok && !Differs(r1.0.cfg, config)
    ensures CheckConfig(crc, s, config, run1, run2, run3, l1, l2, l3) == Control(crc, s, CmdRead, config, run1, l1).0
  {
    var r1 := Control(crc, s, CmdRead, config, run1, l1);
    ReconciledNoChange(r1.0.cfg, config);
  }

  /** A block read back that differs from the settings is written, in a
   *  SAVE_CONFIG frame whose block agrees with them, and then read again,
   *  provided the module is still running at both exchanges. */
  lemma CheckConfigWrites(crc: Crc16, s: Snap, config: Settings.Config, run1: bool, run2: bool, run3: bool, l1: Link, l2: Link, l3: Link)
    requires Framed(l1) && Framed(l2) && Framed(l3) && run2 && run3 && l2.txOk && l3.txOk
    requires var r1 := Control(crc, s, CmdRead, config, run1, l1);
      r1.1 == Ok && Differs(r1.0.cfg, config)
    ensures var r1 := Control(crc, s, CmdRead, config, run1, l1);
      var z := Prepared(r1.0.cfg, config);
      CheckConfig(crc, s, config, run1, run2, run3, l1, l2, l3).sent ==
        r1.0.sent + [SetCfgFrame(ZB_CMD[1].code, z), ZB_CMD[0].code] &&
      !Differs(z, config)
  {
    var r1 := Control(crc, s, CmdRead, config, run1, l1);
    var s1 := r1.0.(cfg := Reconciled(r1.0.cfg, config));
    PreparedAfterReconciled(r1.0.cfg, config);
    ControlSaveSends(crc, s1, config, l2);
    var r2 := Control(crc, s1, CmdSave, config, run2, l2);
    ControlCommandSends(crc, r2.0, CmdRead, config, run3, l3);
    PreparedAgrees(r1.0.cfg, config);
  }

  /** A module that stops after the read is neither written nor read again:
   *  both later exchanges end at the RUN check and send nothing. */
  lemma CheckConfigStopped(crc: Crc16, s: Snap, config: Settings.Config, run1: bool, l1: Link, l2: Link, l3: Link)
    requires Framed(l1) && Framed(l2) && Framed(l3)
    requires Control(crc, s, CmdRead, config, run1, l1).1 == Ok
    ensures var r1 := Control(crc, s, CmdRead, config, run1, l1);
      CheckConfig(crc, s, config, run1, false, false, l1, l2, l3) == r1.0.(cfg := Reconciled(r1.0.cfg, config))
  {
  }

  // ---------------------------------------------------------------------
  // Acknowledging a log packet
  // ---------------------------------------------------------------------

  /** The log event is consumed, and the acknowledgement target's address
   *  becomes the directory's address for its device number. */
  lemma WlogAckConsumes(crc: Crc16, s: Snap, running: bool, l: Link)
    requires Framed(l)
    ensures var r := WlogAck(crc, s, running, l);
      !r.wlog && r.ack == DataAck(s.ack.numb, AddrOf(s.slots, s.ack.numb))
  {
  }

  /** A device the directory does not know is not acknowledged: nothing is
   *  sent and nothing is counted. */
  lemma WlogAckUnknown(crc: Crc16, s: Snap, running: bool, l: Link)
    requires Framed(l) && (s.ack.numb == 0 || AddrOf(s.slots, s.ack.numb) == 0)
    ensures var r := WlogAck(crc, s, running, l);
      r.sent == s.sent && r.errs == s.errs && r.sendCnt == s.sendCnt
  {
  }

  /** A known device is sent the seven-byte ACK packet carrying its number
   *  and address, in a unicast frame to that address. */
  lemma WlogAckSends(crc: Crc16, s: Snap, running: bool, l: Link)
    requires Framed(l) && running && s.cfg.nwkState != ZB_NETSTATE_NO && l.txOk
    requires s.ack.numb != 0 && AddrOf(s.slots, s.ack.numb) != 0
    ensures var r := WlogAck(crc, s, running, l);
      var a := AddrOf(s.slots, s.ack.numb);
      |r.sent| == |s.sent| + 1 && r.sent[..|s.sent|] == s.sent &&
      var f := r.sent[|s.sent|];
      |f| == 6 + SIZE_ACK && ReadBE16(f, 4) == a &&
      f[6] == PAck.Code() && ReadLE16(f, 7) == s.ack.numb && ReadLE16(f, 9) == a
  {
    var c := CreatePack(crc, s.slots, PAck, s.ack.numb, s.ack.netAddr, 0, Nothing, Nothing, NO_CLOCK);
    CreatedFields(crc, s.slots, PAck, s.ack.numb, s.ack.netAddr, 0, Nothing, Nothing, NO_CLOCK);
    var p := c.pack.value;
    var s1 := s.(ack := s.ack.(netAddr := c.netAddr), wlog := false);
    UnicastSends(crc, s1, p, c.netAddr, TIME_NO_WAIT, running, l);
    var f := UnicastFrame(p, c.netAddr);
    assert f[6..] == p;
    assert f[7] == p[1] && f[8] == p[2] && f[9] == p[3] && f[10] == p[4];
    assert (s.sent + [f])[..|s.sent|] == s.sent;
  }
}
