/**
 * The application packets carried over the radio network. Devices send
 * state, data, log, valve and leak packets; the gateway sends clock
 * synchronisation, requests, valve control and log acknowledgements.
 * Every packet starts with a one-byte tag and ends with a CRC-16 over the
 * preceding bytes; inbound packets also carry a trailing copy of the
 * sender's network address, high byte first, that the CRC does not cover.
 * Multi-byte fields are little-endian.
 */
module DataLink {
  import opened Bytes
  import opened Calendar
  import opened Counters
  import opened Directory

  /** ZBTypePack, in declaration order (codes 0..11). */
  datatype PackType =
    | PUndef | PState | PData | PWlog | PValve | PLeaks
    | PSyncDtime | PReqState | PReqValve | PReqData | PCtrlValve | PAck
  {
    function Code(): byte
    {
      match this
      case PUndef => 0 case PState => 1 case PData => 2 case PWlog => 3
      case PValve => 4 case PLeaks => 5 case PSyncDtime => 6 case PReqState => 7
      case PReqValve => 8 case PReqData => 9 case PCtrlValve => 10 case PAck => 11
    }

    /** The kinds a device sends and the gateway checks. */
    predicate Inbound()
    {
      PState? || PData? || PWlog? || PValve? || PLeaks?
    }
  }

  /** The kind a tag byte names; a byte past the enumeration names none. */
  function PackOf(b: byte): (k: PackType)
    ensures b < 12 ==> k.Code() == b
    ensures b >= 12 ==> k == PUndef
  {
    if b == 1 then PState else if b == 2 then PData else if b == 3 then PWlog
    else if b == 4 then PValve else if b == 5 then PLeaks else if b == 6 then PSyncDtime
    else if b == 7 then PReqState else if b == 8 then PReqValve else if b == 9 then PReqData
    else if b == 10 then PCtrlValve else if b == 11 then PAck else PUndef
  }

  /** ValveCtrlMode (codes 0..3). */
  datatype ValveMode = Nothing | Open | Close | Stop
  {
    function Code(): byte
    {
      match this case Nothing => 0 case Open => 1 case Close => 2 case Stop => 3
    }
  }

  /** DATA_ACK: who a log acknowledgement goes to. */
  datatype DataAck = DataAck(numb: u16, netAddr: u16)

  /** Bytes between the header (tag, number, address) and the CRC of each
   *  inbound kind: two dates and a reset source for STATE; a date, three
   *  32-bit counters, two 16-bit pressures, a flag byte and a valve byte
   *  for DATA and WLOG; one byte for VALVE and LEAKS. */
  function BodyLen(k: PackType): nat
    requires k.Inbound()
  {
    match k
    case PState => 7 + 7 + 1
    case PData => 7 + 12 + 4 + 1 + 1
    case PWlog => 7 + 12 + 4 + 1 + 1
    case PValve => 1
    case PLeaks => 1
  }

  /** The sizes of the packed structures. */
  const SIZE_STATE: nat := 24
  const SIZE_DATA: nat := 34
  const SIZE_VALVE: nat := 10
  const SIZE_LEAKS: nat := 10
  const SIZE_RTC: nat := 10
  const SIZE_REQ: nat := 8
  const SIZE_CTRL: nat := 9
  const SIZE_ACK: nat := 7

  // ---------------------------------------------------------------------
  // Inbound packets
  // ---------------------------------------------------------------------

  /** CheckPack1: the size of the inbound kind the first byte names, which
   *  is the header, the body, the CRC and the sender address; 0 for any
   *  other byte, the outbound kinds included. */
  function CheckPack1(data: seq<byte>): (n: nat)
    requires |data| >= 1
    ensures PackOf(data[0]).Inbound() ==> n == 5 + BodyLen(PackOf(data[0])) + 4
    ensures !PackOf(data[0]).Inbound() <==> n == 0
  {
    var t := data[0];
    if t == PState.Code() then SIZE_STATE
    else if t == PData.Code() || t == PWlog.Code() then SIZE_DATA
    else if t == PValve.Code() then SIZE_VALVE
    else if t == PLeaks.Code() then SIZE_LEAKS
    else 0
  }

  /** The sizes CheckPack1 gives, kind by kind. */
  lemma CheckPack1Sizes(data: seq<byte>)
    requires |data| >= 1
    ensures data[0] == 1 ==> CheckPack1(data) == SIZE_STATE
    ensures data[0] == 2 || data[0] == 3 ==> CheckPack1(data) == SIZE_DATA
    ensures data[0] == 4 ==> CheckPack1(data) == SIZE_VALVE
    ensures data[0] == 5 ==> CheckPack1(data) == SIZE_LEAKS
    ensures data[0] == 0 || data[0] >= 6 ==> CheckPack1(data) == 0
  {
  }

  /** What the checks of CheckPack2 conclude about a packet. */
  datatype Verdict = Unmatched | BadCrc | BadAddr | Accepted(kind: PackType, numb: u16, addr: u16)

  /** The verdict on `len` bytes at `data`: the tag and length must name an
   *  inbound kind, then the stored CRC must match the CRC of all but the
   *  last four bytes, then the big-endian sender address must equal the
   *  device address field. */
  function Verify(crc: Crc16, data: seq<byte>, len: nat): (v: Verdict)
    requires |data| >= 1 && len <= |data|
    ensures v.Accepted? ==> v.kind.Inbound() && v.kind.Code() == data[0]
  {
    var n := CheckPack1(data);
    if n == 0 || len != n then Unmatched
    else if crc(data[..n - 4]) != ReadLE16(data, n - 4) then BadCrc
    else if ReadLE16(data, 3) != ReadBE16(data, n - 2) then BadAddr
    else Accepted(PackOf(data[0]), ReadLE16(data, 1), ReadLE16(data, 3))
  }

  /** A well-formed inbound packet, as a device builds it: the reference
   *  definition the checks are proved against. */
  function Seal(crc: Crc16, kind: PackType, numb: u16, addr: u16, body: seq<byte>): (p: seq<byte>)
    requires kind.Inbound() && |body| == BodyLen(kind)
    ensures |p| == 9 + BodyLen(kind)
  {
    var head := [kind.Code()] + LE16(numb) + LE16(addr) + body;
    head + LE16(crc(head)) + [Hi(addr), Lo(addr)]
  }

  /** A sealed packet, whatever follows it in the buffer, is accepted with
   *  its kind, number and address. */
  lemma SealAccepted(crc: Crc16, kind: PackType, numb: u16, addr: u16, body: seq<byte>, rest: seq<byte>)
    requires kind.Inbound() && |body| == BodyLen(kind)
    ensures var p := Seal(crc, kind, numb, addr, body);
      Verify(crc, p + rest, |p|) == Accepted(kind, numb, addr)
  {
    var p := Seal(crc, kind, numb, addr, body);
    var d := p + rest;
    var head := [kind.Code()] + LE16(numb) + LE16(addr) + body;
    var n := |p|;
    assert PackOf(d[0]) == kind;
    assert CheckPack1(d) == n;
    assert d[..n - 4] == head;
    assert d[n - 4] == Lo(crc(head)) && d[n - 3] == Hi(crc(head));
    assert d[1] == Lo(numb) && d[2] == Hi(numb);
    assert d[3] == Lo(addr) && d[4] == Hi(addr);
    assert d[n - 2] == Hi(addr) && d[n - 1] == Lo(addr);
  }

  /** Conversely, every accepted packet is a sealed one: nothing but the
   *  body is left unchecked. */
  lemma AcceptedIsSealed(crc: Crc16, data: seq<byte>, len: nat)
    requires |data| >= 1 && len <= |data| && Verify(crc, data, len).Accepted?
    ensures var v := Verify(crc, data, len);
      len == 9 + BodyLen(v.kind) &&
      data[..len] == Seal(crc, v.kind, v.numb, v.addr, data[5..len - 4])
  {
    var v := Verify(crc, data, len);
    var p := Seal(crc, v.kind, v.numb, v.addr, data[5..len - 4]);
    var head := [v.kind.Code()] + LE16(v.numb) + LE16(v.addr) + data[5..len - 4];
    assert head == data[..len - 4];
    assert data[..len] == data[..len - 4] + [data[len - 4], data[len - 3]] + [data[len - 2], data[len - 1]];
    assert v.addr == ReadBE16(data, len - 2);
  }

  /** The byte swap of a little-endian read is the big-endian read, which
   *  is how `__REVSH` recovers the sender address. */
  lemma SwapReadsBigEndian(s: seq<byte>, i: nat)
    requires i + 2 <= |s|
    ensures Swap16(ReadLE16(s, i)) == ReadBE16(s, i)
  {
  }

  // ---------------------------------------------------------------------
  // Outbound packets
  // ---------------------------------------------------------------------

  /** DATE_TIME in memory: day, month, year (little-endian), hour, minute, second. */
  function DateBytes(dt: DateTime): (r: seq<byte>)
    ensures |r| == 7
  {
    [dt.day, dt.month] + LE16(dt.year) + [dt.hour, dt.min, dt.sec]
  }

  /** A byte string with its CRC appended, little-endian. */
  function WithCrc(crc: Crc16, head: seq<byte>): (p: seq<byte>)
    ensures |p| == |head| + 2 && p[..|head|] == head
    ensures ReadLE16(p, |head|) == crc(head)
  {
    ReadLE16Inverse(crc(head), head, []);
    head + LE16(crc(head))
  }

  /** What CreatePack hands back: the packet (NULL as None, the length as
   *  the sequence's) and the new value of `*net_addr`. */
  datatype Created = Created(pack: Option<seq<byte>>, netAddr: u16)

  /** The kinds addressed to one device through the directory. */
  predicate Addressed(k: PackType)
  {
    k.PReqState? || k.PReqValve? || k.PReqData? || k.PCtrlValve? || k.PAck?
  }

  /** CreatePack. `t` is the directory, `netAddr` the caller's variable it
   *  may overwrite and `now` the clock reading for a synchronisation. */
  function CreatePack(crc: Crc16, t: seq<Slot>, kind: PackType, numb: u16, netAddr: u16,
                      countLog: byte, cold: ValveMode, hot: ValveMode, now: DateTime): (r: Created)
    ensures kind.PSyncDtime? ==> r.netAddr == 0 && r.pack.Some?
    ensures Addressed(kind) ==> r.netAddr == AddrOf(t, numb)
    ensures Addressed(kind) ==> (r.pack.None? <==> numb == 0 || AddrOf(t, numb) == 0)
    ensures !kind.PSyncDtime? && !Addressed(kind) ==> r == Created(None, netAddr)
    ensures r.pack.Some? ==> var p := r.pack.value;
      |p| >= 3 && p[0] == kind.Code() && ReadLE16(p, |p| - 2) == crc(p[..|p| - 2])
  {
    match kind
    case PSyncDtime =>
      Created(Some(WithCrc(crc, [kind.Code()] + DateBytes(now))), 0)
    case PReqState | PReqValve | PReqData | PCtrlValve | PAck =>
      var addr := AddrOf(t, numb);
      if addr == 0 || numb == 0 then Created(None, addr)
      else
        var head := [kind.Code()] + LE16(numb) + LE16(addr);
        var body :=
          if kind.PReqData? then [countLog]
          else if kind.PCtrlValve? then [cold.Code(), hot.Code()]
          else if kind.PAck? then []
          else [0];
        Created(Some(WithCrc(crc, head + body)), addr)
    case _ => Created(None, netAddr)
  }

  /** The fields a device reads from an addressed packet: number, address,
   *  the log count (only a log request carries one), the two valve
   *  commands, and the sizes of the packed structures. */
  lemma CreatedFields(crc: Crc16, t: seq<Slot>, kind: PackType, numb: u16, netAddr: u16,
                      countLog: byte, cold: ValveMode, hot: ValveMode, now: DateTime)
    requires Addressed(kind)
    requires CreatePack(crc, t, kind, numb, netAddr, countLog, cold, hot, now).pack.Some?
    ensures var r := CreatePack(crc, t, kind, numb, netAddr, countLog, cold, hot, now);
      var p := r.pack.value;
      |p| == (if kind.PCtrlValve? then SIZE_CTRL else if kind.PAck? then SIZE_ACK else SIZE_REQ) &&
      ReadLE16(p, 1) == numb && ReadLE16(p, 3) == r.netAddr != 0 &&
      (kind.PReqState? || kind.PReqValve? || kind.PReqData? ==> p[5] == if kind.PReqData? then countLog else 0) &&
      (kind.PCtrlValve? ==> p[5] == cold.Code() && p[6] == hot.Code())
  {
    var r := CreatePack(crc, t, kind, numb, netAddr, countLog, cold, hot, now);
    var p := r.pack.value;
    var head := [kind.Code()] + LE16(numb) + LE16(r.netAddr);
    assert p[..5] == head;
    ReadLE16Inverse(numb, [kind.Code()], LE16(r.netAddr) + p[5..]);
    assert p == [kind.Code()] + LE16(numb) + (LE16(r.netAddr) + p[5..]);
    ReadLE16Inverse(r.netAddr, [kind.Code()] + LE16(numb), p[5..]);
    assert p == [kind.Code()] + LE16(numb) + LE16(r.netAddr) + p[5..];
  }

  /** A synchronisation packet carries the clock reading after its tag. */
  lemma CreatedSync(crc: Crc16, t: seq<Slot>, numb: u16, netAddr: u16,
                    countLog: byte, cold: ValveMode, hot: ValveMode, now: DateTime)
    ensures var p := CreatePack(crc, t, PSyncDtime, numb, netAddr, countLog, cold, hot, now).pack.value;
      |p| == SIZE_RTC && p[1..8] == DateBytes(now)
  {
  }

  /** No packet the gateway builds passes its own inbound checks: there is
   *  no build-then-check round trip. */
  lemma OutboundNotInbound(crc: Crc16, t: seq<Slot>, kind: PackType, numb: u16, netAddr: u16,
                           countLog: byte, cold: ValveMode, hot: ValveMode, now: DateTime)
    requires CreatePack(crc, t, kind, numb, netAddr, countLog, cold, hot, now).pack.Some?
    ensures var p := CreatePack(crc, t, kind, numb, netAddr, countLog, cold, hot, now).pack.value;
      CheckPack1(p) == 0 && Verify(crc, p, |p|) == Unmatched
  {
  }

  // ---------------------------------------------------------------------
  // CheckPack2
  // ---------------------------------------------------------------------

  /** CheckPack2 on `len` bytes at `data`. An unmatched packet changes
   *  nothing; a CRC failure or an address failure counts once in its
   *  counter; an accepted packet upserts the directory. The acknowledgement
   *  target is cleared on every call and set only for an accepted log
   *  packet. */
  method CheckPack2(crc: Crc16, dir: DevList, cnt: ErrorCounters, data: seq<byte>, len: byte)
    returns (t: PackType, ack: DataAck)
    requires dir.Valid() && cnt.Valid()
    requires |data| >= 1 && len as int <= |data|
    modifies dir.slots, cnt.errorCnt
    ensures var v := Verify(crc, data, len as int);
      t == (if v.Accepted? then v.kind else PUndef) &&
      dir.slots[..] == (if v.Accepted? then Upserted(old(dir.slots[..]), v.numb, v.addr) else old(dir.slots[..])) &&
      cnt.errorCnt[..] == (if v.BadCrc? then Bumped(old(cnt.errorCnt[..]), Crc.Code())
                           else if v.BadAddr? then Bumped(old(cnt.errorCnt[..]), Addr.Code())
                           else old(cnt.errorCnt[..])) &&
      ack == (if v.Accepted? && v.kind.PWlog? then DataAck(v.numb, v.addr) else DataAck(0, 0))
  {
    ack := DataAck(0, 0);
    var n := CheckPack1(data);
    if n == 0 || len as int != n {
      return PUndef, ack;
    }
    var sum := crc(data[..n - 4]);
    if ReadLE16(data, n - 4) != sum {
      cnt.ZBIncError(Crc.Code());
      return PUndef, ack;
    }
    var addrSend := Swap16(ReadLE16(data, n - 2));
    SwapReadsBigEndian(data, n - 2);
    var numb, addr := ReadLE16(data, 1), ReadLE16(data, 3);
    if addr != addrSend {
      cnt.ZBIncError(Addr.Code());
      return PUndef, ack;
    }
    var _ := dir.CheckDevList(numb, addr);
    if data[0] == PWlog.Code() {
      ack := DataAck(numb, addr);
    }
    t := PackOf(data[0]);
  }
}
