/**
 * The console commands: the table that maps the first word of a line to
 * its handler, the argument rules of the valve and configuration commands,
 * and the small text helpers of the status commands (the RTOS version
 * number and the thread state names).
 */
module Command {
  import opened Bytes
  import opened CText
  import opened HexText
  import opened Parse
  import Uart
  import opened Settings
  import opened DataLink

  // ---------------------------------------------------------------------
  // Dispatch (ExecCommand)
  // ---------------------------------------------------------------------

  /** The names of the command table, in table order. */
  const COMMANDS: seq<string> := ["time", "date", "dtime", "water", "wtlog", "valve", "stat", "config",
                                  "zb", "dev", "version", "task", "flash", "reset", "?"]

  const IND_PAR_CMND: nat := 0
  const IND_PARAM1: nat := 1
  const IND_PARAM2: nat := 2
  const IND_PARAM3: nat := 3

  /** The value GetParamVal gives for a row of the table below ten. */
  function Param(kept: seq<string>, i: nat): string
  {
    if i < |kept| then Clip(kept[i]) else []
  }

  /** The first table entry at or after `i` whose name equals `name` up to
   *  letter case. */
  function LookupFrom(name: string, i: nat): (r: Option<nat>)
    requires i <= |COMMANDS|
    ensures r.Some? ==> (i <= r.value < |COMMANDS| && StrCaseEq(COMMANDS[r.value], name) &&
      forall j :: i <= j < r.value ==> !StrCaseEq(COMMANDS[j], name))
    ensures r.None? ==> forall j :: i <= j < |COMMANDS| ==> !StrCaseEq(COMMANDS[j], name)
    decreases |COMMANDS| - i
  {
    if i == |COMMANDS| then None
    else if StrCaseEq(COMMANDS[i], name) then Some(i)
    else LookupFrom(name, i + 1)
  }

  /** The handler a command word selects, None for an unknown command. */
  function Lookup(name: string): (r: Option<nat>)
    ensures r.Some? ==> (r.value < |COMMANDS| && StrCaseEq(COMMANDS[r.value], name) &&
      forall j :: 0 <= j < r.value ==> !StrCaseEq(COMMANDS[j], name))
    ensures r.None? <==> forall j :: 0 <= j < |COMMANDS| ==> !StrCaseEq(COMMANDS[j], name)
  {
    LookupFrom(name, 0)
  }

  /** A string in which no character changes under `tolower`. */
  predicate Lowered(a: string)
  {
    forall i :: 0 <= i < |a| ==> ToLower(a[i]) == a[i]
  }

  /** Two such strings are equal up to case only when they are equal. */
  lemma LoweredCaseEq(a: string, b: string)
    requires Lowered(a) && Lowered(b) && StrCaseEq(a, b)
    ensures a == b
  {
    assert forall i :: 0 <= i < |a| ==> a[i] == ToLower(a[i]) == ToLower(b[i]) == b[i];
  }

  /** `strcasecmp` equality is transitive. */
  lemma CaseEqTrans(a: string, b: string, c: string)
    requires StrCaseEq(a, b) && StrCaseEq(c, b)
    ensures StrCaseEq(a, c)
  {
  }

  /** The table names are lower case and pairwise different. */
  lemma CommandsDistinct(i: nat, j: nat)
    requires i < |COMMANDS| && j < |COMMANDS| && COMMANDS[i] == COMMANDS[j]
    ensures i == j
  {
  }

  lemma CommandsLowered(i: nat)
    requires i < |COMMANDS|
    ensures Lowered(COMMANDS[i])
  {
  }

  /** Whatever the word, at most one table entry matches it, so the first
   *  match ExecCommand takes is the only one. */
  lemma LookupUnique(name: string, i: nat)
    requires i < |COMMANDS| && StrCaseEq(COMMANDS[i], name)
    ensures Lookup(name) == Some(i)
  {
    var r := Lookup(name);
    var k := r.value;
    CaseEqTrans(COMMANDS[i], name, COMMANDS[k]);
    CommandsLowered(i);
    CommandsLowered(k);
    LoweredCaseEq(COMMANDS[i], COMMANDS[k]);
    CommandsDistinct(i, k);
  }

  /** Each table name, typed in any case, selects its own entry. */
  lemma LookupOwnName(i: nat)
    requires i < |COMMANDS|
    ensures Lookup(COMMANDS[i]) == Some(i)
  {
    LookupUnique(COMMANDS[i], i);
  }

  /** ExecCommand: parses the line, then looks the first word up in the
   *  table; returns the entry whose handler runs (None: the unknown
   *  command message) and the parameter count passed to it. */
  method ExecCommand(p: Parser, buff: array<char>) returns (cmd: Option<nat>, cntPar: nat)
    requires p.Valid()
    modifies p, p.paramList, buff
    ensures p.Valid() && buff[..] == Stripped(old(buff[..])) && p.kept == Kept(CStr(buff[..]))
    ensures cntPar == |p.kept|
    ensures cmd == Lookup(Param(p.kept, IND_PAR_CMND))
  {
    cntPar := p.ParseCommand(buff);
    var name := p.GetParamVal(IND_PAR_CMND);
    var i := 0;
    while i < |COMMANDS|
      invariant 0 <= i <= |COMMANDS|
      invariant forall j :: 0 <= j < i ==> !StrCaseEq(COMMANDS[j], name.value)
    {
      if StrCaseEq(COMMANDS[i], name.value) {
        LookupUnique(name.value, i);
        return Some(i), cntPar;
      }
      i := i + 1;
    }
    return None, cntPar;
  }

  // ---------------------------------------------------------------------
  // CmndValve
  // ---------------------------------------------------------------------

  /** The drive command an argument asks for: "opn" opens, "cls" closes,
   *  anything else leaves the drive alone. */
  function ModeOf(arg: string): (m: ValveMode)
  {
    var opn := StrCaseEq(arg, "opn");
    var cls := StrCaseEq(arg, "cls");
    if opn && !cls then Open else if !opn && cls then Close else Nothing
  }

  /** Both directions of the choice. */
  lemma ModeOfIff(arg: string)
    ensures ModeOf(arg) == Open <==> StrCaseEq(arg, "opn")
    ensures ModeOf(arg) == Close <==> StrCaseEq(arg, "cls")
    ensures ModeOf(arg) == Nothing <==> !StrCaseEq(arg, "opn") && !StrCaseEq(arg, "cls")
  {
    if StrCaseEq(arg, "opn") {
      assert ToLower(arg[0]) == 'o';
    }
  }

  /** A device number argument: `atoi` stored in a uint16_t. */
  function DevNumb(s: string): u16
  {
    Atoi(s) % 0x1_0000
  }

  /** What the valve command sends: a drive command for one circuit, a
   *  status request, or nothing but the parameter error message. */
  datatype ValveRequest = ValveControl(dev: u16, cold: ValveMode, hot: ValveMode)
                        | ValveStatus(dev: u16)
                        | ValveParamError

  /** CmndValve's decision from the parameter count and the rows 1..3. */
  function ValveRequestOf(cntPar: nat, p1: string, p2: string, p3: string): (r: ValveRequest)
  {
    if cntPar == 4 && StrCaseEq(p2, "cold") then ValveControl(DevNumb(p1), ModeOf(p3), Nothing)
    else if cntPar == 4 && StrCaseEq(p2, "hot") then ValveControl(DevNumb(p1), Nothing, ModeOf(p3))
    else if cntPar == 2 then ValveStatus(DevNumb(p1))
    else ValveParamError
  }

  /** The valve rules: four words with "cold" or "hot" drive that circuit
   *  only, two words ask for the status, anything else is refused. */
  lemma ValveRequestRules(cntPar: nat, p1: string, p2: string, p3: string)
    ensures var r := ValveRequestOf(cntPar, p1, p2, p3);
      (r.ValveControl? <==> cntPar == 4 && (StrCaseEq(p2, "cold") || StrCaseEq(p2, "hot"))) &&
      (r.ValveControl? ==> (r.dev == DevNumb(p1) &&
        (StrCaseEq(p2, "cold") ==> r.cold == ModeOf(p3) && r.hot == Nothing) &&
        (StrCaseEq(p2, "hot") ==> r.hot == ModeOf(p3) && r.cold == Nothing))) &&
      (r.ValveStatus? <==> cntPar == 2) &&
      (r.ValveParamError? <==> cntPar != 2 && !r.ValveControl?)
  {
    if StrCaseEq(p2, "cold") {
      assert |p2| == 4;
    }
  }

  // ---------------------------------------------------------------------
  // CmndConfig
  // ---------------------------------------------------------------------

  const MAX_NETWORK_PANID: u16 := 0xFFFE
  const MAX_NETWORK_ADDR: u16 := 0xFFF8
  const MAX_NETWORK_GROUP: byte := 99
  const MAX_DEVICE_NUMB: u16 := 0xFFFF

  /** The keywords of the setting commands, in the order the code compares them. */
  const KEYWORDS: seq<string> := ["uart", "panid", "netkey", "devnumb", "netgrp", "gate", "save"]

  /** The keywords differ from each other even up to case, so the
   *  successive tests of CmndConfig select at most one setting. */
  lemma OnlyKeyword(p1: string, k: nat)
    requires k < |KEYWORDS| && StrCaseEq(p1, KEYWORDS[k])
    ensures forall j :: 0 <= j < |KEYWORDS| && j != k ==> !StrCaseEq(p1, KEYWORDS[j])
  {
    forall j | 0 <= j < |KEYWORDS| && StrCaseEq(p1, KEYWORDS[j])
      ensures j == k
    {
      CaseEqTrans(KEYWORDS[j], p1, KEYWORDS[k]);
      assert Lowered(KEYWORDS[j]) && Lowered(KEYWORDS[k]);
      LoweredCaseEq(KEYWORDS[j], KEYWORDS[k]);
    }
  }

  /** A hex parameter decoded into the two bytes of the local union,
   *  whose bytes are `stale` before the call (the union is not initialised,
   *  so a two-digit string leaves the high byte as it was), read back as
   *  the little-endian 16-bit member. */
  function Hex16(s: string, stale: u16): (r: (bool, u16))
    requires |s| < 256
  {
    var (ok, w) := HexDecoded(s, 2);
    (ok, ReadLE16(w + LE16(stale)[|w|..], 0))
  }

  /** The outcome of a configuration command: the new settings, whether a
   *  setting changed (the settings are then saved after the listing),
   *  whether the parameter error message was printed, and whether the
   *  command was `config save`, which saves at once. */
  datatype ConfigResult = ConfigResult(config: Config, change: bool, paramError: bool, saveNow: bool)

  /** The result of a command that changes nothing. */
  function Unchanged(c: Config, paramError: bool): (r: ConfigResult)
    ensures r.config == c && !r.change && !r.saveNow && r.paramError == paramError
  {
    ConfigResult(c, false, paramError, false)
  }

  /** `config uart <rate>`: `atol` stored in a uint32_t, accepted when it
   *  is one of the rates of the table. */
  function SetSpeed(c: Config, p2: string): (r: ConfigResult)
    ensures !r.saveNow && (r.change <==> !r.paramError)
    ensures r.config == if r.change then c.(debugSpeed := r.config.debugSpeed) else c
    ensures r.change <==> Atoi(p2) % 0x1_0000_0000 in Uart.SPEEDS
    ensures r.change ==> Uart.UartGetSpeed(r.config.debugSpeed) == Atoi(p2) % 0x1_0000_0000
  {
    match Uart.SpeedId(Atoi(p2) % 0x1_0000_0000)
    case Some(id) => ConfigResult(c.(debugSpeed := id), true, false, false)
    case None => Unchanged(c, true)
  }

  /** `config panid <hex>`: the decoded value is range-checked, then its
   *  bytes are swapped into the setting. */
  function SetPanId(c: Config, p2: string, stale: u16): (r: ConfigResult)
    requires |p2| < 256
    ensures !r.saveNow && (r.change <==> !r.paramError)
    ensures r.config == if r.change then c.(panId := r.config.panId) else c
    ensures r.change <==> Hex16(p2, stale).0 && Hex16(p2, stale).1 != 0xFFFF
    ensures r.change ==> r.config.panId != 0xFFFF && r.config.panId == Swap16(Hex16(p2, stale).1)
  {
    var (ok, v) := Hex16(p2, stale);
    if ok && v <= MAX_NETWORK_PANID then ConfigResult(c.(panId := Swap16(v)), true, false, false)
    else Unchanged(c, true)
  }

  /** `config netkey <hex>`: up to sixteen decoded bytes over the stale
   *  contents of the local key buffer. */
  function SetNetKey(c: Config, p2: string, staleKey: Key): (r: ConfigResult)
    requires |p2| < 256
    ensures !r.saveNow && (r.change <==> !r.paramError)
    ensures r.config == if r.change then c.(key := r.config.key) else c
    ensures r.change <==> HexDecoded(p2, 16).0
    ensures r.change ==> r.config.key[..|HexDecoded(p2, 16).1|] == HexDecoded(p2, 16).1
  {
    var (ok, w) := HexDecoded(p2, 16);
    if ok then ConfigResult(c.(key := w + staleKey[|w|..]), true, false, false)
    else Unchanged(c, true)
  }

  /** `config devnumb <hex>`: any value but 0. */
  function SetDevNumb(c: Config, p2: string, stale: u16): (r: ConfigResult)
    requires |p2| < 256
    ensures !r.saveNow && (r.change <==> !r.paramError)
    ensures r.config == if r.change then c.(devNumb := r.config.devNumb) else c
    ensures r.change <==> Hex16(p2, stale).0 && Hex16(p2, stale).1 != 0
    ensures r.change ==> r.config.devNumb != 0 && r.config.devNumb == Swap16(Hex16(p2, stale).1)
  {
    var (ok, v) := Hex16(p2, stale);
    if ok && v != 0 && v <= MAX_DEVICE_NUMB then ConfigResult(c.(devNumb := Swap16(v)), true, false, false)
    else Unchanged(c, true)
  }

  /** `config netgrp <n>`: `atoi` stored in a uint8_t, accepted up to 99;
   *  a larger group is ignored without a message. */
  function SetGroup(c: Config, p2: string): (r: ConfigResult)
    ensures !r.saveNow && !r.paramError
    ensures r.config == if r.change then c.(group := r.config.group) else c
    ensures r.change <==> Atoi(p2) % 0x100 <= MAX_NETWORK_GROUP
    ensures r.change ==> r.config.group == Atoi(p2) % 0x100 <= MAX_NETWORK_GROUP
  {
    var g: byte := Atoi(p2) % 0x100;
    if g <= MAX_NETWORK_GROUP then ConfigResult(c.(group := g), true, false, false)
    else Unchanged(c, false)
  }

  /** `config gate <hex>`, corrected: the address is range-checked as it
   *  is stored, after the byte swap. */
  function SetGate(c: Config, p2: string, stale: u16): (r: ConfigResult)
    requires |p2| < 256
    ensures !r.saveNow && (r.change <==> !r.paramError)
    ensures r.config == if r.change then c.(addrGate := r.config.addrGate) else c
    ensures r.change <==> Hex16(p2, stale).0 && Swap16(Hex16(p2, stale).1) <= MAX_NETWORK_ADDR
    ensures r.change ==> r.config.addrGate <= MAX_NETWORK_ADDR && r.config.addrGate == Swap16(Hex16(p2, stale).1)
  {
    var (ok, v) := Hex16(p2, stale);
    if ok && Swap16(v) <= MAX_NETWORK_ADDR then ConfigResult(c.(addrGate := Swap16(v)), true, false, false)
    else Unchanged(c, true)
  }

  /** CmndConfig on the settings `c`, for the parameter count and rows 1..2.
   *  `stale` and `staleKey` are the bytes of the uninitialised local
   *  buffers that the hex decoder writes into. */
  function ConfigAfter(c: Config, cntPar: nat, p1: string, p2: string, stale: u16, staleKey: Key): (r: ConfigResult)
    requires |p2| < 256
  {
    if cntPar == 3 && StrCaseEq(p1, "uart") then SetSpeed(c, p2)
    else if cntPar == 3 && StrCaseEq(p1, "panid") then SetPanId(c, p2, stale)
    else if cntPar == 3 && StrCaseEq(p1, "netkey") then SetNetKey(c, p2, staleKey)
    else if cntPar == 3 && StrCaseEq(p1, "devnumb") then SetDevNumb(c, p2, stale)
    else if cntPar == 3 && StrCaseEq(p1, "netgrp") then SetGroup(c, p2)
    else if cntPar == 3 && StrCaseEq(p1, "gate") then SetGate(c, p2, stale)
    else if cntPar == 2 && StrCaseEq(p1, "save") then ConfigResult(c, false, false, true)
    else Unchanged(c, false)
  }

  /** The setting a three-word command changes, by keyword. */
  function SettingOf(k: nat, c: Config, p2: string, stale: u16, staleKey: Key): ConfigResult
    requires k < 6 && |p2| < 256
  {
    match k
    case 0 => SetSpeed(c, p2)
    case 1 => SetPanId(c, p2, stale)
    case 2 => SetNetKey(c, p2, staleKey)
    case 3 => SetDevNumb(c, p2, stale)
    case 4 => SetGroup(c, p2)
    case _ => SetGate(c, p2, stale)
  }

  /** A command word selects its own setting whatever line it is on: three
   *  words change that setting, `config save` saves, anything else changes
   *  nothing and prints no error. */
  lemma ConfigByKeyword(c: Config, cntPar: nat, p1: string, p2: string, stale: u16, staleKey: Key, k: nat)
    requires |p2| < 256 && k < |KEYWORDS| && StrCaseEq(p1, KEYWORDS[k])
    ensures ConfigAfter(c, cntPar, p1, p2, stale, staleKey) ==
      if k < 6 && cntPar == 3 then SettingOf(k, c, p2, stale, staleKey)
      else if k == 6 && cntPar == 2 then ConfigResult(c, false, false, true)
      else Unchanged(c, false)
  {
    OnlyKeyword(p1, k);
    assert StrCaseEq(p1, "uart") == StrCaseEq(p1, KEYWORDS[0]);
    assert StrCaseEq(p1, "panid") == StrCaseEq(p1, KEYWORDS[1]);
    assert StrCaseEq(p1, "netkey") == StrCaseEq(p1, KEYWORDS[2]);
    assert StrCaseEq(p1, "devnumb") == StrCaseEq(p1, KEYWORDS[3]);
    assert StrCaseEq(p1, "netgrp") == StrCaseEq(p1, KEYWORDS[4]);
    assert StrCaseEq(p1, "gate") == StrCaseEq(p1, KEYWORDS[5]);
    assert StrCaseEq(p1, "save") == StrCaseEq(p1, KEYWORDS[6]);
  }

  /** A line whose second word is no keyword leaves the settings alone. */
  lemma ConfigNoKeyword(c: Config, cntPar: nat, p1: string, p2: string, stale: u16, staleKey: Key)
    requires |p2| < 256 && forall k :: 0 <= k < |KEYWORDS| ==> !StrCaseEq(p1, KEYWORDS[k])
    ensures ConfigAfter(c, cntPar, p1, p2, stale, staleKey) == Unchanged(c, false)
  {
    assert !StrCaseEq(p1, KEYWORDS[0]) && !StrCaseEq(p1, KEYWORDS[1]) && !StrCaseEq(p1, KEYWORDS[2]);
    assert !StrCaseEq(p1, KEYWORDS[3]) && !StrCaseEq(p1, KEYWORDS[4]) && !StrCaseEq(p1, KEYWORDS[5]);
    assert !StrCaseEq(p1, KEYWORDS[6]);
  }

  /** The value of four hex digits typed most significant first. */
  function Hex4Value(s: string): u16
    requires |s| == 4 && AllHex(s)
  {
    HexToBin(s[0]).value * 0x1000 + HexToBin(s[1]).value * 0x100 + HexToBin(s[2]).value * 0x10 + HexToBin(s[3]).value
  }

  /** Four typed digits reach the union as the value with its bytes
   *  swapped, whatever it held before. */
  lemma Hex16Four(s: string, stale: u16)
    requires |s| == 4 && AllHex(s)
    ensures Hex16(s, stale) == (true, Swap16(Hex4Value(s)))
  {
    HexDecodedOk(s, 2);
    var w := HexDecoded(s, 2).1;
    assert PairAt(s, 0, w[0]) && PairAt(s, 1, w[1]);
    assert w + LE16(stale)[2..] == w;
    var h := Hex4Value(s);
    assert h == w[0] as int * 0x100 + w[1] as int;
    Compose16(w[0], w[1]);
  }

  /** `config panid XXXX` stores the typed value; only FFFF is refused. */
  lemma PanIdTyped(c: Config, s: string, stale: u16)
    requires |s| == 4 && AllHex(s)
    ensures var r := SetPanId(c, s, stale);
      (r.change <==> Hex4Value(s) != 0xFFFF) && (r.change ==> r.config == c.(panId := Hex4Value(s)))
  {
    var h := Hex4Value(s);
    Hex16Four(s, stale);
    Swap16Involution(h);
    if Swap16(h) == 0xFFFF {
      assert h == Swap16(Swap16(h)) == Swap16(0xFFFF) == 0xFFFF;
    }
  }

  /** `config devnumb XXXX` stores the typed value; only 0 is refused. */
  lemma DevNumbTyped(c: Config, s: string, stale: u16)
    requires |s| == 4 && AllHex(s)
    ensures var r := SetDevNumb(c, s, stale);
      (r.change <==> Hex4Value(s) != 0) && (r.change ==> r.config == c.(devNumb := Hex4Value(s)))
  {
    var h := Hex4Value(s);
    Hex16Four(s, stale);
    Swap16Involution(h);
    if Swap16(h) == 0 {
      assert h == Swap16(Swap16(h)) == Swap16(0) == 0;
    }
  }

  /** `config gate XXXX`, corrected: stored as typed exactly when it is at
   *  most FFF8. */
  lemma GateTyped(c: Config, s: string, stale: u16)
    requires |s| == 4 && AllHex(s)
    ensures var r := SetGate(c, s, stale);
      (r.change <==> Hex4Value(s) <= MAX_NETWORK_ADDR) && (r.change ==> r.config == c.(addrGate := Hex4Value(s)))
  {
    Hex16Four(s, stale);
    Swap16Involution(Hex4Value(s));
  }

  /** The gate check as the code writes it: on the value before the swap. */
  function GateAcceptedAsWritten(s: string, stale: u16): bool
    requires |s| < 256
  {
    var (ok, v) := Hex16(s, stale);
    ok && v <= MAX_NETWORK_ADDR
  }

  /** As written, "FFF9" is accepted and stored as FFF9, beyond the
   *  largest gateway address, while "F9FF", within range, is refused. */
  lemma GateCheckAsWritten(stale: u16)
    ensures GateAcceptedAsWritten("FFF9", stale) && Swap16(Hex16("FFF9", stale).1) == 0xFFF9 > MAX_NETWORK_ADDR
    ensures !GateAcceptedAsWritten("F9FF", stale) && 0xF9FF <= MAX_NETWORK_ADDR
  {
    assert AllHex("FFF9") && AllHex("F9FF");
    Hex16Four("FFF9", stale);
    Hex16Four("F9FF", stale);
    assert Hex4Value("FFF9") == 0xFFF9;
    assert Hex4Value("F9FF") == 0xF9FF;
    Swap16Involution(0xFFF9);
  }

  /** A two-digit value is read with the stale high byte of the union:
   *  `config panid 12` stores 12 in the high byte and the stale byte in
   *  the low one. */
  lemma ShortHexUsesStale(stale: u16)
    ensures Hex16("12", stale) == (true, 0x12 + 0x100 * Hi(stale))
    ensures Swap16(Hex16("12", stale).1) == 0x1200 + Hi(stale)
  {
    HexDecodedOk("12", 2);
    var w := HexDecoded("12", 2).1;
    assert PairAt("12", 0, w[0]);
    assert w == [0x12];
    assert (w + LE16(stale)[1..])[1] == Hi(stale);
  }

  /** `config netkey` with the 32 digits of a key stores that key. */
  lemma NetKeyRoundTrip(c: Config, k: Key, staleKey: Key)
    ensures SetNetKey(c, HexEncode(k), staleKey) == ConfigResult(c.(key := k), true, false, false)
  {
    HexDecodedEncode(k, 16);
    assert k + staleKey[16..] == k;
  }

  /** CmndConfig: applies a setting command to the settings held by the
   *  store, with the code's decoders on the code's buffers, and reports
   *  whether a setting changed, whether the parameter error message was
   *  printed, and whether the command was `config save`. The flash write
   *  itself is ConfigStore.ConfigSave. */
  method CmndConfig(store: ConfigStore, cntPar: nat, p1: string, p2: string, stale: u16, staleKey: Key)
    returns (change: bool, paramError: bool, saveNow: bool)
    requires |p2| < 256
    modifies store
    ensures ConfigResult(store.config, change, paramError, saveNow) ==
      ConfigAfter(old(store.config), cntPar, p1, p2, stale, staleKey)
    ensures store.flashRead == old(store.flashRead) && store.resetFlg == old(store.resetFlg)
  {
    change, paramError, saveNow := false, false, false;
    var value := new byte[2];
    value[0], value[1] := Lo(stale), Hi(stale);
    assert value[..] == LE16(stale);
    if cntPar == 3 && StrCaseEq(p1, "uart") {
      var baud: u32 := Atoi(p2) % 0x1_0000_0000;
      var ok, speed := Uart.CheckBaudRate(baud);
      if ok {
        Uart.SpeedsDistinct(speed, Uart.SpeedId(baud).value);
        change := true;
        store.config := store.config.(debugSpeed := speed);
      } else {
        paramError := true;
      }
    } else if cntPar == 3 && StrCaseEq(p1, "panid") {
      var ok := StrHexToBin(p2, value);
      var v := ReadLE16(value[..], 0);
      if ok && v <= MAX_NETWORK_PANID {
        change := true;
        store.config := store.config.(panId := Swap16(v));
      } else {
        paramError := true;
      }
    } else if cntPar == 3 && StrCaseEq(p1, "netkey") {
      var bin := new byte[16](i requires 0 <= i < 16 => staleKey[i]);
      assert bin[..] == staleKey;
      var ok := StrHexToBin(p2, bin);
      if ok {
        change := true;
        store.config := store.config.(key := bin[..]);
      } else {
        paramError := true;
      }
    } else if cntPar == 3 && StrCaseEq(p1, "devnumb") {
      var ok := StrHexToBin(p2, value);
      var v := ReadLE16(value[..], 0);
      if ok && v != 0 && v <= MAX_DEVICE_NUMB {
        change := true;
        store.config := store.config.(devNumb := Swap16(v));
      } else {
        paramError := true;
      }
    } else if cntPar == 3 && StrCaseEq(p1, "netgrp") {
      var g: byte := Atoi(p2) % 0x100;
      if g <= MAX_NETWORK_GROUP {
        change := true;
        store.config := store.config.(group := g);
      }
    } else if cntPar == 3 && StrCaseEq(p1, "gate") {
      var ok := StrHexToBin(p2, value);
      var v := ReadLE16(value[..], 0);
      if ok && Swap16(v) <= MAX_NETWORK_ADDR {
        change := true;
        store.config := store.config.(addrGate := Swap16(v));
      } else {
        paramError := true;
      }
    } else if cntPar == 2 && StrCaseEq(p1, "save") {
      saveNow := true;
    }
  }

  // ---------------------------------------------------------------------
  // VersionRtos and TaskStateDesc
  // ---------------------------------------------------------------------

  /** A version number `mmnnnrrrr` in decimal: major, minor, revision. */
  datatype Version = Version(major: nat, minor: nat, rev: nat)

  /** VersionRtos's decomposition. */
  function VersionParts(v: u32): (r: Version)
    ensures v == r.major * 10_000_000 + r.minor * 10_000 + r.rev
    ensures r.minor < 1000 && r.rev < 10_000 && r.major <= 429
  {
    Version(v / 10_000 / 1000, v / 10_000 % 1000, v % 10_000)
  }

  /** The decomposition is the only one with those digit counts. */
  lemma VersionUnique(v: u32, d: Version)
    requires d.minor < 1000 && d.rev < 10_000
    requires v == d.major * 10_000_000 + d.minor * 10_000 + d.rev
    ensures VersionParts(v) == d
  {
    var r := VersionParts(v);
    assert (r.major * 1000 + r.minor) * 10_000 + r.rev == (d.major * 1000 + d.minor) * 10_000 + d.rev;
    assert r.rev == d.rev;
    assert r.major * 1000 + r.minor == d.major * 1000 + d.minor;
  }

  /** `%u`: the decimal digits of n, without leading zeros. */
  function DecText(n: nat): (r: string)
    ensures 1 <= |r| && forall i :: 0 <= i < |r| ==> IsDigit(r[i])
  {
    if n < 10 then [('0' as int + n) as char] else DecText(n / 10) + [('0' as int + n % 10) as char]
  }

  /** The digits read back as the number. */
  lemma {:induction false} DecTextValue(n: nat)
    ensures DecValue(DecText(n)) == n
  {
    var r := DecText(n);
    if n < 10 {
      assert r[..0] == [];
    } else {
      DecTextValue(n / 10);
      assert r[..|r| - 1] == DecText(n / 10);
    }
  }

  /** The number of digits of a number below 10^k is at most k. */
  lemma {:induction false} DecTextLen(n: nat, k: nat, p: nat)
    requires 1 <= k && p >= 1 && n < p && p == Pow10(k)
    ensures |DecText(n)| <= k
    decreases k
  {
    assert Pow10(1) == 10;
    if n >= 10 {
      assert n / 10 < Pow10(k - 1);
      DecTextLen(n / 10, k - 1, Pow10(k - 1));
    }
  }

  function Pow10(k: nat): (r: nat)
    ensures r >= 1
  {
    if k == 0 then 1 else 10 * Pow10(k - 1)
  }

  /** The text `%u.%u.%u` VersionRtos writes. */
  function VersionText(v: u32): string
  {
    var r := VersionParts(v);
    DecText(r.major) + "." + DecText(r.minor) + "." + DecText(r.rev)
  }

  /** It fits the 32-character buffer of the version command, NUL included. */
  lemma VersionTextFits(v: u32)
    ensures |VersionText(v)| <= 12 < 32
  {
    var r := VersionParts(v);
    assert Pow10(3) == 1000 && Pow10(4) == 10_000;
    DecTextLen(r.major, 3, 1000);
    DecTextLen(r.minor, 3, 1000);
    DecTextLen(r.rev, 4, 10_000);
  }

  /** The thread state names. */
  const STATE_NAMES: seq<string> := ["Inactive", "Ready", "Running", "Blocked", "Terminated", "Error"]

  /** osThreadState_t codes: Inactive 0 .. Terminated 4, Error -1. */
  const OS_THREAD_ERROR: int := -1

  /** TaskStateDesc: the name of a thread state; None (NULL) for any other
   *  code. */
  function TaskStateDesc(state: int): (r: Option<string>)
    ensures r.Some? <==> state == OS_THREAD_ERROR || 0 <= state <= 4
    ensures r.Some? ==> r.value == STATE_NAMES[if state == OS_THREAD_ERROR then 5 else state]
  {
    if 0 <= state <= 4 then Some(STATE_NAMES[state])
    else if state == OS_THREAD_ERROR then Some(STATE_NAMES[5])
    else None
  }

  /** Different states get different names. */
  lemma TaskStateDescInjective(a: int, b: int)
    requires TaskStateDesc(a).Some? && TaskStateDesc(a) == TaskStateDesc(b)
    ensures a == b
  {
  }
}
