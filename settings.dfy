/**
 * The controller's own settings and their copy in the last flash page: a
 * 128-byte block of the packed settings, zero padding and a CRC-16 over the
 * first 126 bytes. At start-up a block whose CRC does not match is replaced
 * by built-in defaults; a save writes the block back and reports the first
 * step of the flash sequence that failed. The outcomes of the flash
 * controller (the page contents read, the status of each step) are inputs.
 */
module Settings {
  import opened Bytes
  import Uart

  /** The packed CONFIG record, 24 bytes. */
  type Key = k: seq<byte> | |k| == 16 witness seq(16, _ => 0)

  datatype Config = Config(debugSpeed: byte, panId: u16, group: byte, key: Key, devNumb: u16, addrGate: u16)

  const CONFIG_SIZE: nat := 24
  const DATA_SIZE: nat := 126
  const FLASH_SIZE: nat := 128
  const FLASH_WORDS: nat := 32

  /** The built-in encryption key. */
  const DEFAULT_KEY: Key := [0x11, 0x13, 0x15, 0x17, 0x19, 0x1B, 0x1D, 0x1F, 0x10, 0x12, 0x14, 0x16, 0x18, 0x1A, 0x1C, 0x1D]

  /** The settings used when the flash block is corrupt. */
  const DEFAULTS: Config := Config(Uart.UART_SPEED_115200, 0x0001, 1, DEFAULT_KEY, 0x0001, 0x0000)

  /** The record in memory order. */
  function ConfigBytes(c: Config): (r: seq<byte>)
    ensures |r| == CONFIG_SIZE
  {
    [c.debugSpeed] + LE16(c.panId) + [c.group] + c.key + LE16(c.devNumb) + LE16(c.addrGate)
  }

  /** The record read back from the first 24 bytes of a block (memcpy). */
  function ConfigOf(b: seq<byte>): (c: Config)
    requires |b| >= CONFIG_SIZE
  {
    Config(b[0], ReadLE16(b, 1), b[3], b[4..20], ReadLE16(b, 20), ReadLE16(b, 22))
  }

  /** Writing the record and reading it back yields the same settings,
   *  whatever follows it in the block. */
  lemma ConfigRoundTrip(c: Config, rest: seq<byte>)
    ensures ConfigOf(ConfigBytes(c) + rest) == c
  {
    var b := ConfigBytes(c) + rest;
    assert b[1..3] == LE16(c.panId);
    assert b[4..20] == c.key;
    assert b[20..22] == LE16(c.devNumb);
    assert b[22..24] == LE16(c.addrGate);
  }

  /** Reading 24 bytes and writing them back yields the same bytes. */
  lemma BytesRoundTrip(b: seq<byte>)
    requires |b| >= CONFIG_SIZE
    ensures ConfigBytes(ConfigOf(b)) == b[..CONFIG_SIZE]
  {
    var r := ConfigBytes(ConfigOf(b));
    forall i | 0 <= i < CONFIG_SIZE
      ensures r[i] == b[i]
    {
    }
  }

  /** The block ConfigSave prepares: record, zero padding, CRC. */
  function Image(crc: Crc16, c: Config): (r: seq<byte>)
    ensures |r| == FLASH_SIZE
    ensures r[..CONFIG_SIZE] == ConfigBytes(c)
  {
    var d := ConfigBytes(c) + Zeros(DATA_SIZE - CONFIG_SIZE);
    d + LE16(crc(d))
  }

  /** The ConfigInit decision over a block read from flash: the settings and
   *  whether they came from the block (SUCCESS) or are the defaults (ERROR). */
  function Loaded(crc: Crc16, page: seq<byte>): (r: (Config, bool))
    requires |page| == FLASH_SIZE
    ensures r.1 <==> crc(page[..DATA_SIZE]) == ReadLE16(page, DATA_SIZE)
    ensures !r.1 ==> r.0 == DEFAULTS
    ensures r.1 ==> ConfigBytes(r.0) == page[..CONFIG_SIZE]
  {
    if crc(page[..DATA_SIZE]) != ReadLE16(page, DATA_SIZE) then (DEFAULTS, false)
    else
      BytesRoundTrip(page);
      (ConfigOf(page[..CONFIG_SIZE]), true)
  }

  /** A block written by a save loads back as the saved settings. */
  lemma SaveThenLoad(crc: Crc16, c: Config)
    ensures Loaded(crc, Image(crc, c)) == (c, true)
  {
    var d := ConfigBytes(c) + Zeros(DATA_SIZE - CONFIG_SIZE);
    var img := Image(crc, c);
    assert img[..DATA_SIZE] == d;
    ReadLE16Inverse(crc(d), d, []);
    assert d + LE16(crc(d)) + [] == img;
    ConfigRoundTrip(c, []);
    assert img[..CONFIG_SIZE] + [] == ConfigBytes(c);
  }

  // ---------------------------------------------------------------------
  // Save result codes
  // ---------------------------------------------------------------------

  /** HAL_StatusTypeDef: OK, ERROR, BUSY, TIMEOUT. */
  type HalStatus = s: byte | s < 4

  const HAL_OK: HalStatus := 0

  /** The masks of the four steps: unlock, erase, program, lock. */
  const ERR_FLASH_UNLOCK: byte := 0x10
  const ERR_FLASH_ERASE: byte := 0x20
  const ERR_FLASH_PROGRAMM: byte := 0x40
  const ERR_FLASH_LOCK: byte := 0x80

  /** A failing step's mask OR'd with its status (the status is below 16). */
  function Failed(mask: byte, status: HalStatus): (r: byte)
    requires mask % 16 == 0
    ensures r % 16 == status && r / 16 == mask / 16
  {
    mask + status
  }

  /** The first program status that is not OK, or |program| when all are. */
  function FirstFailure(program: seq<HalStatus>): (k: nat)
    ensures k <= |program|
    ensures forall j :: 0 <= j < k ==> program[j] == HAL_OK
    ensures k < |program| ==> program[k] != HAL_OK
  {
    if program == [] then 0 else if program[0] != HAL_OK then 0 else 1 + FirstFailure(program[1..])
  }

  /** The code ConfigSave returns for the statuses of its steps: the first
   *  failing step's mask with that step's status, or 0 when all succeed. */
  function SaveCode(unlock: HalStatus, erase: HalStatus, program: seq<HalStatus>, lock: HalStatus): (r: byte)
    ensures r == 0 <==> (unlock == HAL_OK && erase == HAL_OK && lock == HAL_OK &&
      forall j :: 0 <= j < |program| ==> program[j] == HAL_OK)
    ensures r % 16 < 4
  {
    var k := FirstFailure(program);
    if unlock != HAL_OK then Failed(ERR_FLASH_UNLOCK, unlock)
    else if erase != HAL_OK then Failed(ERR_FLASH_ERASE, erase)
    else if k < |program| then Failed(ERR_FLASH_PROGRAMM, program[k])
    else if lock != HAL_OK then Failed(ERR_FLASH_LOCK, lock)
    else 0
  }

  // ---------------------------------------------------------------------
  // Texts
  // ---------------------------------------------------------------------

  const READ_ERROR: seq<string> := ["DEFAULT", "OK"]
  const MASK_ERROR: seq<string> := ["UNLOCK-", "ERASE-", "PROGRAM-", "LOCK-"]
  /** The first entry is spelled in Cyrillic letters. */
  const FLASH_ERROR: seq<string> := ["\U{041E}\U{041A}", "ERROR", "BUSY", "TIMEOUT"]
  const RESET_DESC: seq<string> := ["PINRST ", "PORRST ", "SFTRST ", "IWDGRST ", "WWDGRST ", "LPWRRST "]

  /** Bit i of x. */
  predicate Bit(x: nat, i: nat)
  {
    (x / Pow2(i)) % 2 == 1
  }

  function Pow2(i: nat): (r: nat)
    ensures r >= 1
  {
    if i == 0 then 1 else 2 * Pow2(i - 1)
  }

  /** The source named by a code's high nibble: the highest set bit among
   *  the four step masks, none when that nibble is zero. */
  function StepName(e: byte): (r: string)
  {
    if Bit(e, 7) then MASK_ERROR[3]
    else if Bit(e, 6) then MASK_ERROR[2]
    else if Bit(e, 5) then MASK_ERROR[1]
    else if Bit(e, 4) then MASK_ERROR[0]
    else ""
  }

  /** The text ConfigError gives for a code. */
  function ErrorText(e: byte): string
    requires e % 16 < 4
  {
    if e == 0 then FLASH_ERROR[0] else StepName(e) + FLASH_ERROR[e % 16]
  }

  lemma BitsOfFailed(mask: byte, status: HalStatus)
    requires mask in {ERR_FLASH_UNLOCK, ERR_FLASH_ERASE, ERR_FLASH_PROGRAMM, ERR_FLASH_LOCK}
    ensures Bit(Failed(mask, status), 7) <==> mask == ERR_FLASH_LOCK
    ensures Bit(Failed(mask, status), 6) <==> mask == ERR_FLASH_PROGRAMM
    ensures Bit(Failed(mask, status), 5) <==> mask == ERR_FLASH_ERASE
    ensures Bit(Failed(mask, status), 4) <==> mask == ERR_FLASH_UNLOCK
  {
    assert Pow2(4) == 16 && Pow2(5) == 32 && Pow2(6) == 64 && Pow2(7) == 128;
  }

  /** The text of a save result names the step that failed and its status,
   *  so a failed save is never reported as a success. */
  lemma SaveCodeText(unlock: HalStatus, erase: HalStatus, program: seq<HalStatus>, lock: HalStatus)
    ensures var e := SaveCode(unlock, erase, program, lock);
      var k := FirstFailure(program);
      ErrorText(e) ==
        if unlock != HAL_OK then MASK_ERROR[0] + FLASH_ERROR[unlock]
        else if erase != HAL_OK then MASK_ERROR[1] + FLASH_ERROR[erase]
        else if k < |program| then MASK_ERROR[2] + FLASH_ERROR[program[k]]
        else if lock != HAL_OK then MASK_ERROR[3] + FLASH_ERROR[lock]
        else FLASH_ERROR[0]
  {
    var k := FirstFailure(program);
    if unlock != HAL_OK {
      BitsOfFailed(ERR_FLASH_UNLOCK, unlock);
    } else if erase != HAL_OK {
      BitsOfFailed(ERR_FLASH_ERASE, erase);
    } else if k < |program| {
      BitsOfFailed(ERR_FLASH_PROGRAMM, program[k]);
    } else if lock != HAL_OK {
      BitsOfFailed(ERR_FLASH_LOCK, lock);
    }
  }

  /** Bit i of the reset flags, taken with a one-bit mask, as the code does. */
  predicate FlagSet(flags: bv8, i: nat)
    requires i < 8
  {
    flags & (1 << i) != 0
  }

  /** The reset sources named by the low n bits of the flags, in bit order. */
  function ResetNames(flags: bv8, n: nat): string
    requires n <= |RESET_DESC|
  {
    if n == 0 then "" else ResetNames(flags, n - 1) + (if FlagSet(flags, n - 1) then RESET_DESC[n - 1] else "")
  }

  /** No reset source is named exactly when none of bits 0..5 is set. */
  lemma {:induction false} ResetNamesEmpty(flags: bv8, n: nat)
    requires n <= |RESET_DESC|
    ensures ResetNames(flags, n) == "" <==> forall i :: 0 <= i < n ==> !FlagSet(flags, i)
  {
    if n > 0 {
      ResetNamesEmpty(flags, n - 1);
    }
  }

  /** Bits above bit 5 do not change the description. */
  lemma {:induction false} ResetNamesLowBits(flags: bv8, n: nat)
    requires n <= |RESET_DESC|
    ensures ResetNames(flags, n) == ResetNames(flags & 0x3F, n)
  {
    if n > 0 {
      ResetNamesLowBits(flags, n - 1);
      assert FlagSet(flags, n - 1) == FlagSet(flags & 0x3F, n - 1);
    }
  }

  /** The settings and the flash copy held in RAM. */
  class ConfigStore {
    var config: Config
    const flashData: array<byte>
    var flashRead: bool
    var resetFlg: u32

    ghost predicate Valid()
      reads this
    {
      flashData.Length == FLASH_SIZE
    }

    /** Zero-initialised static storage. `ErrorStatus` is taken to have
     *  SUCCESS = 0, as in the STM32 device headers (not part of this model),
     *  so the zeroed `flash_read` reads as SUCCESS. */
    constructor ()
      ensures Valid() && fresh(flashData)
      ensures flashData[..] == Zeros(FLASH_SIZE) && flashRead
    {
      config := Config(0, 0, 0, seq(16, _ => 0), 0, 0);
      flashData := new byte[FLASH_SIZE](_ => 0);
      flashRead := true;
      resetFlg := 0;
    }

    /** ConfigInit: copies the flash page word by word, keeps its settings
     *  when the CRC matches and the defaults otherwise, and keeps the reset
     *  flags from bit 26 of the reset status register on. */
    method ConfigInit(crc: Crc16, page: seq<byte>, csr: u32)
      requires Valid() && |page| == FLASH_SIZE
      modifies this, flashData
      ensures Valid()
      ensures flashData[..] == page
      ensures (config, flashRead) == Loaded(crc, page)
      ensures resetFlg == csr / 0x400_0000
    {
      var dw := 0;
      while dw < FLASH_WORDS
        invariant 0 <= dw <= FLASH_WORDS
        invariant flashData[..4 * dw] == page[..4 * dw]
      {
        flashData[4 * dw] := page[4 * dw];
        flashData[4 * dw + 1] := page[4 * dw + 1];
        flashData[4 * dw + 2] := page[4 * dw + 2];
        flashData[4 * dw + 3] := page[4 * dw + 3];
        dw := dw + 1;
      }
      assert flashData[..] == flashData[..4 * FLASH_WORDS];
      assert flashData[..] == page;
      var stored := flashData[DATA_SIZE] as int + 0x100 * flashData[DATA_SIZE + 1] as int;
      if crc(flashData[..DATA_SIZE]) != stored {
        config := DEFAULTS;
        flashRead := false;
      } else {
        config := Config(flashData[0], flashData[1] as int + 0x100 * flashData[2] as int, flashData[3],
          flashData[4..20], flashData[20] as int + 0x100 * flashData[21] as int,
          flashData[22] as int + 0x100 * flashData[23] as int);
        flashRead := true;
        assert config == ConfigOf(page[..CONFIG_SIZE]) by {
          assert page[4..20] == page[..CONFIG_SIZE][4..20];
        }
      }
      resetFlg := csr / 0x400_0000;
    }

    /** ConfigSave: prepares the flash block from the settings, then runs
     *  unlock, erase, 32 word writes and lock, stopping at the first step
     *  whose status is not OK. */
    method ConfigSave(crc: Crc16, unlock: HalStatus, erase: HalStatus, program: seq<HalStatus>, lock: HalStatus)
      returns (r: byte)
      requires Valid() && |program| == FLASH_WORDS
      modifies flashData
      ensures flashData[..] == Image(crc, config)
      ensures r == SaveCode(unlock, erase, program, lock)
    {
      forall j | 0 <= j < flashData.Length {
        flashData[j] := if j < CONFIG_SIZE then ConfigBytes(config)[j] else 0;
      }
      ghost var d := flashData[..DATA_SIZE];
      assert d == ConfigBytes(config) + Zeros(DATA_SIZE - CONFIG_SIZE);
      var c := crc(flashData[..DATA_SIZE]);
      flashData[DATA_SIZE] := Lo(c);
      flashData[DATA_SIZE + 1] := Hi(c);
      assert flashData[..] == d + LE16(c);
      if unlock != HAL_OK {
        return ERR_FLASH_UNLOCK + unlock;
      }
      if erase != HAL_OK {
        return ERR_FLASH_ERASE + erase;
      }
      var dw := 0;
      while dw < FLASH_WORDS
        invariant 0 <= dw <= FLASH_WORDS
        invariant forall j :: 0 <= j < dw ==> program[j] == HAL_OK
      {
        if program[dw] != HAL_OK {
          assert FirstFailure(program) == dw by {
            FirstFailureAt(program, dw);
          }
          return ERR_FLASH_PROGRAMM + program[dw];
        }
        dw := dw + 1;
      }
      FirstFailureAt(program, FLASH_WORDS);
      if lock != HAL_OK {
        return ERR_FLASH_LOCK + lock;
      }
      return 0;
    }

    /** FlashReadStat: the outcome of the last load. */
    function FlashReadStat(): (r: string)
      reads this
      ensures r == READ_ERROR[if flashRead then 1 else 0]
    {
      if flashRead then "OK" else "DEFAULT"
    }

    /** ResetSrc: the kept reset flags, truncated to a byte. */
    function ResetSrc(): (r: byte)
      reads this
      ensures r == resetFlg % 0x100
    {
      resetFlg % 0x100
    }
  }

  lemma FirstFailureAt(program: seq<HalStatus>, k: nat)
    requires k <= |program|
    requires forall j :: 0 <= j < k ==> program[j] == HAL_OK
    requires k < |program| ==> program[k] != HAL_OK
    ensures FirstFailure(program) == k
  {
  }

  /** ConfigError: the text of a save result. The code as written indexes
   *  the status names by the low nibble, so only codes whose low nibble is
   *  a HAL status are described. */
  method ConfigError(e: byte) returns (r: string)
    requires e % 16 < 4
    ensures r == ErrorText(e)
  {
    if e == 0 {
      return FLASH_ERROR[e];
    }
    r := "";
    if Bit(e, 4) {
      r := MASK_ERROR[0];
    }
    if Bit(e, 5) {
      r := MASK_ERROR[1];
    }
    if Bit(e, 6) {
      r := MASK_ERROR[2];
    }
    if Bit(e, 7) {
      r := MASK_ERROR[3];
    }
    r := r + FLASH_ERROR[e % 16];
  }

  /** ResetSrcDesc: the names of the reset sources flagged in bits 0..5. */
  method ResetSrcDesc(flags: bv8) returns (r: string)
    ensures r == ResetNames(flags, |RESET_DESC|)
  {
    r := "";
    var i := 0;
    var mask: bv8 := 1;
    while i < |RESET_DESC|
      invariant 0 <= i <= |RESET_DESC|
      invariant mask == 1 << i
      invariant r == ResetNames(flags, i)
    {
      if flags & mask != 0 {
        r := r + RESET_DESC[i];
      }
      i := i + 1;
      mask := mask << 1;
    }
  }
}
