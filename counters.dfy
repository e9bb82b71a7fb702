/**
 * Result codes of the radio-module layer and the statistics kept about
 * them: one 32-bit counter per result code, and the totals of packets sent
 * and received. The packet checker increments them as well as the engine.
 */
module Counters {
  import opened Bytes


  /** ZBErrorState, in declaration order (codes 0..11). */
  datatype ZBError = Ok | Exec | Send | Run | Network | Cmd | Timeout | Data | Crc | Numb | Addr | Undef
  {
    function Code(): nat
    {
      match this
      case Ok => 0 case Exec => 1 case Send => 2 case Run => 3
      case Network => 4 case Cmd => 5 case Timeout => 6 case Data => 7
      case Crc => 8 case Numb => 9 case Addr => 10 case Undef => 11
    }
  }

  /** The number of counters, one per result description. */
  const ERR_COUNT: nat := 12

  const ERROR_DESCR: seq<string> := [
    "OK",
    "Error in command data",
    "UART transmission error",
    "Module no running",
    "No network",
    "Command undefined",
    "Timed out for response",
    "Data error",
    "Checksum error",
    "Device number error",
    "Device address error",
    "Module response not identified"
  ]

  /** ZBErrDesc: the description of a result code; none past the table. */
  function ZBErrDesc(code: nat): (r: Option<string>)
    ensures r.Some? <==> code < ERR_COUNT
  {
    if code < |ERROR_DESCR| then Some(ERROR_DESCR[code]) else None
  }

  /** Every description names exactly one result code. */
  lemma ErrDescDistinct(i: nat, j: nat)
    requires i < ERR_COUNT && j < ERR_COUNT && i != j
    ensures ZBErrDesc(i) != ZBErrDesc(j)
  {
  }

  /** The counter table after ZBIncError: a code past the table changes nothing. */
  function Bumped(t: seq<u32>, code: nat): seq<u32>
  {
    if code < |t| then t[code := Inc32(t[code])] else t
  }

  /** ZBErrCnt over the counter table: code 0 asks for the number of counters. */
  function CountOf(t: seq<u32>, code: nat): (r: u32)
    requires |t| == ERR_COUNT
    ensures code >= ERR_COUNT ==> r == 0
    ensures 0 < code < ERR_COUNT ==> r == t[code]
  {
    if code == 0 then ERR_COUNT else if code < |t| then t[code] else 0
  }

  /** One increment shows in exactly one counter, by one, modulo 2^32. */
  lemma CountAfterBump(t: seq<u32>, code: nat, query: nat)
    requires |t| == ERR_COUNT
    ensures |Bumped(t, code)| == ERR_COUNT
    ensures CountOf(Bumped(t, code), query)
         == if query == code && 0 < code < ERR_COUNT then (CountOf(t, code) + 1) % U32 else CountOf(t, query)
  {
    if 0 < code < ERR_COUNT {
      Inc32Wraps(t[code]);
    }
  }

  class ErrorCounters {
    const errorCnt: array<u32>
    var sendCnt: u32
    var recvCnt: u32

    ghost predicate Valid()
      reads this
    {
      errorCnt.Length == ERR_COUNT
    }

    /** The statics start at zero (ErrorClr at start-up). */
    constructor ()
      ensures Valid() && fresh(errorCnt)
      ensures errorCnt[..] == seq(ERR_COUNT, _ => 0) && sendCnt == 0 && recvCnt == 0
    {
      errorCnt := new u32[ERR_COUNT](_ => 0);
      sendCnt, recvCnt := 0, 0;
    }

    /** ErrorClr: every counter and both totals back to zero. */
    method ErrorClr()
      requires Valid()
      modifies this, errorCnt
      ensures Valid() && errorCnt[..] == seq(ERR_COUNT, _ => 0) && sendCnt == 0 && recvCnt == 0
    {
      sendCnt, recvCnt := 0, 0;
      forall i | 0 <= i < errorCnt.Length {
        errorCnt[i] := 0;
      }
    }

    /** ZBIncError. */
    method ZBIncError(code: nat)
      requires Valid()
      modifies errorCnt
      ensures errorCnt[..] == Bumped(old(errorCnt[..]), code)
    {
      if code < errorCnt.Length {
        errorCnt[code] := Inc32(errorCnt[code]);
      }
    }

    /** ZBErrCnt. */
    function ZBErrCnt(code: nat): (r: u32)
      requires Valid()
      reads this, errorCnt
      ensures code == 0 ==> r == ERR_COUNT
      ensures 0 < code < ERR_COUNT ==> r == errorCnt[code]
      ensures code >= ERR_COUNT ==> r == 0
    {
      CountOf(errorCnt[..], code)
    }
  }
}
