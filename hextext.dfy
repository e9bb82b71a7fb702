/**
 * Hexadecimal text on the console: the digit decoder and the string
 * decoder that the configuration commands use for PAN IDs, addresses and the
 * network key, the upper-case printer `%X` / `%02X`, and the one-line hex
 * dump of 16 bytes.
 */
module HexText {
  import opened Bytes
  import opened CText

  predicate IsHexDigit(c: char)
  {
    ('0' <= c <= '9') || ('a' <= c <= 'f') || ('A' <= c <= 'F')
  }

  /** HexToBin: the value of one hex digit of either case; any other
   *  character is an error (the C code then leaves 0 in `*bin`). */
  function HexToBin(c: char): (r: Option<byte>)
    ensures r.Some? <==> IsHexDigit(c)
    ensures r.Some? ==> r.value < 16
  {
    if '0' <= c <= '9' then Some(c as int - '0' as int)
    else if 'a' <= c <= 'f' then Some(c as int - 87)
    else if 'A' <= c <= 'F' then Some(c as int - 55)
    else None
  }

  /** The upper-case digit `%X` prints for a value below 16. */
  function HexChar(v: nat): (c: char)
    requires v < 16
  {
    if v < 10 then ('0' as int + v) as char else ('A' as int + v - 10) as char
  }

  /** A printed digit reads back as its value. */
  lemma HexCharRoundTrip(v: nat)
    requires v < 16
    ensures HexToBin(HexChar(v)) == Some(v)
  {
  }

  function ToUpper(c: char): char
  {
    if 'a' <= c <= 'z' then (c as int - 32) as char else c
  }

  /** A digit read and printed again comes back in upper case. */
  lemma HexToBinRoundTrip(c: char)
    requires IsHexDigit(c)
    ensures HexChar(HexToBin(c).value) == ToUpper(c)
  {
  }

  // ---------------------------------------------------------------------
  // StrHexToBin
  // ---------------------------------------------------------------------

  /** Decoding two digits at a time, as far as the digits are valid: whether
   *  every pair was valid, and the bytes of the valid pairs before the first
   *  bad one. */
  function Pairs(s: string): (r: (bool, seq<byte>))
    requires |s| % 2 == 0
    ensures 2 * |r.1| <= |s|
    ensures r.0 ==> 2 * |r.1| == |s|
    decreases |s|
  {
    if s == [] then (true, [])
    else if HexToBin(s[0]).None? || HexToBin(s[1]).None? then (false, [])
    else
      var t := Pairs(s[2..]);
      (t.0, [HexToBin(s[0]).value * 16 + HexToBin(s[1]).value] + t.1)
  }

  /** StrHexToBin's outcome on a string of fewer than 256 characters (the
   *  length is held in 8 bits) and a destination of `size` bytes: an odd
   *  length or more pairs than `size` is refused before anything is written;
   *  otherwise the pairs are written in order up to the first bad one, and
   *  the call succeeds when there is none. */
  function HexDecoded(s: string, size: nat): (r: (bool, seq<byte>))
    requires |s| < 256
    ensures |r.1| <= size
  {
    if |s| / 2 > size || |s| % 2 == 1 then (false, []) else Pairs(s)
  }

  /** Byte k of a decoding is pair k of the string, high digit first. */
  predicate PairAt(s: string, k: nat, b: byte)
    requires 2 * k + 1 < |s|
  {
    HexToBin(s[2 * k]).Some? && HexToBin(s[2 * k + 1]).Some? &&
    b == HexToBin(s[2 * k]).value * 16 + HexToBin(s[2 * k + 1]).value
  }

  predicate AllHex(s: string)
  {
    forall i :: 0 <= i < |s| ==> IsHexDigit(s[i])
  }

  /** What Pairs computes: every byte written is its pair; the decoding
   *  succeeds exactly when all digits are valid, and otherwise stops at a
   *  pair holding a bad digit. */
  lemma {:induction false} PairsMeaning(s: string)
    requires |s| % 2 == 0
    ensures var (ok, w) := Pairs(s);
      (forall k :: 0 <= k < |w| ==> PairAt(s, k, w[k])) &&
      (ok <==> AllHex(s)) &&
      (!ok ==> 2 * |w| + 1 < |s| && !(IsHexDigit(s[2 * |w|]) && IsHexDigit(s[2 * |w| + 1])))
    decreases |s|
  {
    if s != [] && HexToBin(s[0]).Some? && HexToBin(s[1]).Some? {
      var t := s[2..];
      PairsMeaning(t);
      var (ok, w) := Pairs(s);
      var w' := Pairs(t).1;
      assert w == [w[0]] + w';
      forall k | 0 <= k < |w| ensures PairAt(s, k, w[k]) {
        if k > 0 {
          assert PairAt(t, k - 1, w'[k - 1]);
          assert s[2 * k] == t[2 * (k - 1)] && s[2 * k + 1] == t[2 * (k - 1) + 1];
        }
      }
      if AllHex(s) {
        assert forall i :: 0 <= i < |t| ==> t[i] == s[i + 2];
      }
      if AllHex(t) {
        assert forall i :: 2 <= i < |s| ==> s[i] == t[i - 2];
      }
      if !ok {
        assert s[2 * |w|] == t[2 * |w'|];
      }
    }
  }

  /** The string decoding: success exactly for an even number of valid
   *  digits that fits, the bytes then being all the pairs. */
  lemma HexDecodedOk(s: string, size: nat)
    requires |s| < 256
    ensures var (ok, w) := HexDecoded(s, size);
      (ok <==> |s| % 2 == 0 && |s| / 2 <= size && AllHex(s)) &&
      (ok ==> |w| == |s| / 2) &&
      (forall k :: 0 <= k < |w| ==> PairAt(s, k, w[k]))
  {
    if |s| % 2 == 0 {
      PairsMeaning(s);
    }
  }

  /** StrHexToBin: decodes `str` into `hex`, whose length is the size of the
   *  destination. The destination keeps its old bytes past the ones written. */
  method StrHexToBin(str: string, hex: array<byte>) returns (ok: bool)
    requires |str| < 256
    modifies hex
    ensures var (good, w) := HexDecoded(str, hex.Length);
      ok == good && hex[..] == w + old(hex[..])[|w|..]
  {
    ghost var b0 := hex[..];
    var len := |str|;
    if len / 2 > hex.Length || len % 2 == 1 {
      return false;
    }
    var rest := str;
    var k := 0;
    ghost var done: seq<byte> := [];
    assert done + Pairs(str).1 == Pairs(str).1;
    while rest != []
      invariant |rest| % 2 == 0 && 2 * k + |rest| == len && |done| == k
      invariant Pairs(str).0 == Pairs(rest).0 && Pairs(str).1 == done + Pairs(rest).1
      invariant forall j :: 0 <= j < k ==> hex[j] == done[j]
      invariant forall j :: k <= j < hex.Length ==> hex[j] == b0[j]
    {
      var high := HexToBin(rest[0]);
      // The length is even, so a second digit always follows.
      var low := HexToBin(rest[1]);
      if high.None? || low.None? {
        DestBytes(hex[..], done, b0);
        return false;
      }
      var v: byte := high.value * 16 + low.value;
      PairsCons(rest, high.value, low.value);
      var tail := rest[2..];
      AppendAssoc(done, v, Pairs(tail).1);
      hex[k] := v;
      done := done + [v];
      rest := tail;
      k := k + 1;
    }
    DestBytes(hex[..], done, b0);
    ok := true;
  }

  /** A destination holding `done` and then its old bytes. */
  lemma DestBytes(h: seq<byte>, done: seq<byte>, b0: seq<byte>)
    requires |h| == |b0| && |done| <= |h|
    requires forall j :: 0 <= j < |done| ==> h[j] == done[j]
    requires forall j :: |done| <= j < |h| ==> h[j] == b0[j]
    ensures h == done + b0[|done|..]
  {
  }

  /** Appending a byte to the bytes already written. */
  lemma AppendAssoc(done: seq<byte>, v: byte, rest: seq<byte>)
    ensures done + ([v] + rest) == (done + [v]) + rest
  {
  }

  /** A valid pair at the read position is decoded first. */
  lemma PairsCons(rest: string, h: byte, l: byte)
    requires |rest| % 2 == 0 && |rest| >= 2
    requires HexToBin(rest[0]) == Some(h) && HexToBin(rest[1]) == Some(l)
    ensures Pairs(rest) == (Pairs(rest[2..]).0, [h * 16 + l] + Pairs(rest[2..]).1)
  {
  }

  // ---------------------------------------------------------------------
  // Printing: %02X and %0wX
  // ---------------------------------------------------------------------

  /** `%02X` of a byte. */
  function HexPair(b: byte): (r: string)
    ensures |r| == 2
  {
    [HexChar(b / 16), HexChar(b % 16)]
  }

  /** Bytes printed with `%02X` one after another, as the network key is. */
  function HexEncode(bs: seq<byte>): (r: string)
    ensures |r| == 2 * |bs|
  {
    if bs == [] then [] else HexPair(bs[0]) + HexEncode(bs[1..])
  }

  /** Printed bytes decode back to the same bytes. */
  lemma {:induction false} HexEncodeRoundTrip(bs: seq<byte>)
    ensures Pairs(HexEncode(bs)) == (true, bs)
  {
    if bs != [] {
      var s := HexEncode(bs);
      HexEncodeRoundTrip(bs[1..]);
      HexCharRoundTrip(bs[0] / 16);
      HexCharRoundTrip(bs[0] % 16);
      assert s[2..] == HexEncode(bs[1..]);
      assert bs == [bs[0]] + bs[1..];
    }
  }

  /** So the decoder accepts anything the printer writes that fits. */
  lemma HexDecodedEncode(bs: seq<byte>, size: nat)
    requires |bs| <= size && |bs| < 128
    ensures HexDecoded(HexEncode(bs), size) == (true, bs)
  {
    var s := HexEncode(bs);
    assert |s| / 2 == |bs| && |s| % 2 == 0;
    HexEncodeRoundTrip(bs);
  }

  /** `%0wX`: the upper-case digits of `v`, at least `w` of them. */
  function HexNum(v: nat, w: nat): (r: string)
    ensures |r| >= 1 && |r| >= w
    decreases v + w
  {
    if v < 16 && w <= 1 then [HexChar(v)]
    else HexNum(v / 16, if w > 0 then w - 1 else 0) + [HexChar(v % 16)]
  }

  /** The value of a string of hex digits, most significant first. */
  function HexValue(s: string): nat
    requires AllHex(s)
  {
    if s == [] then 0
    else
      assert IsHexDigit(s[|s| - 1]);
      HexValue(s[..|s| - 1]) * 16 + HexToBin(s[|s| - 1]).value
  }

  /** A printed number reads back as the number. */
  lemma {:induction false} HexNumValue(v: nat, w: nat)
    ensures AllHex(HexNum(v, w)) && HexValue(HexNum(v, w)) == v
    decreases v + w
  {
    var r := HexNum(v, w);
    if v < 16 && w <= 1 {
      HexCharRoundTrip(v);
      assert r[..0] == [];
    } else {
      var w' := if w > 0 then w - 1 else 0;
      HexNumValue(v / 16, w');
      HexCharRoundTrip(v % 16);
      assert r[..|r| - 1] == HexNum(v / 16, w');
    }
  }

  /** Exactly `w` digits for a value below 16 to the power `w`. */
  lemma {:induction false} HexNumWidth(v: nat, w: nat)
    requires 1 <= w && v < Pow16(w)
    ensures |HexNum(v, w)| == w
    decreases w
  {
    if w > 1 {
      assert v / 16 < Pow16(w - 1);
      HexNumWidth(v / 16, w - 1);
    }
  }

  function Pow16(w: nat): (r: nat)
    ensures r >= 1
  {
    if w == 0 then 1 else 16 * Pow16(w - 1)
  }

  // ---------------------------------------------------------------------
  // DataHexDump
  // ---------------------------------------------------------------------

  /** HEX_TYPE_ADDR: how many digits the address gets at least. */
  datatype AddrType = Hex16BitAddr | Hex32BitAddr

  function AddrWidth(t: AddrType): nat
  {
    if t == Hex16BitAddr then 4 else 8
  }

  /** Byte `k` of the line in the hex column: two digits and a space,
   *  and a second space after the 8th and the 16th byte. */
  function HexCell(b: byte, k: nat): (r: string)
    ensures |r| == if k % 8 == 7 then 4 else 3
  {
    HexPair(b) + if k % 8 == 7 then "  " else " "
  }

  /** The hex column for the first `n` bytes. */
  function HexCells(d: seq<byte>, n: nat): (r: string)
    requires n <= |d|
    ensures |r| == CellPos(n)
  {
    if n == 0 then []
    else
      CellPosStep(n);
      HexCells(d, n - 1) + HexCell(d[n - 1], n - 1)
  }

  /** A byte of the character column: printable ASCII as itself, else '.'. */
  function Shown(b: byte): char
  {
    if 32 <= b < 127 then b as char else '.'
  }

  /** The character column for the first `n` bytes. */
  function Shows(d: seq<byte>, n: nat): (r: string)
    requires n <= |d|
    ensures |r| == n && forall k :: 0 <= k < n ==> r[k] == Shown(d[k])
  {
    if n == 0 then [] else Shows(d, n - 1) + [Shown(d[n - 1])]
  }

  /** The address part: `0x`, the digits and `: `. */
  function DumpHead(t: AddrType, addr: u32): string
  {
    "0x" + HexNum(addr, AddrWidth(t)) + ": "
  }

  /** The dump line of the first 16 bytes of `data`. */
  function HexDumpLine(data: seq<byte>, t: AddrType, addr: u32): string
    requires |data| >= 16
  {
    DumpHead(t, addr) + HexCells(data, 16) + Shows(data, 16) + "\r\n"
  }

  /** Where the cell of byte k starts in the hex column. */
  function CellPos(k: nat): nat
  {
    3 * k + k / 8
  }

  lemma CellPosStep(n: nat)
    requires n >= 1
    ensures CellPos(n) == CellPos(n - 1) + if (n - 1) % 8 == 7 then 4 else 3
  {
    var q := (n - 1) / 8;
    assert n - 1 == 8 * q + (n - 1) % 8;
    if (n - 1) % 8 == 7 {
      assert n == 8 * (q + 1);
    } else {
      assert n == 8 * q + ((n - 1) % 8 + 1);
    }
  }

  /** A shorter column is the start of a longer one. */
  lemma {:induction false} HexCellsPrefix(d: seq<byte>, m: nat, n: nat)
    requires m <= n <= |d|
    ensures HexCells(d, m) <= HexCells(d, n)
    decreases n
  {
    if m < n {
      HexCellsPrefix(d, m, n - 1);
    }
  }

  /** The cell of byte k starts with the two digits of the byte. */
  lemma CellOf(d: seq<byte>, k: nat, n: nat)
    requires k < n <= |d|
    ensures CellPos(k) + 2 <= |HexCells(d, n)|
    ensures HexCells(d, n)[CellPos(k)..CellPos(k) + 2] == HexPair(d[k])
  {
    var p := HexCells(d, k + 1);
    HexCellsPrefix(d, k + 1, n);
    assert p == HexCells(d, k) + HexCell(d[k], k);
    assert p[CellPos(k)..CellPos(k) + 2] == HexPair(d[k]);
    assert HexCells(d, n)[..|p|] == p;
  }

  /** Two printed digits decode to the byte. */
  lemma HexPairRoundTrip(b: byte)
    ensures Pairs(HexPair(b)) == (true, [b])
  {
    HexCharRoundTrip(b / 16);
    HexCharRoundTrip(b % 16);
    var s := HexPair(b);
    assert HexToBin(s[0]) == Some(b / 16) && HexToBin(s[1]) == Some(b % 16);
    assert s[2..] == [];
    assert Pairs(s[2..]) == (true, []);
    assert b / 16 * 16 + b % 16 == b;
    assert Pairs(s) == (true, [b / 16 * 16 + b % 16] + []);
    assert [b / 16 * 16 + b % 16] + [] == [b];
  }

  /** The layout of a dump line: its length, and for every byte its two
   *  digits, which decode back to the byte, and its character. */
  lemma HexDumpLayout(data: seq<byte>, t: AddrType, addr: u32)
    requires |data| >= 16
    ensures var line := HexDumpLine(data, t, addr);
      var h := |DumpHead(t, addr)|;
      |line| == h + 68 && line[|line| - 2..] == "\r\n" &&
      forall k :: 0 <= k < 16 ==>
        Pairs(line[h + CellPos(k)..h + CellPos(k) + 2]) == (true, [data[k]]) &&
        line[h + 50 + k] == Shown(data[k])
  {
    var line := HexDumpLine(data, t, addr);
    var head := DumpHead(t, addr);
    var h := |head|;
    var cells := HexCells(data, 16);
    assert line == head + cells + Shows(data, 16) + "\r\n";
    forall k | 0 <= k < 16
      ensures Pairs(line[h + CellPos(k)..h + CellPos(k) + 2]) == (true, [data[k]])
    {
      CellOf(data, k, 16);
      assert line[h + CellPos(k)..h + CellPos(k) + 2] == cells[CellPos(k)..CellPos(k) + 2];
      HexPairRoundTrip(data[k]);
    }
  }

  /** The address part has 4 digits for a 16-bit address and always 8 for
   *  a 32-bit one, so the line has 76 or 80 characters. */
  lemma DumpHeadWidth(t: AddrType, addr: u32)
    requires t == Hex32BitAddr || addr <= 0xFFFF
    ensures |DumpHead(t, addr)| == AddrWidth(t) + 4
    ensures AllHex(HexNum(addr, AddrWidth(t))) && HexValue(HexNum(addr, AddrWidth(t))) == addr
  {
    assert Pow16(4) == 0x1_0000;
    assert Pow16(8) == 0x1_0000_0000;
    HexNumWidth(addr, AddrWidth(t));
    HexNumValue(addr, AddrWidth(t));
  }

  /** A buffer holding the C string `t`, and `rest` of its old contents
   *  after the NUL. */
  function HoldsCStr(b0: seq<char>, t: string): (r: seq<char>)
    requires |t| < |b0|
    ensures |r| == |b0|
  {
    t + [NUL] + b0[|t| + 1..]
  }

  /** `ptr += sprintf( ptr, ... )` of the text `s`: writes it at `ptr`,
   *  writes a NUL after it and returns the new position. */
  method Put(buff: array<char>, ptr: nat, s: string) returns (p: nat)
    requires ptr + |s| < buff.Length
    modifies buff
    ensures p == ptr + |s|
    ensures buff[..] == old(buff[..])[..ptr] + s + [NUL] + old(buff[..])[ptr + |s| + 1..]
  {
    ghost var b := buff[..];
    forall i | 0 <= i < |s| {
      buff[ptr + i] := s[i];
    }
    buff[ptr + |s|] := NUL;
    p := ptr + |s|;
    ghost var e := b[..ptr] + s + [NUL] + b[ptr + |s| + 1..];
    assert |e| == buff.Length;
    forall i | 0 <= i < buff.Length ensures buff[i] == e[i] {
      if i < ptr {
      } else if i < ptr + |s| {
        assert e[i] == s[i - ptr];
      } else if i == ptr + |s| {
      } else {
        assert e[i] == b[ptr + |s| + 1..][i - ptr - |s| - 1];
      }
    }
  }

  /** Appending after a C string the buffer already holds. */
  lemma HoldsCStrPut(b0: seq<char>, t: string, s: string)
    requires |t| + |s| < |b0|
    ensures var w := HoldsCStr(b0, t);
      w[..|t|] + s + [NUL] + w[|t| + |s| + 1..] == HoldsCStr(b0, t + s)
  {
    var w := HoldsCStr(b0, t);
    assert w[..|t|] == t;
    assert w[|t| + |s| + 1..] == b0[|t| + |s| + 1..];
  }

  /** Appends `s` to the C string `t` the buffer holds. */
  method Append(buff: array<char>, ptr: nat, ghost b0: seq<char>, ghost t: string, s: string) returns (p: nat)
    requires ptr == |t| && |b0| == buff.Length && |t| + |s| < buff.Length && buff[..] == HoldsCStr(b0, t)
    modifies buff
    ensures p == |t + s| && buff[..] == HoldsCStr(b0, t + s)
  {
    p := Put(buff, ptr, s);
    HoldsCStrPut(b0, t, s);
  }

  /** The first loop of DataHexDump: the hex column after the C string
   *  `t` the buffer holds. */
  method DumpCells(data: array<byte>, buff: array<char>, ptr: nat, ghost b0: seq<char>, ghost t: string)
    returns (p: nat)
    requires data.Length >= 16 && ptr == |t| && |b0| == buff.Length && |t| + 50 < buff.Length
    requires buff[..] == HoldsCStr(b0, t)
    modifies buff
    ensures p == |t| + 50 && buff[..] == HoldsCStr(b0, t + HexCells(data[..], 16))
  {
    ghost var d := data[..];
    assert t + HexCells(d, 0) == t;
    p := ptr;
    var offset := 0;
    while offset < 16
      invariant 0 <= offset <= 16
      invariant p == |t + HexCells(d, offset)|
      invariant buff[..] == HoldsCStr(b0, t + HexCells(d, offset))
    {
      p := Append(buff, p, b0, t + HexCells(d, offset), HexCell(data[offset], offset));
      assert t + HexCells(d, offset) + HexCell(data[offset], offset) == t + HexCells(d, offset + 1);
      offset := offset + 1;
    }
  }

  /** The second loop of DataHexDump: the character column. */
  method DumpShows(data: array<byte>, buff: array<char>, ptr: nat, ghost b0: seq<char>, ghost t: string)
    returns (p: nat)
    requires data.Length >= 16 && ptr == |t| && |b0| == buff.Length && |t| + 16 < buff.Length
    requires buff[..] == HoldsCStr(b0, t)
    modifies buff
    ensures p == |t| + 16 && buff[..] == HoldsCStr(b0, t + Shows(data[..], 16))
  {
    ghost var d := data[..];
    assert t + Shows(d, 0) == t;
    p := ptr;
    var offset := 0;
    while offset < 16
      invariant 0 <= offset <= 16
      invariant p == |t| + offset
      invariant buff[..] == HoldsCStr(b0, t + Shows(d, offset))
    {
      p := Append(buff, p, b0, t + Shows(d, offset), [Shown(data[offset])]);
      assert t + Shows(d, offset) + [Shown(data[offset])] == t + Shows(d, offset + 1);
      offset := offset + 1;
    }
  }

  /** DataHexDump: writes the dump line of the first 16 bytes of `data`
   *  into `buff` as a C string; the buffer is unchanged after its NUL. */
  method DataHexDump(data: array<byte>, t: AddrType, addr: u32, buff: array<char>)
    requires data.Length >= 16 && buff.Length > |HexDumpLine(data[..], t, addr)|
    modifies buff
    ensures buff[..] == HoldsCStr(old(buff[..]), HexDumpLine(data[..], t, addr))
  {
    ghost var b0 := buff[..];
    ghost var d := data[..];
    var head := "0x" + HexNum(addr, AddrWidth(t)) + ": ";
    var ptr := Put(buff, 0, head);
    assert buff[..] == HoldsCStr(b0, head);
    ptr := DumpCells(data, buff, ptr, b0, head);
    ptr := DumpShows(data, buff, ptr, b0, head + HexCells(d, 16));
    ptr := Append(buff, ptr, b0, head + HexCells(d, 16) + Shows(d, 16), "\r\n");
  }
}
