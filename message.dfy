/**
 * Shared console text. AddDot pads a label with dots so that the value
 * printed after it starts in a fixed column: it appends a space, then dots
 * up to the column, then one more space, and returns how far the caller's
 * write position moves. The arithmetic is on 8-bit values, as in the code.
 */
module Message {
  import opened Bytes
  import opened CText

  /** Number of dots: `aligment - ( len - prev_len )` stored in a uint8_t,
   *  for a line of at most 256 characters. */
  function DotCount(len: nat, aligment: byte, prevLen: byte): byte
    requires len <= 256
  {
    var d := aligment - (len - prevLen);
    if d < 0 then d + 256 else if d >= 256 then d - 256 else d
  }

  /** The count is the difference reduced modulo 256. */
  lemma DotCountWraps(len: nat, aligment: byte, prevLen: byte)
    requires len <= 256
    ensures DotCount(len, aligment, prevLen) == (aligment - (len - prevLen)) % 256
  {
  }

  /** Whether AddDot stops after the first space: a label that already
   *  reaches the column, on a first line. */
  predicate NoPadding(len: nat, aligment: byte, prevLen: byte)
  {
    len >= aligment && prevLen == 0
  }

  /** `n` dots. */
  function Dots(n: nat): (r: seq<char>)
    ensures |r| == n && forall i :: 0 <= i < n ==> r[i] == '.'
  {
    seq(n, _ => '.')
  }

  /** What AddDot's arguments must allow: room for the space and its NUL,
   *  a length that fits the 8-bit `len`, and room for the dots and the last
   *  space when they are written, at an index the 8-bit `len` can reach. */
  predicate AddDotFits(size: nat, l0: nat, aligment: byte, prevLen: byte)
  {
    l0 + 2 <= size && l0 + 1 < 256 &&
    (NoPadding(l0 + 1, aligment, prevLen) ||
     (l0 + 1 + DotCount(l0 + 1, aligment, prevLen) < size && l0 + 1 + DotCount(l0 + 1, aligment, prevLen) < 256))
  }

  /** The buffer after AddDot and its return value, for a label that ends
   *  at index `l0` of the buffer. */
  function AddDotResult(b: seq<char>, l0: nat, aligment: byte, prevLen: byte): (seq<char>, byte)
    requires AddDotFits(|b|, l0, aligment, prevLen)
  {
    var l := l0 + 1;
    if NoPadding(l, aligment, prevLen) then (b[..l0] + [' ', NUL] + b[l + 1..], 0)
    else
      var add := DotCount(l, aligment, prevLen);
      var n: int := add + 2;
      (b[..l0] + [' '] + Dots(add) + [' '] + b[l + add + 1..], if n < 256 then n else n - 256)
  }

  /** What AddDot appends: a label that already reaches the column gets one
   *  space, the return value is 0 and the write position stays put; the
   *  space is then the end of the C string. */
  lemma AddDotNoPadding(b: seq<char>, aligment: byte, prevLen: byte)
    requires AddDotFits(|b|, StrLen(b), aligment, prevLen) && NoPadding(StrLen(b) + 1, aligment, prevLen)
    ensures var (r, n) := AddDotResult(b, StrLen(b), aligment, prevLen);
      n == 0 && |r| == |b| && CStr(r) == CStr(b) + [' '] && r[StrLen(b) + 2..] == b[StrLen(b) + 2..]
  {
    var l0 := StrLen(b);
    var r := b[..l0] + [' ', NUL] + b[l0 + 2..];
    NoPaddingResult(b, l0, aligment, prevLen);
    SpaceEnds(b, l0);
    StrLenAt(r, l0 + 1);
    assert CStr(r) == r[..l0 + 1];
    assert CStr(b) == b[..l0];
  }

  lemma NoPaddingResult(b: seq<char>, l0: nat, aligment: byte, prevLen: byte)
    requires AddDotFits(|b|, l0, aligment, prevLen) && NoPadding(l0 + 1, aligment, prevLen)
    ensures AddDotResult(b, l0, aligment, prevLen) == (b[..l0] + [' ', NUL] + b[l0 + 2..], 0)
  {
  }

  /** The buffer with a space and a NUL written at `l0`, piece by piece. */
  lemma SpaceEnds(b: seq<char>, l0: nat)
    requires l0 + 2 <= |b|
    ensures var r := b[..l0] + [' ', NUL] + b[l0 + 2..];
      |r| == |b| && r[..l0 + 1] == b[..l0] + [' '] && r[l0 + 1] == NUL &&
      r[l0 + 2..] == b[l0 + 2..] && forall i :: 0 <= i < l0 ==> r[i] == b[i]
  {
    var r := b[..l0] + [' ', NUL] + b[l0 + 2..];
    assert r == (b[..l0] + [' ']) + ([NUL] + b[l0 + 2..]);
  }

  /** Otherwise it appends a space, the dots and a space right after the
   *  label, the return value counts all of them, and nothing after the last
   *  space is written: no NUL ends the new text. */
  lemma AddDotPadding(b: seq<char>, l0: nat, aligment: byte, prevLen: byte)
    requires AddDotFits(|b|, l0, aligment, prevLen) && !NoPadding(l0 + 1, aligment, prevLen)
    ensures var (r, n) := AddDotResult(b, l0, aligment, prevLen);
      var add := DotCount(l0 + 1, aligment, prevLen);
      n == (add + 2) % 256 && |r| == |b| && r[..l0] == b[..l0] && r[l0] == ' ' &&
      (forall i :: l0 < i <= l0 + add ==> r[i] == '.') &&
      r[l0 + add + 1] == ' ' && r[l0 + add + 2..] == b[l0 + add + 2..]
  {
    var add := DotCount(l0 + 1, aligment, prevLen);
    var r := AddDotResult(b, l0, aligment, prevLen).0;
    var head := b[..l0] + [' '] + Dots(add) + [' '];
    assert r == head + b[l0 + add + 2..];
    assert r[l0 + add + 2..] == b[l0 + add + 2..];
    assert r[..l0] == b[..l0];
  }

  /** The column: when the current line, with the added space, ends at or
   *  before the column, the last space lands on column `prev_len + aligment`
   *  and the value written at the returned offset starts right after it. */
  lemma AddDotAligns(b: seq<char>, l0: nat, aligment: byte, prevLen: byte)
    requires AddDotFits(|b|, l0, aligment, prevLen) && !NoPadding(l0 + 1, aligment, prevLen)
    requires prevLen <= l0 + 1 <= prevLen + aligment
    ensures var (r, n) := AddDotResult(b, l0, aligment, prevLen);
      r[prevLen + aligment] == ' ' &&
      (aligment + prevLen - l0 + 1 < 256 ==> l0 + n == prevLen + aligment + 1)
  {
    AddDotPadding(b, l0, aligment, prevLen);
  }

  /** A buffer that agrees with `b` before `l0`, holds a space at `l0`,
   *  dots up to `l0 + add`, a space after them and `b` beyond, is the padded
   *  buffer of AddDotResult. */
  lemma PaddedPointwise(s: seq<char>, b: seq<char>, l0: nat, add: nat)
    requires |s| == |b| && l0 + add + 2 <= |b|
    requires forall k :: 0 <= k < l0 ==> s[k] == b[k]
    requires s[l0] == ' ' && s[l0 + add + 1] == ' '
    requires forall k :: l0 < k <= l0 + add ==> s[k] == '.'
    requires forall k :: l0 + add + 1 < k < |s| ==> s[k] == b[k]
    ensures s == b[..l0] + [' '] + Dots(add) + [' '] + b[l0 + add + 2..]
  {
    var e := b[..l0] + [' '] + Dots(add) + [' '] + b[l0 + add + 2..];
    assert |e| == |s|;
    forall k | 0 <= k < |s| ensures s[k] == e[k] {
      if k < l0 {
      } else if k == l0 {
      } else if k <= l0 + add {
        assert e[k] == Dots(add)[k - l0 - 1];
      } else if k == l0 + add + 1 {
      } else {
        assert e[k] == b[l0 + add + 2..][k - l0 - add - 2];
      }
    }
  }

  /** The loop of AddDot: `add` dots from index `start` on, returning the
   *  index after them. */
  method WriteDots(src: array<char>, start: nat, add: nat) returns (len: nat)
    requires start + add <= src.Length
    modifies src
    ensures len == start + add
    ensures forall k :: 0 <= k < start ==> src[k] == old(src[k])
    ensures forall k :: start <= k < len ==> src[k] == '.'
    ensures forall k :: len <= k < src.Length ==> src[k] == old(src[k])
  {
    len := start;
    while len < start + add
      invariant start <= len <= start + add
      invariant forall k :: 0 <= k < start ==> src[k] == old(src[k])
      invariant forall k :: start <= k < len ==> src[k] == '.'
      invariant forall k :: len <= k < src.Length ==> src[k] == old(src[k])
    {
      src[len] := '.';
      len := len + 1;
    }
  }

  /** AddDot: appends to the C string in `src` as AddDotResult states. */
  method AddDot(src: array<char>, aligment: byte, prevLen: byte) returns (r: byte)
    requires AddDotFits(src.Length, StrLen(src[..]), aligment, prevLen)
    modifies src
    ensures (src[..], r) == AddDotResult(old(src[..]), StrLen(old(src[..])), aligment, prevLen)
  {
    ghost var b := src[..];
    var l0 := StrLen(src[..]);
    src[l0] := ' ';
    src[l0 + 1] := NUL;
    var len := l0 + 1;
    if len >= aligment && prevLen == 0 {
      SpaceEnds(b, l0);
      assert src[..] == b[..l0] + [' ', NUL] + b[l0 + 2..];
      NoPaddingResult(b, l0, aligment, prevLen);
      return 0;
    }
    var add := DotCount(len, aligment, prevLen);
    len := WriteDots(src, len, add);
    src[len] := ' ';
    PaddedPointwise(src[..], b, l0, add);
    var n: int := add as int + 2;
    r := if n < 256 then n else n - 256;
  }
}
