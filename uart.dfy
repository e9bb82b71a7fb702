/**
 * The console port: the table of supported baud rates and the line editor
 * that collects a command one received character at a time. The editor
 * keeps the line in a 40-character buffer; backspace deletes, carriage
 * return hands the line over for execution and keeps a copy as history, and
 * the up-arrow sequence ESC [ A brings the last command back.
 */
module Uart {
  import opened Bytes
  import opened CText

  /** The baud rate of each speed ID, the ID being the row index. */
  const SPEEDS: seq<u32> := [600, 1200, 2400, 4800, 9600, 14400, 19200, 28800, 38400, 56000, 57600, 115200]

  const UART_SPEED_600: nat := 0
  const UART_SPEED_115200: nat := 11

  /** UartGetSpeed: the baud rate of an ID, 0 past the table. */
  function UartGetSpeed(id: nat): (r: u32)
    ensures r != 0 <==> id < |SPEEDS|
    ensures id < |SPEEDS| ==> r == SPEEDS[id]
  {
    if id < |SPEEDS| then SPEEDS[id] else 0
  }

  /** No two IDs share a baud rate. */
  lemma SpeedsDistinct(i: nat, j: nat)
    requires i < |SPEEDS| && j < |SPEEDS| && SPEEDS[i] == SPEEDS[j]
    ensures i == j
  {
  }

  /** CheckBaudRate: succeeds exactly for a rate in the table, with that
   *  rate's ID; on failure the ID is the 600 baud default. */
  method CheckBaudRate(baud: u32) returns (ok: bool, speed: nat)
    ensures ok <==> baud in SPEEDS
    ensures ok ==> speed < |SPEEDS| && UartGetSpeed(speed) == baud && SpeedId(baud) == Some(speed)
    ensures !ok ==> speed == UART_SPEED_600
  {
    speed := UART_SPEED_600;
    var i := 0;
    while i < |SPEEDS|
      invariant 0 <= i <= |SPEEDS|
      invariant forall j :: 0 <= j < i ==> SPEEDS[j] != baud
      invariant SpeedId(baud) == SpeedIdFrom(baud, i)
    {
      if baud == SPEEDS[i] {
        return true, i;
      }
      i := i + 1;
    }
    return false, speed;
  }

  /** The ID CheckBaudRate finds for a rate: the first row holding it. */
  function SpeedId(baud: u32): (r: Option<nat>)
    ensures r.Some? <==> baud in SPEEDS
    ensures r.Some? ==> r.value < |SPEEDS| && SPEEDS[r.value] == baud
  {
    SpeedIdFrom(baud, 0)
  }

  function SpeedIdFrom(baud: u32, i: nat): (r: Option<nat>)
    requires i <= |SPEEDS|
    ensures r.Some? <==> baud in SPEEDS[i..]
    ensures r.Some? ==> i <= r.value < |SPEEDS| && SPEEDS[r.value] == baud
    decreases |SPEEDS| - i
  {
    if i == |SPEEDS| then None
    else if SPEEDS[i] == baud then Some(i)
    else
      assert SPEEDS[i..] == [SPEEDS[i]] + SPEEDS[i + 1..];
      SpeedIdFrom(baud, i + 1)
  }

  /** Round trip: the rate UartGetSpeed gives for an ID is checked back by
   *  CheckBaudRate to the same ID. */
  lemma SpeedRoundTrip(id: nat)
    requires id < |SPEEDS|
    ensures SpeedId(UartGetSpeed(id)) == Some(id)
  {
    var r := SpeedId(UartGetSpeed(id));
    SpeedsDistinct(id, r.value);
  }

  // ---------------------------------------------------------------------
  // The line editor (UartRecvComplt)
  // ---------------------------------------------------------------------

  const RECV_BUFF_SIZE: nat := 40
  const BS: char := 8 as char
  const ESC: char := 27 as char
  const CR: char := '\r'
  const KEY_UP: seq<char> := [ESC, '[', 'A']

  function Blank(n: nat): (r: seq<char>)
    ensures |r| == n && forall i :: 0 <= i < n ==> r[i] == NUL
  {
    seq(n, _ => NUL)
  }

  /** The editor's statics: the line, the history line, the write index
   *  and the index just past the last ESC (0 when none is pending). */
  datatype Editor = Editor(buff: seq<char>, temp: seq<char>, ind: nat, escInd: nat)

  /** Shape of the statics, and every position from the write index on holds
   *  NUL, which is what keeps a stale character from completing KEY_UP. */
  predicate EditorValid(e: Editor)
  {
    |e.buff| == RECV_BUFF_SIZE && |e.temp| == RECV_BUFF_SIZE &&
    e.ind <= RECV_BUFF_SIZE && e.escInd <= RECV_BUFF_SIZE &&
    forall j :: e.ind <= j < RECV_BUFF_SIZE ==> e.buff[j] == NUL
  }

  /** A full line is discarded before the next character is stored. */
  function Wrapped(e: Editor): (r: Editor)
    requires EditorValid(e)
    ensures EditorValid(r) && r.ind < RECV_BUFF_SIZE
    ensures e.ind < RECV_BUFF_SIZE ==> r == e
  {
    if e.ind >= RECV_BUFF_SIZE then e.(ind := 0, buff := Blank(RECV_BUFF_SIZE)) else e
  }

  /** Backspace on a non-empty line removes its last character. */
  function Erased(e: Editor): (r: Editor)
    requires EditorValid(e) && 0 < e.ind
    ensures EditorValid(r) && r.ind == e.ind - 1 && r.buff[..r.ind] == e.buff[..r.ind]
  {
    e.(ind := e.ind - 1, buff := e.buff[e.ind - 1 := NUL])
  }

  /** Any other character is stored at the write index; an ESC marks where
   *  a recall sequence may start. */
  function Stored(e: Editor, ch: char): (r: Editor)
    requires EditorValid(e) && e.ind < RECV_BUFF_SIZE
    ensures EditorValid(r) && r.ind == e.ind + 1 && r.buff[e.ind] == ch
    ensures r.buff[..e.ind] == e.buff[..e.ind] && r.temp == e.temp
  {
    var e2 := e.(buff := e.buff[e.ind := ch], ind := e.ind + 1);
    if ch == ESC then e2.(escInd := e2.ind) else e2
  }

  /** Whether ESC [ A lies at the marked position; the comparison is made only
   *  where all three characters lie in the buffer. */
  predicate UpArrowAt(e: Editor)
    requires EditorValid(e)
  {
    1 <= e.escInd && e.escInd + 2 <= RECV_BUFF_SIZE && e.buff[e.escInd - 1..e.escInd + 2] == KEY_UP
  }

  /** On ESC [ A the line becomes the history line, the write index its end. */
  function Recalled(e: Editor): (r: Editor)
    requires EditorValid(e)
    ensures EditorValid(r) && r.temp == e.temp
    ensures UpArrowAt(e) ==> r.ind == StrLen(e.temp) && r.escInd == 0 && CStr(r.buff) == CStr(e.temp)
    ensures !UpArrowAt(e) ==> r == e
  {
    if UpArrowAt(e) then
      var l := StrLen(e.temp);
      var r := e.(escInd := 0, buff := e.temp[..l] + Blank(RECV_BUFF_SIZE - l), ind := l);
      StrLenAt(r.buff, l);
      r
    else e
  }

  /** A line ending in a carriage return completes: the return is dropped
   *  and the line is copied to the history line. */
  function Completed(e: Editor): (r: (Editor, bool))
    requires EditorValid(e)
    ensures EditorValid(r.0)
    ensures r.1 <==> 1 <= e.ind && e.buff[e.ind - 1] == CR
    ensures !r.1 ==> r.0 == e
  {
    if e.ind >= 1 && e.buff[e.ind - 1] == CR then
      var b := e.buff[e.ind - 1 := NUL];
      (e.(escInd := 0, buff := b, temp := b[..e.ind] + Blank(RECV_BUFF_SIZE - e.ind)), true)
    else (e, false)
  }

  /** The result of one received character: the new statics and whether a
   *  command line is ready. The code as written also reads the byte before
   *  the buffer in the recall and the carriage-return tests; here those tests
   *  are made on buffer positions only. */
  function Step(e: Editor, ch: char): (r: (Editor, bool))
    requires EditorValid(e)
    ensures EditorValid(r.0)
  {
    var e1 := Wrapped(e);
    if ch == BS && e1.ind != 0 then (Erased(e1), false)
    else Completed(Recalled(Stored(e1, ch)))
  }

  /** The editor after the line has been executed and reception resumes. */
  function Resumed(e: Editor): Editor
  {
    e.(ind := 0, buff := Blank(RECV_BUFF_SIZE))
  }

  /** The editor fed a string, and whether the last character completed a line. */
  function Feed(e: Editor, s: string): (r: (Editor, bool))
    requires EditorValid(e)
    ensures EditorValid(r.0)
    decreases |s|
  {
    if s == [] then (e, false)
    else
      var (e1, ex) := Step(e, s[0]);
      if |s| == 1 then (e1, ex) else Feed(e1, s[1..])
  }

  predicate Printable(c: char) { 32 <= c as int <= 126 }

  /** A cleared line with no recall pending. */
  predicate Fresh(e: Editor)
  {
    EditorValid(e) && e.ind == 0 && e.escInd == 0
  }

  /** Typing a printable prefix into a fresh line stores it and nothing else. */
  lemma {:induction false} TypedPrefix(e: Editor, s: string)
    requires Fresh(e) && |s| <= RECV_BUFF_SIZE - 1
    requires forall i :: 0 <= i < |s| ==> Printable(s[i])
    ensures s != [] ==> !Feed(e, s).1
    ensures var r := Feed(e, s).0;
      r.ind == |s| && r.escInd == 0 && r.temp == e.temp && r.buff[..|s|] == s
    decreases |s|
  {
    if s != [] {
      var p := s[..|s| - 1];
      var c := s[|s| - 1];
      TypedPrefix(e, p);
      FeedSnoc(e, p, c);
      var q := Feed(e, p).0;
      assert q.buff[..|p|] == p;
      var st := Step(q, c);
      assert st.0.buff == q.buff[|p| := c];
      assert st.0.buff[..|s|] == p + [c];
      assert s == p + [c];
    }
  }

  /** Feeding one more character is one more step. */
  lemma {:induction false} FeedSnoc(e: Editor, s: string, c: char)
    requires EditorValid(e)
    ensures Feed(e, s + [c]) == Step(Feed(e, s).0, c)
    decreases |s|
  {
    if s == [] {
      assert [c][1..] == [];
    } else {
      assert (s + [c])[0] == s[0];
      assert (s + [c])[1..] == s[1..] + [c];
      var e1 := Step(e, s[0]).0;
      if |s| == 1 {
        assert s[1..] == [];
      } else {
        FeedSnoc(e1, s[1..], c);
      }
    }
  }

  /** A printable line of at most 39 characters followed by a carriage
   *  return completes the command, which then reads back as that line,
   *  and is kept as the history line. */
  lemma TypedLine(e: Editor, s: string)
    requires Fresh(e) && |s| <= RECV_BUFF_SIZE - 1
    requires forall i :: 0 <= i < |s| ==> Printable(s[i])
    ensures var r := Feed(e, s + [CR]);
      r.1 && CStr(r.0.buff) == s && CStr(r.0.temp) == s && r.0.escInd == 0
  {
    TypedPrefix(e, s);
    FeedSnoc(e, s, CR);
    var q := Feed(e, s).0;
    var r := Step(q, CR);
    assert r.0.buff[..|s|] == s && r.0.buff[|s|] == NUL;
    assert r.0.temp[..|s|] == s && r.0.temp[|s|] == NUL;
    StrLenAt(r.0.buff, |s|);
    StrLenAt(r.0.temp, |s|);
  }

  /** In a fresh line, ESC [ A replaces the line with the history line and
   *  puts the write index at its end; it completes no command unless the
   *  history line ends in a carriage return. */
  lemma UpArrowRecalls(f: Editor)
    requires Fresh(f)
    requires var l := StrLen(f.temp); l == 0 || f.temp[l - 1] != CR
    ensures var r := Feed(f, KEY_UP);
      !r.1 && r.0.ind == StrLen(f.temp) && CStr(r.0.buff) == CStr(f.temp)
  {
    var a := Stored(f, ESC);
    var b := Stored(a, '[');
    KeyUpFirstTwo(f);
    var d := KeyUpLast(b);
    assert Feed(b, ['A']) == (d, false);
    assert ['[', 'A'][1..] == ['A'];
    assert Feed(a, ['[', 'A']) == Feed(b, ['A']);
    assert KEY_UP[1..] == ['[', 'A'];
    assert Feed(f, KEY_UP) == Feed(a, ['[', 'A']);
  }

  /** ESC and '[' in a fresh line are stored without a recall or a command. */
  lemma KeyUpFirstTwo(f: Editor)
    requires Fresh(f)
    ensures var a := Stored(f, ESC);
      Step(f, ESC) == (a, false) && Step(a, '[') == (Stored(a, '['), false) &&
      var b := Stored(a, '[');
      b.ind == 2 && b.escInd == 1 && b.temp == f.temp && b.buff[0..2] == [ESC, '[']
  {
    var a := Stored(f, ESC);
    assert !UpArrowAt(a) by {
      assert a.buff[0..3] == [ESC, NUL, NUL];
    }
    var b := Stored(a, '[');
    assert !UpArrowAt(b) by {
      assert b.buff[0..3] == [ESC, '[', NUL];
    }
  }

  /** The 'A' that completes ESC [ recalls the history line. */
  lemma KeyUpLast(b: Editor) returns (d: Editor)
    requires EditorValid(b) && b.ind == 2 && b.escInd == 1 && b.buff[0..2] == [ESC, '[']
    requires var l := StrLen(b.temp); l == 0 || b.temp[l - 1] != CR
    ensures Step(b, 'A') == (d, false)
    ensures d.ind == StrLen(b.temp) && CStr(d.buff) == CStr(b.temp)
  {
    var c := Stored(b, 'A');
    assert UpArrowAt(c) by {
      assert c.buff[0..3] == KEY_UP;
    }
    d := Recalled(c);
    assert Completed(d) == (d, false);
  }

  /** After a command has run, ESC [ A in the fresh line brings the command
   *  back with the write index at its end. */
  lemma RecallLast(e: Editor, s: string)
    requires Fresh(e) && |s| <= RECV_BUFF_SIZE - 1
    requires forall i :: 0 <= i < |s| ==> Printable(s[i])
    ensures var done := Feed(e, s + [CR]).0;
      var r := Feed(Resumed(done), KEY_UP);
      !r.1 && r.0.ind == |s| && CStr(r.0.buff) == s
  {
    TypedLine(e, s);
    var f := Resumed(Feed(e, s + [CR]).0);
    assert s != [] ==> f.temp[|s| - 1] == s[|s| - 1] by {
      assert f.temp[..|s|] == s;
    }
    assert StrLen(f.temp) == |s|;
    UpArrowRecalls(f);
  }

  /** The console receive statics. */
  class LineEditor {
    const buff: array<char>
    const temp: array<char>
    var ind: nat
    var escInd: nat

    ghost predicate Valid()
      reads this, buff, temp
    {
      buff != temp && EditorValid(State())
    }

    function State(): Editor
      reads this, buff, temp
    {
      Editor(buff[..], temp[..], ind, escInd)
    }

    constructor ()
      ensures Valid() && fresh(buff) && fresh(temp)
      ensures State() == Editor(Blank(RECV_BUFF_SIZE), Blank(RECV_BUFF_SIZE), 0, 0)
    {
      buff := new char[RECV_BUFF_SIZE](_ => NUL);
      temp := new char[RECV_BUFF_SIZE](_ => NUL);
      ind, escInd := 0, 0;
    }

    /** UartRecvComplt: true when the character completed a command line. */
    method RecvChar(ch: char) returns (exec: bool)
      requires Valid()
      modifies this, buff, temp
      ensures Valid()
      ensures (State(), exec) == Step(old(State()), ch)
    {
      ghost var e0 := State();
      if ind >= buff.Length {
        ClearLine();
      }
      ghost var e1 := State();
      assert e1 == Wrapped(e0);
      if ch == BS && ind != 0 {
        ind := ind - 1;
        buff[ind] := NUL;
        assert State() == Erased(e1);
        return false;
      }
      StoreChar(ch);
      RecallHistory();
      exec := CompleteLine();
      assert (State(), exec) == Completed(Recalled(Stored(e1, ch)));
    }

    /** The character is stored at the write index, and an ESC is marked. */
    method StoreChar(ch: char)
      requires Valid() && ind < RECV_BUFF_SIZE
      modifies this, buff
      ensures Valid() && State() == Stored(old(State()), ch)
    {
      buff[ind] := ch;
      ind := ind + 1;
      if ch == ESC {
        escInd := ind;
      }
    }

    /** The line is emptied. */
    method ClearLine()
      requires Valid()
      modifies this, buff
      ensures Valid() && State() == Resumed(old(State()))
    {
      ind := 0;
      forall j | 0 <= j < buff.Length { buff[j] := NUL; }
    }

    /** The recall test and, on ESC [ A, the copy of the history line. */
    method RecallHistory()
      requires Valid()
      modifies this, buff
      ensures Valid() && State() == Recalled(old(State()))
    {
      ghost var e3 := State();
      if 1 <= escInd && escInd + 2 <= buff.Length && buff[escInd - 1..escInd + 2] == KEY_UP {
        assert UpArrowAt(e3);
        escInd := 0;
        var l := StrLen(temp[..]);
        forall j | 0 <= j < buff.Length {
          buff[j] := if j < l then temp[j] else NUL;
        }
        assert buff[..] == e3.temp[..l] + Blank(RECV_BUFF_SIZE - l);
        ind := l;
        assert State() == e3.(escInd := 0, buff := e3.temp[..l] + Blank(RECV_BUFF_SIZE - l), ind := l);
      } else {
        assert !UpArrowAt(e3);
      }
    }

    /** The carriage-return test and, on a completed line, the history copy. */
    method CompleteLine() returns (exec: bool)
      requires Valid()
      modifies this, buff, temp
      ensures Valid() && (State(), exec) == Completed(old(State()))
    {
      ghost var e4 := State();
      if ind >= 1 && buff[ind - 1] == CR {
        ghost var b4 := e4.buff[e4.ind - 1 := NUL];
        assert Completed(e4) == (e4.(escInd := 0, buff := b4, temp := b4[..e4.ind] + Blank(RECV_BUFF_SIZE - e4.ind)), true);
        escInd := 0;
        buff[ind - 1] := NUL;
        ghost var b := buff[..];
        forall j | 0 <= j < temp.Length {
          temp[j] := if j < ind then buff[j] else NUL;
        }
        assert temp[..] == b[..ind] + Blank(RECV_BUFF_SIZE - ind);
        assert b == b4;
        assert State() == e4.(escInd := 0, buff := b4, temp := b4[..e4.ind] + Blank(RECV_BUFF_SIZE - e4.ind));
        return true;
      }
      return false;
    }

    /** Reception resumes after the command ran: the line is cleared. */
    method Resume()
      requires Valid()
      modifies this, buff
      ensures Valid() && State() == Resumed(old(State()))
    {
      ClearLine();
    }
  }
}
