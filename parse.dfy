/**
 * The command-line tokenizer of the console. A received line is cut at its
 * first control code, split at spaces the way `strtok_r` with the delimiter
 * " " splits it, and the tokens are copied into a table of ten rows of 35
 * characters; the command is token 0. The table and the token count stay
 * in place until the next line is parsed.
 *
 * As written, the tokenizing loop has no bound on the number of tokens and
 * copies each token whole, although the table has ten rows of 35
 * characters; the parser here keeps the first ten tokens and at most 34
 * characters of each, which is what the table can hold with its NUL.
 */
module Parse {
  import opened Bytes
  import opened CText

  const MAX_CNT_PARAM: nat := 10
  const MAX_LEN_PARAM: nat := 35

  // ---------------------------------------------------------------------
  // The line as the control-code loop leaves it
  // ---------------------------------------------------------------------

  /** Index of the first character below 32 (a control code, NUL included),
   *  or the length when there is none. */
  function FirstCtl(s: seq<char>): (k: nat)
    ensures k <= |s|
    ensures forall i :: 0 <= i < k ==> s[i] as int >= 32
    ensures k < |s| ==> s[k] as int < 32
  {
    if s == [] || s[0] as int < 32 then 0 else 1 + FirstCtl(s[1..])
  }

  /** The buffer after the loop that overwrites control codes with NUL: the
   *  loop bound is `strlen` read again on every pass, so it stops at the
   *  first code it overwrites and only that one is changed. */
  function Stripped(s: seq<char>): seq<char>
  {
    var k := FirstCtl(s);
    if k < |s| then s[k := NUL] else s
  }

  /** The C string reaches at least to the first control code. */
  lemma {:induction false} StrLenCovers(s: seq<char>)
    ensures FirstCtl(s) <= StrLen(s)
    decreases |s|
  {
    if s != [] && s[0] as int >= 32 {
      StrLenCovers(s[1..]);
    }
  }

  /** The line is cut at its first control code and holds none. */
  lemma StrippedLine(s: seq<char>)
    ensures |Stripped(s)| == |s|
    ensures CStr(Stripped(s)) == s[..FirstCtl(s)]
    ensures forall i :: 0 <= i < |CStr(Stripped(s))| ==> CStr(Stripped(s))[i] as int >= 32
  {
    var k := FirstCtl(s);
    StrLenAt(Stripped(s), k);
  }

  // ---------------------------------------------------------------------
  // Tokens
  // ---------------------------------------------------------------------

  /** Length of the run of spaces at the start of `s`. */
  function SpacesAt(s: string): (n: nat)
    ensures n <= |s|
    ensures forall i :: 0 <= i < n ==> s[i] == ' '
    ensures n < |s| ==> s[n] != ' '
  {
    if s != [] && s[0] == ' ' then 1 + SpacesAt(s[1..]) else 0
  }

  /** Length of the run of non-spaces at the start of `s`. */
  function WordLen(s: string): (n: nat)
    ensures n <= |s|
    ensures forall i :: 0 <= i < n ==> s[i] != ' '
    ensures n < |s| ==> s[n] == ' '
  {
    if s != [] && s[0] != ' ' then 1 + WordLen(s[1..]) else 0
  }

  /** The maximal runs of non-space characters of a line, in order. */
  function Tokens(s: string): seq<string>
    decreases |s|
  {
    if s == [] then []
    else if s[0] == ' ' then Tokens(s[1..])
    else
      var k := WordLen(s);
      [s[..k]] + Tokens(s[k..])
  }

  /** No token is empty and none holds a space. */
  lemma {:induction false} TokensShape(s: string)
    ensures forall t :: t in Tokens(s) ==> t != [] && ' ' !in t
    decreases |s|
  {
    if s == [] {
    } else if s[0] == ' ' {
      TokensShape(s[1..]);
    } else {
      var k := WordLen(s);
      TokensShape(s[k..]);
      assert ' ' !in s[..k] by {
        forall i | 0 <= i < k ensures s[..k][i] != ' ' { }
      }
    }
  }

  /** A word without spaces is one token. */
  lemma TokensWord(w: string)
    requires w != [] && forall i :: 0 <= i < |w| ==> w[i] != ' '
    ensures Tokens(w) == [w]
  {
    WordLenAll(w);
    var k := WordLen(w);
    assert w[..k] == w && w[k..] == [];
  }

  /** A string without spaces is one word. */
  lemma {:induction false} WordLenAll(w: string)
    requires forall i :: 0 <= i < |w| ==> w[i] != ' '
    ensures WordLen(w) == |w|
    decreases |w|
  {
    if w != [] {
      WordLenAll(w[1..]);
    }
  }

  /** A space separates tokens: the tokens on either side are kept apart. */
  lemma {:induction false} TokensSplit(x: string, y: string)
    ensures Tokens(x + [' '] + y) == Tokens(x) + Tokens(y)
    decreases |x|
  {
    var s := x + [' '] + y;
    if x == [] {
      assert s[1..] == y;
    } else if x[0] == ' ' {
      assert s[1..] == x[1..] + [' '] + y;
      TokensSplit(x[1..], y);
    } else {
      var k := WordLen(x);
      assert WordLen(s) == k by {
        assert s == x + ([' '] + y);
        WordPrefix(x, [' '] + y);
      }
      assert s[..k] == x[..k];
      assert s[k..] == x[k..] + [' '] + y;
      TokensSplit(x[k..], y);
    }
  }

  /** The leading word of `x + y` is that of `x` when `y` starts with a space. */
  lemma {:induction false} WordPrefix(x: string, y: string)
    requires y != [] && y[0] == ' '
    ensures WordLen(x + y) == WordLen(x)
    decreases |x|
  {
    if x != [] && x[0] != ' ' {
      assert (x + y)[1..] == x[1..] + y;
      WordPrefix(x[1..], y);
    } else if x == [] {
    } else {
      assert (x + y)[0] == ' ';
    }
  }

  /** Leading spaces produce no token. */
  lemma {:induction false} TokensSkip(s: string, a: nat)
    requires a <= |s| && forall i :: 0 <= i < a ==> s[i] == ' '
    ensures Tokens(s) == Tokens(s[a..])
    decreases a
  {
    if a > 0 {
      assert s[1..][a - 1..] == s[a..];
      TokensSkip(s[1..], a - 1);
    }
  }

  /** strtok_r( str, " ", &saveptr ): nothing when only spaces remain;
   *  otherwise the first token and the text after the space that ended it,
   *  where the next call resumes. */
  function StrTok(s: string): Option<(string, string)>
  {
    var a := SpacesAt(s);
    if a == |s| then None
    else
      var t := s[a..];
      var k := WordLen(t);
      Some((t[..k], if k < |t| then t[k + 1..] else []))
  }

  /** A string holding no NUL. */
  predicate NoNul(s: string)
  {
    forall i :: 0 <= i < |s| ==> s[i] != NUL
  }

  /** The token and the rest strtok_r returns are pieces of its argument. */
  lemma StrTokNoNul(s: string)
    requires NoNul(s)
    ensures StrTok(s).Some? ==> NoNul(StrTok(s).value.0) && NoNul(StrTok(s).value.1)
  {
  }

  /** Repeated strtok_r calls yield exactly the tokens of the line. */
  lemma StrTokTokens(s: string)
    ensures StrTok(s).None? <==> Tokens(s) == []
    ensures StrTok(s).Some? ==> Tokens(s) == [StrTok(s).value.0] + Tokens(StrTok(s).value.1)
  {
    var a := SpacesAt(s);
    TokensSkip(s, a);
    if a < |s| {
      var t := s[a..];
      var k := WordLen(t);
      assert t[0] != ' ';
      if k < |t| {
        assert t[k..][1..] == t[k + 1..];
      } else {
        assert t[k..] == [];
      }
    }
  }

  // ---------------------------------------------------------------------
  // The parameter table
  // ---------------------------------------------------------------------

  /** A token as a row holds it: at most 34 characters before the NUL. */
  function Clip(t: string): (r: string)
    ensures |r| <= |t| && |r| < MAX_LEN_PARAM && r == t[..|r|]
    ensures |t| < MAX_LEN_PARAM ==> r == t
  {
    if |t| < MAX_LEN_PARAM then t else t[..MAX_LEN_PARAM - 1]
  }

  /** The tokens a line leaves in the table: the first ten. */
  function Kept(line: string): (r: seq<string>)
    ensures |r| <= MAX_CNT_PARAM && |r| <= |Tokens(line)| && r == Tokens(line)[..|r|]
    ensures |Tokens(line)| <= MAX_CNT_PARAM ==> r == Tokens(line)
  {
    var ts := Tokens(line);
    if |ts| <= MAX_CNT_PARAM then ts else ts[..MAX_CNT_PARAM]
  }

  /** Character j of row r of the table that holds the given tokens. */
  function Cell(kept: seq<string>, r: nat, j: int): char
  {
    if r < |kept| && 0 <= j < |Clip(kept[r])| then Clip(kept[r])[j] else NUL
  }

  /** The C string of a row: the clipped token, or empty past the tokens. */
  lemma RowString(kept: seq<string>, r: nat)
    requires forall i :: 0 <= i < |kept| ==> NoNul(kept[i])
    ensures var row := seq(MAX_LEN_PARAM, j => Cell(kept, r, j));
      CStr(row) == if r < |kept| then Clip(kept[r]) else []
  {
    var row := seq(MAX_LEN_PARAM, j => Cell(kept, r, j));
    if r < |kept| {
      var c := Clip(kept[r]);
      assert forall j :: 0 <= j < |c| ==> c[j] != NUL by {
        forall j | 0 <= j < |c| ensures c[j] != NUL {
          assert c[j] == kept[r][j];
        }
      }
      StrLenAt(row, |c|);
      assert row[..|c|] == c;
    } else {
      StrLenAt(row, 0);
    }
  }

  /** GetParamVal as the code bounds it: no row past index 10. Index 10 is
   *  let through although the table's rows are 0..9. */
  function ParamRowAsWritten(index: nat): (r: Option<nat>)
    ensures r.None? <==> index > MAX_CNT_PARAM
  {
    if index > MAX_CNT_PARAM then None else Some(index)
  }

  /** The index the enumeration calls IND_PARAM10 addresses the row one past
   *  the table. */
  lemma ParamRowPastTable()
    ensures ParamRowAsWritten(MAX_CNT_PARAM) == Some(MAX_CNT_PARAM)
    ensures ParamRowAsWritten(MAX_CNT_PARAM).value >= MAX_CNT_PARAM
  {
  }

  /** The letters of `w` separated by single spaces. */
  function Spaced(w: string): (r: string)
    ensures |w| > 0 ==> |r| == 2 * |w| - 1
    decreases |w|
  {
    if |w| <= 1 then w else [w[0]] + [' '] + Spaced(w[1..])
  }

  /** Each letter of a spaced word without spaces is a token of its own. */
  lemma {:induction false} TokensSpaced(w: string)
    requires forall i :: 0 <= i < |w| ==> w[i] != ' '
    ensures |Tokens(Spaced(w))| == |w|
    decreases |w|
  {
    if |w| == 1 {
      TokensWord(w);
    } else if |w| > 1 {
      TokensSplit([w[0]], Spaced(w[1..]));
      TokensWord([w[0]]);
      TokensSpaced(w[1..]);
    }
  }

  /** The line "a b c d e f g h i j k" has 21 characters and 11 tokens: the
   *  loop as written copies the eleventh into row 10, past the table. */
  lemma ParseOverrunAsWritten()
    ensures var line := Spaced("abcdefghijk"); |line| == 21 && |Tokens(line)| == 11 > MAX_CNT_PARAM
  {
    TokensSpaced("abcdefghijk");
  }

  /** A 36-character word is one token, which the loop as written copies
   *  whole into a row of 35 characters, running into the next row. */
  lemma LongTokenAsWritten()
    ensures var w := seq(36, _ => 'x'); Tokens(w) == [w] && |w| > MAX_LEN_PARAM
  {
    var w := seq(36, _ => 'x');
    TokensWord(w);
  }

  // ---------------------------------------------------------------------
  // The parser state
  // ---------------------------------------------------------------------

  /** The statics of the tokenizer: the token count and the table, whose
   *  rows hold the kept tokens of the last line parsed. */
  class Parser {
    var cntPar: nat
    const paramList: array2<char>
    ghost var kept: seq<string>

    ghost predicate Valid()
      reads this, paramList
    {
      paramList.Length0 == MAX_CNT_PARAM && paramList.Length1 == MAX_LEN_PARAM &&
      |kept| <= MAX_CNT_PARAM && cntPar == |kept| && (forall i :: 0 <= i < |kept| ==> NoNul(kept[i])) &&
      forall r, j :: 0 <= r < MAX_CNT_PARAM && 0 <= j < MAX_LEN_PARAM ==> paramList[r, j] == Cell(kept, r, j)
    }

    /** Zero-initialised statics: no tokens. */
    constructor ()
      ensures Valid() && kept == [] && fresh(paramList)
    {
      cntPar := 0;
      kept := [];
      paramList := new char[MAX_CNT_PARAM, MAX_LEN_PARAM]((_, _) => NUL);
    }

    /** ParseCommand: cuts the line at its first control code, fills the
     *  table with its first ten tokens and returns their number. */
    method ParseCommand(cmnd: array<char>) returns (n: nat)
      requires Valid()
      modifies this, paramList, cmnd
      ensures Valid()
      ensures cmnd[..] == Stripped(old(cmnd[..]))
      ensures kept == Kept(CStr(cmnd[..])) && n == cntPar == |kept|
      ensures forall r, j :: 0 <= r < MAX_CNT_PARAM && 0 <= j < MAX_LEN_PARAM ==> paramList[r, j] == Cell(kept, r, j)
    {
      cntPar := 0;
      StripControls(cmnd);
      var line := CStr(cmnd[..]);
      ClearTable();
      var str := line;
      var i := 0;
      while i < MAX_CNT_PARAM
        invariant 0 <= i <= MAX_CNT_PARAM && |kept| == i
        invariant Tokens(line) == kept + Tokens(str)
        invariant NoNul(str) && forall m :: 0 <= m < |kept| ==> NoNul(kept[m])
        invariant forall r, j :: 0 <= r < MAX_CNT_PARAM && 0 <= j < MAX_LEN_PARAM ==> paramList[r, j] == Cell(kept, r, j)
        invariant paramList.Length0 == MAX_CNT_PARAM && paramList.Length1 == MAX_LEN_PARAM
        invariant cmnd[..] == Stripped(old(cmnd[..]))
      {
        StrTokTokens(str);
        StrTokNoNul(str);
        var tok := StrTok(str);
        if tok.None? {
          break;
        }
        CopyRow(i, tok.value.0);
        kept := kept + [tok.value.0];
        str := tok.value.1;
        i := i + 1;
      }
      cntPar := i;
      n := i;
    }

    /** The control-code loop over the line buffer. */
    static method StripControls(cmnd: array<char>)
      modifies cmnd
      ensures cmnd[..] == Stripped(old(cmnd[..]))
    {
      ghost var s0 := cmnd[..];
      ghost var k := FirstCtl(s0);
      StrLenCovers(s0);
      var i := 0;
      while i < StrLen(cmnd[..])
        invariant (i <= k && cmnd[..] == s0) || (i == k + 1 && k < |s0| && cmnd[..] == s0[k := NUL] && StrLen(cmnd[..]) == k)
        decreases cmnd.Length - i
      {
        if cmnd[i] < 32 as char {
          cmnd[i] := NUL;
          StrLenAt(cmnd[..], k);
        }
        i := i + 1;
      }
      if i <= k && k < |s0| {
        assert s0[k] == NUL by {
          StrLenAt(s0, StrLen(s0));
        }
        assert s0[k := NUL] == s0;
      }
    }

    /** memset of the whole table. */
    method ClearTable()
      requires paramList.Length0 == MAX_CNT_PARAM && paramList.Length1 == MAX_LEN_PARAM
      modifies this, paramList
      ensures kept == [] && cntPar == old(cntPar)
      ensures forall r, j :: 0 <= r < MAX_CNT_PARAM && 0 <= j < MAX_LEN_PARAM ==> paramList[r, j] == Cell(kept, r, j)
    {
      forall r, j | 0 <= r < MAX_CNT_PARAM && 0 <= j < MAX_LEN_PARAM {
        paramList[r, j] := NUL;
      }
      kept := [];
    }

    /** A token copied into an empty row, clipped to what the row holds. */
    method CopyRow(i: nat, t: string)
      requires paramList.Length0 == MAX_CNT_PARAM && paramList.Length1 == MAX_LEN_PARAM && i < MAX_CNT_PARAM
      modifies paramList
      ensures forall r, j :: 0 <= r < MAX_CNT_PARAM && 0 <= j < MAX_LEN_PARAM ==>
        paramList[r, j] == if r == i && j < |Clip(t)| then Clip(t)[j] else old(paramList[r, j])
    {
      var c := Clip(t);
      forall j | 0 <= j < |c| {
        paramList[i, j] := c[j];
      }
    }

    /** GetParamCnt: the token count of the last line parsed. */
    function GetParamCnt(): (n: nat)
      reads this, paramList
      requires Valid()
      ensures n == |kept| <= MAX_CNT_PARAM
    {
      cntPar
    }

    /** GetParamVal, with the bound the table needs: no parameter from index
     *  10 on; below it the C string of that row. */
    method GetParamVal(index: nat) returns (r: Option<string>)
      requires Valid()
      ensures r.None? <==> index >= MAX_CNT_PARAM
      ensures r.Some? ==> r.value == if index < |kept| then Clip(kept[index]) else []
    {
      if index >= MAX_CNT_PARAM {
        return None;
      }
      var s: string := [];
      var j := 0;
      while j < MAX_LEN_PARAM && paramList[index, j] != NUL
        invariant 0 <= j <= MAX_LEN_PARAM && |s| == j
        invariant forall m :: 0 <= m < j ==> s[m] == Cell(kept, index, m) != NUL
      {
        s := s + [paramList[index, j]];
        j := j + 1;
      }
      assert j < MAX_LEN_PARAM ==> Cell(kept, index, j) == NUL;
      if index < |kept| {
        var c := Clip(kept[index]);
        assert Cell(kept, index, |c|) == NUL;
        assert forall m :: 0 <= m < |c| ==> Cell(kept, index, m) == kept[index][m] != NUL;
        assert j == |c|;
        assert forall m :: 0 <= m < j ==> s[m] == c[m];
      } else {
        assert j == 0;
      }
      return Some(s);
    }
  }
}
