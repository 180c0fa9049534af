/** The interactive text front end (cli.cpp): the board letters it prints and the millisecond
 *  argument of its `go` and `auto` commands. Its legality test, `has_any_legal_move`, is
 *  `Legal.HasAnyLegalMove`. */
module Cli {
  import opened Types
  import opened Wrappers
  import opened Text
  import opened Decimal
  import opened PositionSpec
  import Fen
  import Uci

  /** `piece_char`: the letter `print_board` shows for a board entry, upper case for White,
   *  lower case for Black, and `.` for an empty square. */
  function PieceChar(code: BoardCode): (ch: char)
    ensures ch == '.' <==> code == EMPTY_CODE
    ensures code < 6 ==> 'A' <= ch <= 'Z'
    ensures 6 <= code < 12 ==> 'a' <= ch <= 'z'
  {
    if code == 12 then '.'
    else
      var c := code / 6;
      var p := code % 6;
      if c == 0 then "PNBRQK"[p] else "pnbrqk"[p]
  }

  /** The letters on the board are the ones a FEN uses: the FEN reader turns the letter of every
   *  piece code back into that piece and colour. */
  lemma PieceCharIsFenLetter(c: Color, p: RealPiece)
    ensures Fen.LetterPiece(PieceChar(Code(c, p))) == p
    ensures Fen.LetterColor(PieceChar(Code(c, p))) == c
  {
  }

  /** Different board entries print differently. */
  lemma PieceCharInjective(a: BoardCode, b: BoardCode)
    requires a != b
    ensures PieceChar(a) != PieceChar(b)
  {
  }

  /** The milliseconds of `go <ms>` and `auto <ms>`: the word after the command is read into
   *  an `int` that starts at 200, and a value of 0 or below becomes 1. */
  function MillisArg(line: string): (ms: int)
    ensures 1 <= ms <= INT_MAX
  {
    match NextWord(line, C_SPACE, 0)
    case NoWord => 200
    case Word(_, e) =>
      var n := Extracted(200, ReadInt(line, e));
      if n <= 0 then 1 else n
  }

  /** Without an argument the budget is 200 ms. */
  lemma MillisDefault(cmd: string)
    requires Uci.IsWord(cmd)
    ensures MillisArg(cmd) == 200
    ensures MillisArg(cmd + " ") == 200
  {
    Uci.WordAt(cmd, 0, 0, cmd);
    var t := cmd + " ";
    assert t[0..|cmd|] == cmd;
    Uci.WordAt(t, 0, 0, cmd);
    assert t[|cmd|..] == " ";
  }

  /** A number after the command is the budget when it is positive, and 1 otherwise. */
  lemma MillisOfString(cmd: string, n: int)
    requires Uci.IsWord(cmd) && INT_MIN <= n <= INT_MAX
    ensures MillisArg(cmd + " " + IntToString(n)) == if n <= 0 then 1 else n
  {
    Uci.IntToStringReads(n);
    MillisOfNumeral(cmd, IntToString(n), n);
  }

  /** The same for any numeral that `>>` reads as `n`. */
  lemma MillisOfNumeral(cmd: string, d: string, n: int)
    requires Uci.IsWord(cmd) && Uci.NumeralReads(d, n)
    ensures MillisArg(cmd + " " + d) == if n <= 0 then 1 else n
  {
    var line := cmd + " " + d;
    Uci.Middle(cmd, " ", d);
    Uci.WordAt(line, 0, 0, cmd);
    Uci.NumeralAt(line, |cmd|, d, n);
  }

  /** A word that does not start with a digit or a sign makes the read fail and store 0, so
   *  the budget becomes 1 ms, not the 200 ms default. */
  lemma MillisOfWord(cmd: string, w: string)
    requires Uci.IsWord(cmd) && Uci.IsWord(w) && !IsDigit(w[0]) && w[0] != '+' && w[0] != '-'
    ensures MillisArg(cmd + " " + w) == 1
  {
    var line := cmd + " " + w;
    Uci.Middle(cmd, " ", w);
    Uci.WordAt(line, 0, 0, cmd);
    var t := line[|cmd|..];
    assert t == " " + w;
    assert SkipLead(t, C_SPACE, 0) == 1 by {
      assert t[1] == w[0];
    }
  }
}
