/**
 What `render_screen` of conformance/shared/common.py is for, said without its machine: lines written out are the
 lines shown, a character lands where the cursor was sent, and a move one way undoes the other.
 */
module Screenfuls {
  import opened Outcomes
  import opened Strings
  import opened EscapeTokens
  import opened Screens
  import opened ControlFunctions

  // ----- Plain text, character by character -----

  function TypeAll(scr: Screen, text: string): (after: Screen)
    requires scr.Valid()
    ensures after.Valid() && after.rows == scr.rows && after.columns == scr.columns
    decreases |text|
  {
    if text == "" then scr else TypeAll(Typed(scr, text[0]), text[1..])
  }

  lemma {:induction false} TypeAllJoins(scr: Screen, a: string, b: string)
    requires scr.Valid()
    ensures TypeAll(scr, a + b) == TypeAll(TypeAll(scr, a), b)
    decreases |a|
  {
    hide Typed;
    if a == "" {
      assert a + b == b;
    } else {
      assert (a + b)[1..] == a[1..] + b;
      TypeAllJoins(Typed(scr, a[0]), a[1..], b);
    }
  }

  lemma {:induction false} PlainTextIsTyped(num: Numerals, scr: Screen, text: string)
    requires scr.Valid() && ESC !in text
    ensures Play(num, scr, Tokens(text)) == Ok(TypeAll(scr, text))
    decreases |text|
  {
    hide Typed, Play;
    if text != "" {
      assert Next(text) == Char(text[0]) && Tokens(text) == [Char(text[0])] + Tokens(text[1..]);
      PlayNext(num, scr, Char(text[0]), Tokens(text[1..]));
      PlainTextIsTyped(num, Typed(scr, text[0]), text[1..]);
    } else {
      NothingPlays(num, scr);
    }
  }

  lemma NothingPlays(num: Numerals, scr: Screen)
    requires scr.Valid()
    ensures Play(num, scr, Tokens("")) == Ok(scr)
  {
  }

  // ----- A line -----

  predicate Printable(text: string) { forall i :: 0 <= i < |text| ==> text[i] >= ' ' }

  /** A line with `s` written over it from column `c` on. */
  function Over(line: string, c: nat, s: string): string
    requires c + |s| <= |line|
  {
    line[..c] + s + line[c + |s|..]
  }

  /** What is written from the cursor on stands there, and nothing else changes. */
  lemma {:induction false} LineIsTyped(scr: Screen, s: string)
    requires scr.Valid() && Printable(s) && scr.col + |s| <= scr.columns
    ensures TypeAll(scr, s) ==
      scr.(grid := scr.grid[scr.row := Over(scr.grid[scr.row], scr.col, s)],
           col := if scr.col + |s| < scr.columns then scr.col + |s| else scr.columns - 1)
    decreases |s|
  {
    var line := scr.grid[scr.row];
    if s == "" {
      assert Over(line, scr.col, s) == line;
    } else {
      var next := Typed(scr, s[0]);
      var written := line[scr.col := s[0]];
      assert next.grid == scr.grid[scr.row := written];
      if |s| == 1 {
        assert Over(line, scr.col, s) == written;
        assert TypeAll(next, s[1..]) == next;
      } else {
        assert next.col == scr.col + 1 && Printable(s[1..]);
        LineIsTyped(next, s[1..]);
        assert Over(written, scr.col + 1, s[1..]) == Over(line, scr.col, s);
      }
    }
  }

  lemma NewLine(scr: Screen)
    requires scr.Valid()
    ensures TypeAll(scr, "\r\n") ==
      if scr.row + 1 < scr.rows then scr.(col := 0, row := scr.row + 1)
      else scr.(col := 0, grid := scr.grid[1..] + [Blanks(scr.columns)])
  {
    assert "\r\n"[1..] == "\n" && "\n"[1..] == "";
    assert TypeAll(scr, "\r\n") == TypeAll(Typed(scr, '\r'), "\n") == TypeAll(Typed(Typed(scr, '\r'), '\n'), "");
  }

  // ----- A screenful -----

  /** Lines as a program writes them to a terminal. */
  function Written(lines: seq<string>): string {
    if lines == [] then ""
    else if |lines| == 1 then lines[0]
    else Written(lines[..|lines| - 1]) + "\r\n" + lines[|lines| - 1]
  }

  /** The lines there is room for: the last ones. */
  function Window(lines: seq<string>, rows: nat): (shown: seq<string>)
    ensures |shown| <= rows && (|lines| <= rows ==> shown == lines)
  {
    if |lines| <= rows then lines else lines[|lines| - rows..]
  }

  function Padded(line: string, columns: nat): (padded: string)
    ensures |line| <= columns ==> |padded| == columns
  {
    if |line| <= columns then line + Blanks(columns - |line|) else line
  }

  function Filled(lines: seq<string>, rows: nat, columns: nat): Grid {
    seq(rows, r requires 0 <= r < rows => if r < |lines| then Padded(lines[r], columns) else Blanks(columns))
  }

  ghost predicate Fits(lines: seq<string>, columns: nat) {
    forall i :: 0 <= i < |lines| ==> Printable(lines[i]) && |lines[i]| <= columns
  }

  lemma OneLineMore(lines: seq<string>, rows: nat, columns: nat, scr: Screen)
    requires rows > 0 && columns > 0 && |lines| > 1 && Fits(lines, columns)
    requires scr.Valid() && scr.rows == rows && scr.columns == columns
    requires var before := lines[..|lines| - 1];
      scr.grid == Filled(Window(before, rows), rows, columns) && scr.row == |Window(before, rows)| - 1
    ensures var after := TypeAll(scr, "\r\n" + lines[|lines| - 1]);
      after.grid == Filled(Window(lines, rows), rows, columns) && after.row == |Window(lines, rows)| - 1
  {
    hide Typed, TypeAll;
    var line := lines[|lines| - 1];
    var before := lines[..|lines| - 1];
    TypeAllJoins(scr, "\r\n", line);
    NewLine(scr);
    var down := TypeAll(scr, "\r\n");
    BlankBelow(scr, before, rows, columns);
    LineIsTyped(down, line);
    assert Over(Blanks(columns), 0, line) == Padded(line, columns);
    WindowMoves(lines, rows, columns);
  }

  /** Where the cursor is sent, nothing has been written yet. */
  lemma BlankBelow(scr: Screen, before: seq<string>, rows: nat, columns: nat)
    requires rows > 0 && columns > 0 && before != []
    requires scr.grid == Filled(Window(before, rows), rows, columns)
    ensures |before| < rows ==> scr.grid[|before|] == Blanks(columns)
  {
  }

  lemma WindowMoves(lines: seq<string>, rows: nat, columns: nat)
    requires rows > 0 && |lines| > 1
    ensures var before := lines[..|lines| - 1]; var grid := Filled(Window(before, rows), rows, columns);
      var padded := Padded(lines[|lines| - 1], columns);
      Filled(Window(lines, rows), rows, columns) ==
        if |before| < rows then grid[|before| := padded] else grid[1..] + [padded]
  {
    hide Padded;
    var before := lines[..|lines| - 1];
    if |before| >= rows {
      assert Window(lines, rows) == Window(before, rows)[1..] + [lines[|lines| - 1]];
    }
  }

  lemma {:induction false} LinesAreWritten(lines: seq<string>, rows: nat, columns: nat)
    requires rows > 0 && columns > 0 && lines != [] && Fits(lines, columns)
    ensures var after := TypeAll(Start(rows, columns), Written(lines));
      after.grid == Filled(Window(lines, rows), rows, columns) && after.row == |Window(lines, rows)| - 1
  {
    hide TypeAll;
    var n := |lines| - 1;
    if n == 0 {
      LineIsTyped(Start(rows, columns), lines[0]);
      assert Over(Blanks(columns), 0, lines[0]) == Padded(lines[0], columns);
    } else {
      LinesAreWritten(lines[..n], rows, columns);
      assert Written(lines) == Written(lines[..n]) + ("\r\n" + lines[n]);
      TypeAllJoins(Start(rows, columns), Written(lines[..n]), "\r\n" + lines[n]);
      OneLineMore(lines, rows, columns, TypeAll(Start(rows, columns), Written(lines[..n])));
    }
  }

  // ----- What is read off it -----

  predicate EndsBare(line: string) { line == "" || !IsSpace(line[|line| - 1]) }

  function Empties(n: nat): seq<string> { seq(n, _ => "") }

  lemma TrimmedRows(lines: seq<string>, rows: nat, columns: nat)
    requires |lines| <= rows && Fits(lines, columns) && forall i :: 0 <= i < |lines| ==> EndsBare(lines[i])
    ensures Rows(Filled(lines, rows, columns)) == lines + Empties(rows - |lines|)
  {
    hide TrimEnd;
    var grid := Filled(lines, rows, columns);
    forall r | 0 <= r < rows ensures TrimEnd(grid[r], IsSpace) == (lines + Empties(rows - |lines|))[r] {
      if r < |lines| {
        TrimEndDrops(lines[r], Blanks(columns - |lines[r]|), IsSpace);
      } else {
        TrimEndDrops("", Blanks(columns), IsSpace);
        assert "" + Blanks(columns) == Blanks(columns);
      }
    }
  }

  function Newlines(n: nat): (s: string)
    ensures |s| == n && forall i :: 0 <= i < n ==> s[i] == '\n'
  {
    seq(n, _ => '\n')
  }

  lemma {:induction false} EmptiesJoin(lines: seq<string>, n: nat)
    requires lines != []
    ensures Join(lines + Empties(n), '\n') == Join(lines, '\n') + Newlines(n)
    decreases |lines|, n
  {
    var all := lines + Empties(n);
    if |lines| > 1 {
      assert all[1..] == lines[1..] + Empties(n);
      EmptiesJoin(lines[1..], n);
    } else if n == 0 {
      assert all == lines;
    } else {
      assert all[1..] == [""] + Empties(n - 1);
      EmptiesJoinFromOne(n - 1);
      assert Join([""], '\n') == "";
      assert ['\n'] + Newlines(n - 1) == Newlines(n);
    }
  }

  lemma {:induction false} EmptiesJoinFromOne(n: nat)
    ensures Join([""] + Empties(n), '\n') == Newlines(n)
  {
    var all := [""] + Empties(n);
    if n > 0 {
      assert all[1..] == [""] + Empties(n - 1);
      EmptiesJoinFromOne(n - 1);
      assert ['\n'] + Newlines(n - 1) == Newlines(n);
    }
  }

  lemma {:induction false} JoinEdges(lines: seq<string>)
    requires lines != [] && lines[0] != "" && lines[|lines| - 1] != ""
    ensures var s := Join(lines, '\n'); var last := lines[|lines| - 1];
      s != "" && s[0] == lines[0][0] && s[|s| - 1] == last[|last| - 1]
  {
    if |lines| > 1 { JoinEnd(lines); }
  }

  lemma {:induction false} JoinEnd(lines: seq<string>)
    requires lines != [] && lines[|lines| - 1] != ""
    ensures var s := Join(lines, '\n'); var last := lines[|lines| - 1];
      s != "" && s[|s| - 1] == last[|last| - 1]
  {
    if |lines| > 1 { JoinEnd(lines[1..]); }
  }

  lemma NoNewlineAtTheEdges(lines: seq<string>, columns: nat)
    requires lines != [] && Fits(lines, columns) && lines[0] != "" && lines[|lines| - 1] != ""
    ensures var s := Join(lines, '\n'); s != "" && s[0] != '\n' && s[|s| - 1] != '\n'
  {
    hide Join;
    JoinEdges(lines);
    assert Printable(lines[0]) && Printable(lines[|lines| - 1]);
  }

  lemma ShownIs(grid: Grid)
    ensures Shown(grid) == TrimEnd(TrimStart(Join(Rows(grid), '\n'), IsNewline), IsNewline)
  {
    hide Rows, Join, TrimEnd, TrimStart;
  }

  lemma RowsAreJoined(lines: seq<string>, rows: nat, columns: nat)
    requires 0 < |lines| <= rows && Fits(lines, columns) && forall i :: 0 <= i < |lines| ==> EndsBare(lines[i])
    ensures Join(Rows(Filled(lines, rows, columns)), '\n') == Join(lines, '\n') + Newlines(rows - |lines|)
  {
    hide *;
    TrimmedRows(lines, rows, columns);
    EmptiesJoin(lines, rows - |lines|);
  }

  lemma FilledIsShown(lines: seq<string>, rows: nat, columns: nat)
    requires 0 < |lines| <= rows && Fits(lines, columns) && forall i :: 0 <= i < |lines| ==> EndsBare(lines[i])
    requires lines[0] != "" && lines[|lines| - 1] != ""
    ensures Shown(Filled(lines, rows, columns)) == Join(lines, '\n')
  {
    hide *;
    ShownIs(Filled(lines, rows, columns));
    RowsAreJoined(lines, rows, columns);
    NoNewlineAtTheEdges(lines, columns);
    NewlinesAreTrimmed(Join(lines, '\n'), rows - |lines|);
  }

  lemma NewlinesAreTrimmed(s: string, n: nat)
    requires s != "" && s[0] != '\n' && s[|s| - 1] != '\n'
    ensures TrimEnd(TrimStart(s + Newlines(n), IsNewline), IsNewline) == s
  {
    hide TrimEnd, TrimStart;
    assert "" + (s + Newlines(n)) == s + Newlines(n);
    TrimStartDrops("", s + Newlines(n), IsNewline);
    TrimEndDrops(s, Newlines(n), IsNewline);
  }

  lemma {:induction false} WrittenIsPlain(lines: seq<string>, columns: nat)
    requires Fits(lines, columns)
    ensures ESC !in Written(lines)
  {
    if |lines| > 1 { WrittenIsPlain(lines[..|lines| - 1], columns); }
  }

  lemma StartIsValid(rows: nat, columns: nat)
    requires rows > 0 && columns > 0
    ensures Start(rows, columns).Valid() && Start(rows, columns).rows == rows && Start(rows, columns).columns == columns
  {
  }

  lemma WindowFits(lines: seq<string>, rows: nat, columns: nat)
    requires rows > 0 && lines != [] && Fits(lines, columns) && forall i :: 0 <= i < |lines| ==> EndsBare(lines[i])
    ensures var window := Window(lines, rows);
      && 0 < |window| <= rows && Fits(window, columns) && forall i :: 0 <= i < |window| ==> EndsBare(window[i])
  {
    hide EndsBare, Printable;
  }

  /**
   Lines that fit the width, written out one under the other, are shown as they are: all of them, or the last as
   many as there are rows, having scrolled.
   */
  lemma LinesAreShown(num: Numerals, lines: seq<string>, rows: nat, columns: nat)
    requires rows > 0 && columns > 0 && lines != [] && Fits(lines, columns)
    requires forall i :: 0 <= i < |lines| ==> EndsBare(lines[i])
    requires var window := Window(lines, rows); window[0] != "" && window[|window| - 1] != ""
    ensures Rendered(num, Written(lines), columns, rows) == Ok(Join(Window(lines, rows), '\n'))
  {
    hide *;
    WindowFits(lines, rows, columns);
    WrittenIsPlain(lines, columns);
    assert Start(rows, columns).Valid() by { StartIsValid(rows, columns); }
    PlainTextIsTyped(num, Start(rows, columns), Written(lines));
    LinesAreWritten(lines, rows, columns);
    FilledIsShown(Window(lines, rows), rows, columns);
    RenderedIs(num, Written(lines), columns, rows);
  }

  // ----- The cursor -----

  /** A printed character lands in the cell the cursor was sent to, counted from one, and in no other. */
  lemma ACharacterLandsWhereItIsSent(num: Numerals, scr: Screen, params: string, row: nat, col: nat, ch: char)
    requires scr.Valid() && ch >= ' ' && params != ""
    requires 0 < row <= scr.rows && 0 < col <= scr.columns && Numbers(num, params) == Ok([row, col])
    ensures var after := Play(num, scr, [Csi(params, 'H'), Char(ch)]);
      && after.Ok? && after.value.row == row - 1 && after.value.primary == scr.primary
      && (forall r, c :: 0 <= r < scr.rows && 0 <= c < scr.columns ==>
            after.value.grid[r][c] == if r == row - 1 && c == col - 1 then ch else scr.grid[r][c])
  {
    hide Play;
    var sent := Step(num, scr, Csi(params, 'H')).value;
    assert sent == scr.(row := row - 1, col := col - 1);
    PlayTwo(num, scr, Csi(params, 'H'), Char(ch));
  }

  lemma PlayTwo(num: Numerals, scr: Screen, a: Token, b: Token)
    requires scr.Valid()
    ensures var first := Step(num, scr, a);
      Play(num, scr, [a, b]) == if first.Err? then first else Step(num, first.value, b)
  {
    hide Step, Play;
    var first := Step(num, scr, a);
    assert [a] + [b] == [a, b] && [b] + [] == [b];
    PlayNext(num, scr, a, [b]);
    if first.Ok? {
      PlayNext(num, first.value, b, []);
      var second := Step(num, first.value, b);
      if second.Ok? { NothingPlays(num, second.value); }
    }
  }

  /** Which way each of the four moves goes, as rows and columns. */
  function Toward(final: char): (int, int) {
    if final == 'A' then (-1, 0) else if final == 'B' then (1, 0) else if final == 'C' then (0, 1) else (0, -1)
  }

  /** With room for it, a move goes its way and no other, and the opposite one undoes it. */
  lemma MovesAreUndone(num: Numerals, scr: Screen, params: string, n: nat, go: char, back: char)
    requires scr.Valid() && n > 0 && Numbers(num, params) == Ok([n])
    requires (go, back) in {('A', 'B'), ('B', 'A'), ('C', 'D'), ('D', 'C')}
    requires 0 <= scr.row + n * Toward(go).0 < scr.rows && 0 <= scr.col + n * Toward(go).1 < scr.columns
    ensures Step(num, scr, Csi(params, go)) ==
      Ok(scr.(row := scr.row + n * Toward(go).0, col := scr.col + n * Toward(go).1))
    ensures Play(num, scr, [Csi(params, go), Csi(params, back)]) == Ok(scr)
  {
    hide Play;
    PlayTwo(num, scr, Csi(params, go), Csi(params, back));
  }

  // ----- What is taken back -----

  lemma {:induction false} TrimEndIgnores(s: string, pad: string)
    requires forall i :: 0 <= i < |pad| ==> pad[i] == ' '
    ensures TrimEnd(s + pad, IsSpace) == TrimEnd(s, IsSpace)
    decreases |pad|
  {
    if pad == "" {
      assert s + pad == s;
    } else {
      assert (s + pad)[..|s + pad| - 1] == s + pad[..|pad| - 1];
      TrimEndIgnores(s, pad[..|pad| - 1]);
    }
  }

  lemma {:induction false} TrimEndIsPrefix(s: string)
    ensures var t := TrimEnd(s, IsSpace);
      && |t| <= |s| && t == s[..|t|] && EndsBare(t) && (Printable(s) ==> Printable(t))
  {
    if s != "" && IsSpace(s[|s| - 1]) { TrimEndIsPrefix(s[..|s| - 1]); }
  }

  lemma {:induction false} OnlyNewlines(n: nat)
    ensures TrimEnd(TrimStart(Newlines(n), IsNewline), IsNewline) == ""
  {
    TrimStartDrops(Newlines(n), "", IsNewline);
    assert Newlines(n) + "" == Newlines(n);
  }

  lemma RowTrimmed(line: string, r: nat, rows: nat, columns: nat)
    requires r < rows && |line| <= columns
    ensures TrimEnd(Filled([line], rows, columns)[r], IsSpace) == if r == 0 then TrimEnd(line, IsSpace) else ""
  {
    hide TrimEnd;
    if r == 0 {
      TrimEndIgnores(line, Blanks(columns - |line|));
    } else {
      TrimEndDrops("", Blanks(columns), IsSpace);
      assert "" + Blanks(columns) == Blanks(columns);
    }
  }

  lemma TopRowsTrimmed(line: string, rows: nat, columns: nat)
    requires rows > 0 && |line| <= columns
    ensures Rows(Filled([line], rows, columns)) == [TrimEnd(line, IsSpace)] + Empties(rows - 1)
  {
    hide TrimEnd;
    forall r | 0 <= r < rows
      ensures Rows(Filled([line], rows, columns))[r] == ([TrimEnd(line, IsSpace)] + Empties(rows - 1))[r]
    {
      RowTrimmed(line, r, rows, columns);
    }
  }

  /** A grid with something in its first row alone shows that row, or nothing. */
  lemma TopRowIsShown(line: string, rows: nat, columns: nat)
    requires rows > 0 && Printable(line) && |line| <= columns
    ensures Shown(Filled([line], rows, columns)) == TrimEnd(line, IsSpace)
  {
    hide *;
    var t := TrimEnd(line, IsSpace);
    ShownIs(Filled([line], rows, columns));
    TopRowsTrimmed(line, rows, columns);
    EmptiesJoin([t], rows - 1);
    JoinOfOne(t);
    TrimEndIsPrefix(line);
    if t == "" {
      assert "" + Newlines(rows - 1) == Newlines(rows - 1);
      OnlyNewlines(rows - 1);
    } else {
      PrintableIsNoNewline(t);
      NewlinesAreTrimmed(t, rows - 1);
    }
  }

  lemma JoinOfOne(line: string)
    ensures Join([line], '\n') == line
  {
  }

  lemma PrintableIsNoNewline(line: string)
    requires Printable(line) && line != ""
    ensures line[0] != '\n' && line[|line| - 1] != '\n'
  {
  }

  lemma TwoTokens(a: Token, b: Token)
    requires a.WellFormed() && a.Complete() && b.WellFormed()
    ensures Tokens(a.Raw() + b.Raw()) == [a, b]
  {
    hide Token.Raw, Token.WellFormed, Token.Complete, Tokens;
    assert [a, b][1..] == [b] && [b][1..] == [];
    assert Raws([a, b]) == a.Raw() + (b.Raw() + Raws([])) && b.Raw() + Raws([]) == b.Raw();
    TokensAreUnique([a, b]);
  }

  /** Digits are no final byte. */
  lemma ErasingTokens(d: string)
    requires forall i :: 0 <= i < |d| ==> '0' <= d[i] <= '9'
    ensures Tokens([ESC, '['] + d + ['D', ESC, '[', 'K']) == [Csi(d, 'D'), Csi("", 'K')]
  {
    hide Tokens, UntilFinal;
    var back, erase := Csi(d, 'D'), Csi("", 'K');
    FinalIsFirst(d, |d|);
    FinalIsFirst("", 0);
    TwoTokens(back, erase);
    assert back.Raw() + erase.Raw() == [ESC, '['] + d + ['D', ESC, '[', 'K'];
  }

  lemma {:induction false} PlainEndsOnBoundary(s: string)
    requires ESC !in s
    ensures EndsOnBoundary(s)
  {
    if s != "" { PlainEndsOnBoundary(s[1..]); }
  }

  /** The line stands in the first row, and nothing else does. */
  ghost predicate OnTop(grid: Grid, line: string, rows: nat, columns: nat) {
    && 0 < rows && |line| <= columns && Shaped(grid, rows, columns)
    && (forall c :: 0 <= c < |line| ==> grid[0][c] == line[c])
    && (forall c :: |line| <= c < columns ==> grid[0][c] == ' ')
    && (forall r, c :: 0 < r < rows && 0 <= c < columns ==> grid[r][c] == ' ')
  }

  lemma LineOnTop(rows: nat, columns: nat, s: string)
    requires rows > 0 && Printable(s) && |s| < columns
    ensures Start(rows, columns).Valid()
    ensures var typed := TypeAll(Start(rows, columns), s);
      && typed.rows == rows && typed.columns == columns && typed.row == 0 && typed.col == |s|
      && OnTop(typed.grid, s, rows, columns)
  {
    hide Typed, TypeAll, Over;
    LineIsTyped(Start(rows, columns), s);
    OverBlanks(s, columns);
  }

  lemma OverBlanks(s: string, columns: nat)
    requires |s| <= columns
    ensures Over(Blanks(columns), 0, s) == s + Blanks(columns - |s|)
  {
  }

  /** The line as it stands once its last `n` characters have been gone back over and cleared. */
  lemma TailIsCleared(num: Numerals, typed: Screen, s: string, n: nat, d: string)
    requires typed.Valid() && 0 < n <= |s| < typed.columns && typed.row == 0 && typed.col == |s|
    requires OnTop(typed.grid, s, typed.rows, typed.columns)
    requires Numbers(num, d) == Ok([n]) && Numbers(num, "") == Ok([0])
    ensures var after := Play(num, typed, [Csi(d, 'D'), Csi("", 'K')]);
      after.Ok? && OnTop(after.value.grid, s[..|s| - n], typed.rows, typed.columns)
  {
    hide Step, Play, Numbers;
    PlayTwo(num, typed, Csi(d, 'D'), Csi("", 'K'));
    CursorMoves(num, typed, d, [n]);
    var back := Step(num, typed, Csi(d, 'D')).value;
    assert back == typed.(col := |s| - n);
    EraseInLine(num, back, "", [0]);
    var grid := Step(num, back, Csi("", 'K')).value.grid;
    assert forall c :: 0 <= c < |s| - n ==> grid[0][c] == typed.grid[0][c] == s[..|s| - n][c];
    assert forall r, c :: 0 < r < typed.rows && 0 <= c < typed.columns ==> grid[r][c] == typed.grid[r][c];
  }

  lemma OnTopIsFilled(grid: Grid, line: string, rows: nat, columns: nat)
    requires OnTop(grid, line, rows, columns)
    ensures grid == Filled([line], rows, columns)
  {
    var filled := Filled([line], rows, columns);
    assert filled[0] == line + Blanks(columns - |line|);
    assert forall r :: 0 < r < rows ==> filled[r] == Blanks(columns);
    SameCells(grid, filled, rows, columns);
  }

  /**
   Going back over the last `n` characters of a line and erasing from there shows the line without them, and
   without the spaces that then end it.
   */
  lemma AnErasedTailIsNotShown(num: Numerals, s: string, n: nat, d: string, rows: nat, columns: nat)
    requires rows > 0 && Printable(s) && 0 < n <= |s| < columns
    requires forall i :: 0 <= i < |d| ==> '0' <= d[i] <= '9'
    requires num(d) == Number(n) && num("") == NotDigits
    ensures Rendered(num, s + ([ESC, '['] + d + ['D', ESC, '[', 'K']), columns, rows) ==
      Ok(TrimEnd(s[..|s| - n], IsSpace))
  {
    hide *;
    var tail := [ESC, '['] + d + ['D', ESC, '[', 'K'];
    RenderedIs(num, s + tail, columns, rows);
    PrintableIsPlain(s);
    PlainEndsOnBoundary(s);
    RenderingResumes(num, Start(rows, columns), s, tail);
    PlainTextIsTyped(num, Start(rows, columns), s);
    ErasingTokens(d);
    OneNumber(num, d, n);
    LineOnTop(rows, columns, s);
    TailIsCleared(num, TypeAll(Start(rows, columns), s), s, n, d);
    OnTopIsFilled(Play(num, Start(rows, columns), Tokens(s + tail)).value.grid, s[..|s| - n], rows, columns);
    FrontIsPrintable(s, |s| - n);
    TopRowIsShown(s[..|s| - n], rows, columns);
  }

  lemma PrintableIsPlain(s: string)
    requires Printable(s)
    ensures ESC !in s
  {
  }

  lemma FrontIsPrintable(s: string, m: nat)
    requires Printable(s) && m <= |s|
    ensures Printable(s[..m])
  {
  }

  lemma OneNumber(num: Numerals, d: string, n: nat)
    requires forall i :: 0 <= i < |d| ==> '0' <= d[i] <= '9'
    requires num(d) == Number(n) && num("") == NotDigits
    ensures Numbers(num, d) == Ok([n]) && Numbers(num, "") == Ok([0])
  {
    hide Numbers;
    ParametersAreRead(num, [d]);
    ParametersAreRead(num, [""]);
    assert Join([d], ';') == d && Join([""], ';') == "";
    assert Numbers(num, d).value == [n] && Numbers(num, "").value == [0];
  }

  /** Such as five characters, three of them taken back. */
  lemma ThreeTakenBack(num: Numerals, rows: nat, columns: nat)
    requires rows > 0 && columns > 5 && num("3") == Number(3) && num("") == NotDigits
    ensures Rendered(num, "hello" + ([ESC, '['] + "3" + ['D', ESC, '[', 'K']), columns, rows) == Ok("he")
  {
    AnErasedTailIsNotShown(num, "hello", 3, "3", rows, columns);
    assert "hello"[..2] == "he";
  }
}
