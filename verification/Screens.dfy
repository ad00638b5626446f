/**
 The grid that `render_screen` of conformance/shared/common.py replays a terminal stream on, as a
 machine over the tokens of EscapeTokens: the cursor, erase and position functions of section 8.3 of
 ECMA-48 and xterm's private mode 1049.

 The functions say what each function does to every cell; the methods do it by slices, in place.
 */
module Screens {
  import opened Outcomes
  import opened EscapeTokens
  import opened Strings

  type Grid = seq<seq<char>>

  datatype Saved = Saved(grid: Grid, row: nat, col: nat)

  datatype Screen = Screen(rows: nat, columns: nat, grid: Grid, row: nat, col: nat, primary: Option<Saved>) {
    /** The live grid and any saved one are exactly rows by columns, and the cursors are in them. */
    ghost predicate Valid() {
      && row < rows && col < columns && Shaped(grid, rows, columns)
      && (primary.Some? ==>
            primary.value.row < rows && primary.value.col < columns && Shaped(primary.value.grid, rows, columns))
    }
  }

  /** What a parameter reads as: which strings are digits, and which of those `int` refuses, is Python's. */
  datatype Numeral = NotDigits | Number(n: nat) | Refused

  type Numerals = string -> Numeral

  datatype Raised = ValueError

  const ALTERNATE := "?1049"

  ghost predicate Shaped(grid: Grid, rows: nat, columns: nat) {
    |grid| == rows && forall r :: 0 <= r < rows ==> |grid[r]| == columns
  }

  function Blanks(n: nat): (line: string)
    ensures |line| == n && forall c :: 0 <= c < n ==> line[c] == ' '
  {
    seq(n, _ => ' ')
  }

  function Blank(rows: nat, columns: nat): (grid: Grid)
    ensures Shaped(grid, rows, columns)
  {
    seq(rows, _ => Blanks(columns))
  }

  function Start(rows: nat, columns: nat): Screen {
    Screen(rows, columns, Blank(rows, columns), 0, 0, None)
  }

  // ----- Parameters -----

  function NumbersOf(num: Numerals, pieces: seq<string>): (numbers: Result<seq<nat>, Raised>)
    ensures numbers.Ok? ==> |numbers.value| == |pieces|
    ensures numbers.Err? <==> exists piece :: piece in pieces && num(piece).Refused?
  {
    if pieces == [] then Ok([]) else
      var rest := NumbersOf(num, pieces[1..]);
      assert pieces == [pieces[0]] + pieces[1..];
      match num(pieces[0])
      case Refused => assert num(pieces[0]).Refused?; Err(ValueError)
      case Number(n) => if rest.Ok? then Ok([n] + rest.value) else rest
      case NotDigits => if rest.Ok? then Ok([0] + rest.value) else rest
  }

  function Numbers(num: Numerals, params: string): (numbers: Result<seq<nat>, Raised>)
    ensures numbers.Ok? ==> numbers.value != []
  {
    NumbersOf(num, Split(params, ';'))
  }

  // ----- What a control function does -----

  /** A count of zero means one. */
  function Times(n: nat): nat {
    if n == 0 then 1 else n
  }

  function Back(at: nat, steps: nat): nat {
    if steps <= at then at - steps else 0
  }

  function Ahead(at: nat, steps: nat, size: nat): nat
    requires size > 0
  {
    if at + steps < size then at + steps else size - 1
  }

  /** The place a one-based coordinate names, with zero meaning one. */
  function Place(coordinate: nat, size: nat): nat
    requires size > 0
  {
    Ahead(0, Times(coordinate) - 1, size)
  }

  /** Whether an erasing function, from a cursor at (row, col), clears cell (r, c). */
  predicate Clears(final: char, first: nat, row: int, col: int, r: int, c: int) {
    if final == 'K' then r == row && (if first == 0 then col <= c else if first == 1 then c <= col else true)
    else if final == 'J' then first == 2 || (first == 0 && (r > row || (r == row && col <= c)))
    else final == 'X' && r == row && col <= c < col + Times(first)
  }

  function Erased(grid: Grid, final: char, first: nat, row: int, col: int): (cleared: Grid)
    ensures |cleared| == |grid|
    ensures forall r :: 0 <= r < |grid| ==> |cleared[r]| == |grid[r]|
    ensures forall r, c :: 0 <= r < |grid| && 0 <= c < |grid[r]| ==>
      cleared[r][c] == if Clears(final, first, row, col, r, c) then ' ' else grid[r][c]
  {
    seq(|grid|, r requires 0 <= r < |grid| =>
      seq(|grid[r]|, c requires 0 <= c < |grid[r]| =>
        if Clears(final, first, row, col, r, c) then ' ' else grid[r][c]))
  }

  function Controlled(scr: Screen, params: string, final: char, numbers: seq<nat>): (after: Screen)
    requires scr.Valid() && numbers != []
    ensures after.Valid() && after.rows == scr.rows && after.columns == scr.columns
  {
    var first := numbers[0];
    if final == 'A' then scr.(row := Back(scr.row, Times(first)))
    else if final == 'B' then scr.(row := Ahead(scr.row, Times(first), scr.rows))
    else if final == 'C' then scr.(col := Ahead(scr.col, Times(first), scr.columns))
    else if final == 'D' then scr.(col := Back(scr.col, Times(first)))
    else if final == 'H' || final == 'f' then
      scr.(row := if params == "" then 0 else Place(first, scr.rows),
           col := if |numbers| > 1 then Place(numbers[1], scr.columns) else 0)
    else if final == 'K' || final == 'J' || final == 'X' then
      scr.(grid := Erased(scr.grid, final, first, scr.row, scr.col))
    else if params == ALTERNATE && final == 'h' && scr.primary.None? then
      scr.(grid := Blank(scr.rows, scr.columns), primary := Some(Saved(scr.grid, scr.row, scr.col)))
    else if params == ALTERNATE && final == 'l' && scr.primary.Some? then
      var Saved(grid, row, col) := scr.primary.value;
      scr.(grid := grid, row := row, col := col, primary := None)
    else scr
  }

  // ----- What a character does -----

  function Typed(scr: Screen, ch: char): (after: Screen)
    requires scr.Valid()
    ensures after.Valid() && after.rows == scr.rows && after.columns == scr.columns && after.primary == scr.primary
  {
    if ch == '\r' then scr.(col := 0)
    else if ch == '\n' then
      if scr.row + 1 < scr.rows then scr.(row := scr.row + 1)
      else scr.(grid := scr.grid[1..] + [Blanks(scr.columns)])
    else if ch == '\U{08}' then scr.(col := Back(scr.col, 1))
    else if ch == '\t' then scr.(col := Ahead(0, (scr.col / 8 + 1) * 8, scr.columns))
    else if ch >= ' ' then
      scr.(grid := scr.grid[scr.row := scr.grid[scr.row][scr.col := ch]], col := Ahead(scr.col, 1, scr.columns))
    else scr
  }

  // ----- The machine over tokens -----

  function Step(num: Numerals, scr: Screen, token: Token): (after: Result<Screen, Raised>)
    requires scr.Valid()
    ensures after.Ok? ==>
      after.value.Valid() && after.value.rows == scr.rows && after.value.columns == scr.columns
  {
    match token
    case Char(c) => Ok(Typed(scr, c))
    case Csi(params, final) =>
      (match Numbers(num, params)
       case Err(error) => Err(error)
       case Ok(numbers) => Ok(Controlled(scr, params, final, numbers)))
    case _ => Ok(scr)
  }

  function Play(num: Numerals, scr: Screen, tokens: seq<Token>): (after: Result<Screen, Raised>)
    requires scr.Valid()
    decreases |tokens|
    ensures after.Ok? ==>
      after.value.Valid() && after.value.rows == scr.rows && after.value.columns == scr.columns
  {
    if tokens == [] then Ok(scr) else
      var after := Step(num, scr, tokens[0]);
      if after.Err? then after else Play(num, after.value, tokens[1..])
  }

  // ----- What is read off the grid at the end -----

  predicate IsNewline(c: char) { c == '\n' }

  /** The rows of a grid, their trailing spaces dropped. */
  function Rows(grid: Grid): seq<string> {
    seq(|grid|, r requires 0 <= r < |grid| => TrimEnd(grid[r], IsSpace))
  }

  function Shown(grid: Grid): string {
    TrimEnd(TrimStart(Join(Rows(grid), '\n'), IsNewline), IsNewline)
  }

  function Rendered(num: Numerals, text: string, columns: nat, rows: nat): Result<string, Raised>
    requires rows > 0 && columns > 0
  {
    match Play(num, Start(rows, columns), Tokens(text))
    case Err(error) => Err(error)
    case Ok(scr) => Ok(Shown(scr.grid))
  }

  // ----- render_screen, in place -----

  class Terminal {
    const rows: nat
    const columns: nat
    var grid: Grid
    var row: int
    var col: int
    var primary: Option<Saved>
    ghost var typed: string  // the characters that reached the grid's dispatch

    ghost predicate Valid()
      reads this
    {
      0 <= row && 0 <= col && Screen(rows, columns, grid, row, col, primary).Valid()
    }

    ghost function Now(): (scr: Screen)
      requires Valid()
      reads this
      ensures scr.Valid()
    {
      Screen(rows, columns, grid, row, col, primary)
    }

    constructor (rows: nat, columns: nat)
      requires rows > 0 && columns > 0
      ensures Valid() && Now() == Start(rows, columns) && typed == ""
    {
      this.rows, this.columns := rows, columns;
      grid := Blank(rows, columns);
      row, col := 0, 0;
      primary := None;
      typed := "";
    }

    method Clamp()
      requires rows > 0 && columns > 0
      modifies `row, `col
      ensures row == if old(row) < 0 then 0 else if old(row) >= rows then rows - 1 else old(row)
      ensures col == if old(col) < 0 then 0 else if old(col) >= columns then columns - 1 else old(col)
    {
      row := if row < rows - 1 then row else rows - 1;
      row := if row < 0 then 0 else row;
      col := if col < columns - 1 then col else columns - 1;
      col := if col < 0 then 0 else col;
    }

    method EraseLine(first: nat)
      requires Valid()
      modifies `grid
      ensures Shaped(grid, rows, columns)
      ensures grid == Erased(old(grid), 'K', first, row, col)
    {
      var line := grid[row];
      if first == 0 {
        grid := grid[row := line[..col] + Blanks(columns - col)];
      } else if first == 1 {
        grid := grid[row := Blanks(col + 1) + line[col + 1..]];
      } else {
        grid := grid[row := Blanks(columns)];
      }
      SameCells(grid, Erased(old(grid), 'K', first, row, col), rows, columns);
    }

    method EraseDisplay(first: nat)
      requires Valid()
      modifies `grid
      ensures Shaped(grid, rows, columns)
      ensures grid == Erased(old(grid), 'J', first, row, col)
    {
      if first == 0 {
        grid := grid[row := grid[row][..col] + Blanks(columns - col)];
        for r := row + 1 to rows
          invariant Shaped(grid, rows, columns)
          invariant forall k :: 0 <= k < row || r <= k < rows ==> grid[k] == old(grid)[k]
          invariant forall c :: 0 <= c < columns ==> grid[row][c] == if col <= c then ' ' else old(grid)[row][c]
          invariant forall k :: row < k < r ==> grid[k] == Blanks(columns)
        {
          grid := grid[r := Blanks(columns)];
        }
      } else if first == 2 {
        grid := Blank(rows, columns);
      }
      SameCells(grid, Erased(old(grid), 'J', first, row, col), rows, columns);
    }

    method EraseCharacters(first: nat)
      requires Valid()
      modifies `grid
      ensures Shaped(grid, rows, columns)
      ensures grid == Erased(old(grid), 'X', first, row, col)
    {
      var width := if first > 1 then first else 1;
      var span := if width < columns - col then width else columns - col;
      var line := grid[row];
      grid := grid[row := line[..col] + Blanks(span) + line[col + span..]];
      SameCells(grid, Erased(old(grid), 'X', first, row, col), rows, columns);
    }

    /** The functions that only move the cursor, which may end up outside until it is clamped. */
    method Move(params: string, final: char, numbers: seq<nat>)
      requires Valid() && numbers != []
      requires final == 'A' || final == 'B' || final == 'C' || final == 'D' || final == 'H' || final == 'f'
      modifies `row, `col
      ensures Valid() && Now() == Controlled(old(Now()), params, final, numbers)
    {
      var first := numbers[0];
      if final == 'A' {
        row := row - (if first > 1 then first else 1);
      } else if final == 'B' {
        row := row + (if first > 1 then first else 1);
      } else if final == 'C' {
        col := col + (if first > 1 then first else 1);
      } else if final == 'D' {
        col := col - (if first > 1 then first else 1);
      } else {
        var line: int := first;
        row := if params != "" then line - 1 else 0;
        col := 0;
        if |numbers| > 1 { var column: int := numbers[1]; col := column - 1; }
      }
      Clamp();
    }

    /** A CSI with its final byte: `numbers` read first, whatever the function is. */
    method Control(num: Numerals, params: string, final: char) returns (done: Result<(), Raised>)
      requires Valid()
      modifies this
      ensures Valid() && typed == old(typed)
      ensures var after := Step(num, old(Now()), Csi(params, final));
        if after.Err? then done == Err(after.error) && Now() == old(Now()) else done == Ok(()) && Now() == after.value
    {
      hide Numbers, Erased, Clears, Blank, Shaped;
      var read := Numbers(num, params);
      if read.Err? { return Err(read.error); }
      var numbers := read.value;
      var first := numbers[0];
      if final == 'A' || final == 'B' || final == 'C' || final == 'D' || final == 'H' || final == 'f' {
        Move(params, final, numbers);
      } else if final == 'K' {
        EraseLine(first);
      } else if final == 'J' {
        EraseDisplay(first);
      } else if final == 'X' {
        EraseCharacters(first);
      } else if params == ALTERNATE {
        if final == 'h' && primary.None? {
          primary := Some(Saved(grid, row, col));
          grid := Blank(rows, columns);
        } else if final == 'l' && primary.Some? {
          grid, row, col := primary.value.grid, primary.value.row, primary.value.col;
          primary := None;
        }
      }
      Clamp();
      done := Ok(());
    }

    method Put(ch: char)
      requires Valid()
      modifies this
      ensures Valid() && Now() == Typed(old(Now()), ch) && typed == old(typed) + [ch]
    {
      typed := typed + [ch];
      if ch == '\r' {
        col := 0;
      } else if ch == '\n' {
        row := row + 1;
        if row >= rows {
          grid := grid[1..] + [Blanks(columns)];
          row := rows - 1;
        }
      } else if ch == '\U{08}' {
        col := col - 1;
      } else if ch == '\t' {
        var stop := (col / 8 + 1) * 8;
        col := if columns - 1 < stop then columns - 1 else stop;
      } else if ch >= ' ' {
        grid := grid[row := grid[row][col := ch]];
        col := col + 1;
        if col >= columns { col := columns - 1; }
      }
      Clamp();
    }
  }

  lemma SameCells(a: Grid, b: Grid, rows: nat, columns: nat)
    requires Shaped(a, rows, columns) && Shaped(b, rows, columns)
    requires forall r, c :: 0 <= r < rows && 0 <= c < columns ==> a[r][c] == b[r][c]
    ensures a == b
  {
    forall r | 0 <= r < rows ensures a[r] == b[r] {
      assert forall c :: 0 <= c < columns ==> a[r][c] == b[r][c];
    }
  }

  /** Every other escape is consumed the way `ansi_strip` does. */
  method SkipEscape(text: string, i: nat) returns (j: nat)
    requires i < |text| && text[i] == ESC && !(i + 1 < |text| && text[i + 1] == '[')
    ensures i < j && From(text, j) == From(text, End(text, i))
    ensures !Next(text[i..]).Char? && !Next(text[i..]).Csi?
  {
    hide Next, End;
    Spans(text, i);
    if i + 1 >= |text| {
      j := i + 2;
    } else if IsStringKind(text[i + 1]) {
      j := SkipString(text, i);
    } else if IsCharsetKind(text[i + 1]) {
      j := i + 3;
    } else {
      j := i + 2;
    }
  }

  lemma RenderedIs(num: Numerals, text: string, columns: nat, rows: nat)
    requires rows > 0 && columns > 0
    ensures Start(rows, columns).Valid()
    ensures var after := Play(num, Start(rows, columns), Tokens(text));
      Rendered(num, text, columns, rows) == if after.Err? then Err(after.error) else Ok(Shown(after.value.grid))
  {
    hide Play, Tokens, Shown;
  }

  method RenderScreen(num: Numerals, text: string, columns: nat, rows: nat)
    returns (shown: Result<string, Raised>, ghost typed: string)
    requires rows > 0 && columns > 0
    ensures shown == Rendered(num, text, columns, rows)
    ensures shown.Ok? ==> typed == Strip(text)
  {
    hide Next, Strip, Tokens, Plain, End, From, Play, Step, Typed, Shown, Rendered, Blank, Screen.Valid, Shaped;
    RenderedIs(num, text, columns, rows);
    var term := new Terminal(rows, columns);
    var i, n := 0, |text|;
    ghost var whole := Play(num, Start(rows, columns), Tokens(text));
    FromEdges(text, n);
    typed := "";
    while i < n
      invariant fresh(term) && term.Valid() && term.rows == rows && term.columns == columns
      invariant Play(num, term.Now(), Tokens(From(text, i))) == whole
      invariant term.typed + Strip(From(text, i)) == Strip(text)
      decreases n - i
    {
      StripNext(text, i);
      Spans(text, i);
      PlayNext(num, term.Now(), Next(text[i..]), Tokens(From(text, End(text, i))));
      var ch := text[i];
      if ch == ESC && i + 1 < n && text[i + 1] == '[' {
        var j := FindFinal(text, i);
        if j >= n {
          FromEdges(text, j + 1);
          assert whole == Ok(term.Now()) && term.typed == Strip(text);
          break;
        }
        var done := term.Control(num, text[i + 2..j], text[j]);
        if done.Err? { return Err(done.error), typed; }
        i := j + 1;
        continue;
      }
      if ch == ESC {
        i := SkipEscape(text, i);
        continue;
      }
      term.Put(ch);
      i := i + 1;
    }
    if i >= n {
      FromEdges(text, i);
      PlayNext(num, term.Now(), LoneEsc, []);
    }
    typed := term.typed;
    shown := Ok(Shown(term.grid));
  }

  lemma PlayNext(num: Numerals, scr: Screen, token: Token, rest: seq<Token>)
    requires scr.Valid()
    ensures var after := Step(num, scr, token);
      Play(num, scr, [token] + rest) == if after.Err? then after else Play(num, after.value, rest)
    ensures token.Char? ==> Step(num, scr, token) == Ok(Typed(scr, token.c))
    ensures !token.Char? && !token.Csi? ==> Step(num, scr, token) == Ok(scr)
    ensures Play(num, scr, []) == Ok(scr)
  {
    assert ([token] + rest)[1..] == rest;
  }

  // ----- What every text does to the screen -----

  /** Replaying is a fold over tokens: what follows is played on from wherever the first part led. */
  lemma {:induction false} PlayAppend(num: Numerals, scr: Screen, a: seq<Token>, b: seq<Token>)
    requires scr.Valid()
    ensures var after := Play(num, scr, a);
      Play(num, scr, a + b) == if after.Err? then after else Play(num, after.value, b)
    decreases |a|
  {
    if a == [] {
      assert a + b == b;
    } else {
      assert (a + b)[0] == a[0] && (a + b)[1..] == a[1..] + b;
      var after := Step(num, scr, a[0]);
      if after.Ok? { PlayAppend(num, after.value, a[1..], b); }
    }
  }

  /** So a stream cut on a token boundary is rendered by taking its two parts in turn. */
  lemma RenderingResumes(num: Numerals, scr: Screen, a: string, b: string)
    requires scr.Valid() && EndsOnBoundary(a)
    ensures var after := Play(num, scr, Tokens(a));
      Play(num, scr, Tokens(a + b)) == if after.Err? then after else Play(num, after.value, Tokens(b))
  {
    TokensResume(a, b);
    PlayAppend(num, scr, Tokens(a), Tokens(b));
  }

  /** Python refuses a parameter of this token. */
  ghost predicate Unreadable(num: Numerals, token: Token) {
    token.Csi? && exists piece :: piece in Split(token.params, ';') && num(piece).Refused?
  }

  /** Every text is rendered, but for one with a terminated CSI holding a digit string `int` refuses. */
  lemma {:induction false} RaisesExactlyOnUnreadable(num: Numerals, scr: Screen, tokens: seq<Token>)
    requires scr.Valid()
    ensures Play(num, scr, tokens).Err? <==> exists token :: token in tokens && Unreadable(num, token)
    decreases |tokens|
  {
    if tokens != [] {
      var after := Step(num, scr, tokens[0]);
      assert after.Err? <==> Unreadable(num, tokens[0]);
      assert tokens == [tokens[0]] + tokens[1..];
      if after.Ok? { RaisesExactlyOnUnreadable(num, after.value, tokens[1..]); }
    }
  }

  /** Such as a superscript, which is a digit to `isdigit` and none to `int`. */
  lemma ASuperscriptRaises(num: Numerals, columns: nat, rows: nat)
    requires rows > 0 && columns > 0 && num("\U{b2}").Refused?
    ensures Rendered(num, [ESC, '['] + "\U{b2}" + ['A'], columns, rows).Err?
  {
    var token := Csi("\U{b2}", 'A');
    var text := [ESC, '['] + "\U{b2}" + ['A'];
    assert !IsFinal("\U{b2}"[0]);
    FinalIsFirst("\U{b2}", 1);
    assert Raws([token]) == token.Raw() + Raws([]) == text;
    TokensAreUnique([token]);
    SplitPiece("\U{b2}", "", ';');
    assert Unreadable(num, token) && token in Tokens(text);
    RaisesExactlyOnUnreadable(num, Start(rows, columns), Tokens(text));
  }

  /** Moves of the cursor, and functions the grid does not know, leave every cell as it was. */
  predicate Still(token: Token) {
    match token
    case Char(c) => c < ' ' && c != '\n'
    case Csi(params, final) => final != 'K' && final != 'J' && final != 'X' && params != ALTERNATE
    case _ => true
  }

  lemma {:induction false} MotionShowsNothing(num: Numerals, scr: Screen, tokens: seq<Token>)
    requires scr.Valid() && forall token :: token in tokens ==> Still(token)
    ensures var after := Play(num, scr, tokens);
      after.Ok? ==> after.value.grid == scr.grid && Shown(after.value.grid) == Shown(scr.grid)
    decreases |tokens|
  {
    if tokens != [] {
      var after := Step(num, scr, tokens[0]);
      assert Still(tokens[0]);
      if after.Ok? { MotionShowsNothing(num, after.value, tokens[1..]); }
    }
  }

  /** Without control functions, what is shown is what the stripped text shows. */
  lemma {:induction false} EscapesPlaceNothing(num: Numerals, scr: Screen, text: string)
    requires scr.Valid() && forall token :: token in Tokens(text) ==> !token.Csi?
    ensures Play(num, scr, Tokens(text)) == Play(num, scr, Tokens(Strip(text)))
    decreases |text|
  {
    if text != "" {
      StripFront(text);
      var token := Next(text);
      var rest := text[|token.Raw()|..];
      assert token in Tokens(text);
      PlayNext(num, scr, token, Tokens(rest));
      var next := Step(num, scr, token).value;
      EscapesPlaceNothing(num, next, rest);
      if token.Char? {
        assert Strip(text)[1..] == Strip(rest);
        PlayNext(num, scr, token, Tokens(Strip(rest)));
      }
    }
  }

  // ----- The alternate screen -----

  const ENTER := [ESC, '['] + ALTERNATE + ['h']
  const LEAVE := [ESC, '['] + ALTERNATE + ['l']

  lemma AlternateToken(final: char)
    requires IsFinal(final)
    ensures Tokens([ESC, '['] + ALTERNATE + [final]) == [Csi(ALTERNATE, final)]
  {
    var token := Csi(ALTERNATE, final);
    FinalIsFirst(ALTERNATE, |ALTERNATE|);
    assert Raws([token]) == token.Raw() + Raws([]) == token.Raw();
    TokensAreUnique([token]);
  }

  /** Nothing but leaving it touches the saved primary screen, nested entries included. */
  lemma {:induction false} InsideTheAlternate(num: Numerals, scr: Screen, tokens: seq<Token>)
    requires scr.Valid() && scr.primary.Some? && Csi(ALTERNATE, 'l') !in tokens
    ensures var after := Play(num, scr, tokens); after.Ok? ==> after.value.primary == scr.primary
    decreases |tokens|
  {
    if tokens != [] {
      var after := Step(num, scr, tokens[0]);
      assert tokens[0] in tokens;
      if after.Ok? { InsideTheAlternate(num, after.value, tokens[1..]); }
    }
  }

  lemma EnterAndLeave(num: Numerals, scr: Screen, inside: Screen)
    requires scr.Valid() && scr.primary.None? && inside.Valid()
    requires inside.rows == scr.rows && inside.columns == scr.columns
    requires inside.primary == Some(Saved(scr.grid, scr.row, scr.col))
    ensures var entered := Step(num, scr, Csi(ALTERNATE, 'h'));
      entered.Ok? ==> entered.value.primary == Some(Saved(scr.grid, scr.row, scr.col))
    ensures var left := Step(num, inside, Csi(ALTERNATE, 'l')); left.Ok? ==> left.value == scr
  {
  }

  lemma AlternateLeavesPrimaryOver(num: Numerals, scr: Screen, tokens: seq<Token>)
    requires scr.Valid() && scr.primary.None? && Csi(ALTERNATE, 'l') !in tokens
    ensures var after := Play(num, scr, [Csi(ALTERNATE, 'h')] + (tokens + [Csi(ALTERNATE, 'l')]));
      after.Ok? ==> after.value == scr
  {
    hide Play, Step, Controlled;
    var enter, leave := Csi(ALTERNATE, 'h'), Csi(ALTERNATE, 'l');
    PlayNext(num, scr, enter, tokens + [leave]);
    var entered := Step(num, scr, enter);
    if entered.Ok? {
      EnterAndLeave(num, scr, scr.(primary := Some(Saved(scr.grid, scr.row, scr.col))));
      PlayAppend(num, entered.value, tokens, [leave]);
      InsideTheAlternate(num, entered.value, tokens);
      var drawn := Play(num, entered.value, tokens);
      if drawn.Ok? {
        PlayNext(num, drawn.value, leave, []);
        EnterAndLeave(num, scr, drawn.value);
        var left := Step(num, drawn.value, leave);
        assert [leave] + [] == [leave];
        if left.Ok? { PlayNext(num, left.value, leave, []); }
      }
    }
  }

  /** Whatever is drawn on it, leaving the alternate screen brings the primary grid and cursor back as they were. */
  lemma AlternateLeavesPrimary(num: Numerals, scr: Screen, text: string)
    requires scr.Valid() && scr.primary.None?
    requires EndsOnBoundary(text) && Csi(ALTERNATE, 'l') !in Tokens(text)
    ensures var after := Play(num, scr, Tokens(ENTER + text + LEAVE)); after.Ok? ==> after.value == scr
  {
    hide Play, Tokens;
    AlternateToken('h');
    AlternateToken('l');
    TokensResume(ENTER, text + LEAVE);
    TokensResume(text, LEAVE);
    assert ENTER + text + LEAVE == ENTER + (text + LEAVE);
    AlternateLeavesPrimaryOver(num, scr, Tokens(text));
  }
}
