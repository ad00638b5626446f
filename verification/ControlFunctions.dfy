/**
 What each control function and each character does to the grid of `render_screen`, cell by cell and in numbers:
 where the cursor goes, what is cleared, and what stays.
 */
module ControlFunctions {
  import opened Outcomes
  import opened Strings
  import opened EscapeTokens
  import opened Screens

  // ----- Parameters -----

  lemma {:induction false} NumbersOfEach(num: Numerals, pieces: seq<string>)
    requires forall piece :: piece in pieces ==> !num(piece).Refused?
    ensures var numbers := NumbersOf(num, pieces);
      && numbers.Ok? && |numbers.value| == |pieces|
      && (forall i :: 0 <= i < |pieces| ==>
            numbers.value[i] == if num(pieces[i]).Number? then num(pieces[i]).n else 0)
  {
    if pieces != [] {
      assert pieces[0] in pieces;
      NumbersOfEach(num, pieces[1..]);
    }
  }

  /** Parameters are what lies between semicolons, each the number its digits spell, or zero. */
  lemma ParametersAreRead(num: Numerals, pieces: seq<string>)
    requires pieces != [] && forall piece :: piece in pieces ==> ';' !in piece
    ensures (exists piece :: piece in pieces && num(piece) == Refused) <==> Numbers(num, Join(pieces, ';')).Err?
    ensures (forall piece :: piece in pieces ==> num(piece) != Refused) ==>
      var numbers := Numbers(num, Join(pieces, ';'));
      && numbers.Ok? && |numbers.value| == |pieces|
      && (forall i :: 0 <= i < |pieces| ==>
            numbers.value[i] == if num(pieces[i]).Number? then num(pieces[i]).n else 0)
  {
    hide NumbersOf, Split, Join;
    SplitInvertsJoin(pieces, ';');
    if forall piece :: piece in pieces ==> num(piece) != Refused { NumbersOfEach(num, pieces); }
  }

  // ----- Erasing -----

  /** EL: from the cursor to the end of its row, from the start of the row to the cursor, or all of it. */
  lemma EraseInLine(num: Numerals, scr: Screen, params: string, numbers: seq<nat>)
    requires scr.Valid() && Numbers(num, params) == Ok(numbers)
    ensures var after := Step(num, scr, Csi(params, 'K'));
      && after.Ok? && after.value == scr.(grid := after.value.grid)
      && (forall r, c :: 0 <= r < scr.rows && 0 <= c < scr.columns ==>
            after.value.grid[r][c] ==
              if r != scr.row then scr.grid[r][c]
              else if numbers[0] == 0 then if c < scr.col then scr.grid[r][c] else ' '
              else if numbers[0] == 1 then if c > scr.col then scr.grid[r][c] else ' '
              else ' ')
  {
  }

  /** ED: from the cursor to the end of the grid, or all of it; from its start to the cursor is not known here. */
  lemma EraseInDisplay(num: Numerals, scr: Screen, params: string, numbers: seq<nat>)
    requires scr.Valid() && Numbers(num, params) == Ok(numbers)
    ensures var after := Step(num, scr, Csi(params, 'J'));
      && after.Ok? && after.value == scr.(grid := after.value.grid)
      && (forall r, c :: 0 <= r < scr.rows && 0 <= c < scr.columns ==>
            after.value.grid[r][c] ==
              if numbers[0] == 0 then
                if r < scr.row || (r == scr.row && c < scr.col) then scr.grid[r][c] else ' '
              else if numbers[0] == 2 then ' '
              else scr.grid[r][c])
  {
  }

  /** ECH: that many cells from the cursor on, at least one and none beyond the row. */
  lemma EraseCharacters(num: Numerals, scr: Screen, params: string, numbers: seq<nat>)
    requires scr.Valid() && Numbers(num, params) == Ok(numbers)
    ensures var after := Step(num, scr, Csi(params, 'X'));
      && after.Ok? && after.value == scr.(grid := after.value.grid)
      && (forall r, c :: 0 <= r < scr.rows && 0 <= c < scr.columns ==>
            after.value.grid[r][c] ==
              if r == scr.row && (c == scr.col || scr.col <= c < scr.col + numbers[0]) then ' ' else scr.grid[r][c])
  {
  }

  // ----- Moving -----

  function Within(at: int, size: nat): (place: nat)
    requires size > 0
    ensures place < size
  {
    if at < 0 then 0 else if at >= size then size - 1 else at
  }

  /** CUU, CUD, CUF and CUB: that many cells, at least one, as far as the edge. */
  lemma CursorMoves(num: Numerals, scr: Screen, params: string, numbers: seq<nat>)
    requires scr.Valid() && Numbers(num, params) == Ok(numbers)
    ensures var count := if numbers[0] == 0 then 1 else numbers[0];
      && Step(num, scr, Csi(params, 'A')) == Ok(scr.(row := Within(scr.row - count, scr.rows)))
      && Step(num, scr, Csi(params, 'B')) == Ok(scr.(row := Within(scr.row + count, scr.rows)))
      && Step(num, scr, Csi(params, 'C')) == Ok(scr.(col := Within(scr.col + count, scr.columns)))
      && Step(num, scr, Csi(params, 'D')) == Ok(scr.(col := Within(scr.col - count, scr.columns)))
  {
  }

  /** CUP and HVP: home without parameters, the first column without a second one, and one-based otherwise. */
  lemma CursorIsAddressed(num: Numerals, scr: Screen, params: string, numbers: seq<nat>, final: char)
    requires scr.Valid() && Numbers(num, params) == Ok(numbers) && (final == 'H' || final == 'f')
    ensures Step(num, scr, Csi(params, final)) ==
      Ok(scr.(row := if params == "" then 0 else Within(numbers[0] as int - 1, scr.rows),
              col := if |numbers| == 1 then 0 else Within(numbers[1] as int - 1, scr.columns)))
    ensures params == "" ==> Step(num, scr, Csi(params, final)) == Ok(scr.(row := 0, col := 0))
  {
    if params == "" { SplitPiece("", "", ';'); }
  }

  // ----- The alternate screen, and what is not known -----

  /** Entered from the primary screen it is blank, with the cursor where it was; entered again it stays as it is. */
  lemma TheAlternateIsBlank(num: Numerals, scr: Screen)
    requires scr.Valid() && Numbers(num, "?1049").Ok?
    ensures var after := Step(num, scr, Csi("?1049", 'h'));
      && after.Ok?
      && (if scr.primary.Some? then after.value == scr
          else
            && after.value == scr.(grid := after.value.grid, primary := Some(Saved(scr.grid, scr.row, scr.col)))
            && (forall r, c :: 0 <= r < scr.rows && 0 <= c < scr.columns ==> after.value.grid[r][c] == ' '))
    ensures scr.primary.None? ==> Step(num, scr, Csi("?1049", 'l')) == Ok(scr)
  {
  }

  /** Every other function leaves the screen as it is. */
  lemma OtherFunctionsDoNothing(num: Numerals, scr: Screen, params: string, final: char)
    requires scr.Valid() && Numbers(num, params).Ok?
    requires final !in "ABCDHfKJX" && !(params == "?1049" && (final == 'h' || final == 'l'))
    ensures Step(num, scr, Csi(params, final)) == Ok(scr)
  {
  }

  // ----- Characters -----

  /** CR, BS, HT and the characters the grid does not know move the cursor alone, or nothing. */
  lemma ControlCharacters(scr: Screen, ch: char)
    requires scr.Valid() && ch < ' ' && ch != '\n'
    ensures Typed(scr, ch) ==
      if ch == '\r' then scr.(col := 0)
      else if ch == '\U{08}' then scr.(col := if scr.col == 0 then 0 else scr.col - 1)
      else if ch == '\t' then
        var stop := scr.col + 8 - scr.col % 8; scr.(col := if stop < scr.columns then stop else scr.columns - 1)
      else scr
  {
  }

  /** LF goes one row down in its column; from the last row it has every row move up and a blank one come in. */
  lemma LineFeed(scr: Screen)
    requires scr.Valid()
    ensures var after := Typed(scr, '\n');
      if scr.row < scr.rows - 1 then after == scr.(row := scr.row + 1)
      else
        && after == scr.(grid := after.grid)
        && (forall r, c :: 0 <= r < scr.rows && 0 <= c < scr.columns ==>
              after.grid[r][c] == if r < scr.rows - 1 then scr.grid[r + 1][c] else ' ')
  {
  }
}
