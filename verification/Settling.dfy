/**
 Waiting for a screen to go quiet: `settle_and_quiet` of conformance/shared/common.py, over a clock that never
 steps back and whatever the terminal is read to say.
 */
module Settling {
  import opened Outcomes
  import opened EscapeTokens
  import Screens

  /** The `k`th reading of the clock, and the text of the `j`th read of the terminal. */
  datatype World = World(clock: nat -> real, text: nat -> string)

  ghost predicate Monotone(w: World) {
    forall i: nat, j: nat :: i <= j ==> w.clock(i) <= w.clock(j)
  }

  function Stream(w: World, n: nat): string {
    if n == 0 then "" else Stream(w, n - 1) + w.text(n - 1)
  }

  /** What a person sees after `n` reads. */
  function ShownAfter(num: Screens.Numerals, w: World, n: nat): Result<string, Screens.Raised> {
    Screens.Rendered(num, Stream(w, n), 240, 200)
  }

  predicate ChangedBy(num: Screens.Numerals, w: World, n: nat) {
    n > 0 && ShownAfter(num, w, n) != ShownAfter(num, w, n - 1)
  }

  function Changes(num: Screens.Numerals, w: World, n: nat): nat {
    if n == 0 then 0 else Changes(num, w, n - 1) + if ChangedBy(num, w, n) then 1 else 0
  }

  /** The last read of the first `n` to change what is shown, or none: 0. */
  function LastChange(num: Screens.Numerals, w: World, n: nat): (m: nat)
    ensures m <= n
  {
    if n == 0 then 0 else if ChangedBy(num, w, n) then n else LastChange(num, w, n - 1)
  }

  /** The reading that ends round `n`: one as it begins, one if it changed anything, and one to judge it by. */
  function EndOf(num: Screens.Numerals, w: World, n: nat): nat { 2 * n + Changes(num, w, n) }

  /** The reading that begins round `j`. */
  function BeginOf(num: Screens.Numerals, w: World, j: nat): nat {
    if j == 0 then 0 else EndOf(num, w, j - 1) + 1
  }

  function ChangedAt(num: Screens.Numerals, w: World, m: nat): nat {
    if m == 0 then 0 else EndOf(num, w, m - 1) + 2
  }

  function QuietFor(num: Screens.Numerals, w: World, n: nat): real {
    w.clock(EndOf(num, w, n)) - w.clock(ChangedAt(num, w, LastChange(num, w, n)))
  }

  lemma OneRound(num: Screens.Numerals, w: World, n: nat)
    requires n > 0
    ensures Stream(w, n) == Stream(w, n - 1) + w.text(n - 1)
    ensures ChangedBy(num, w, n) <==> ShownAfter(num, w, n) != ShownAfter(num, w, n - 1)
    ensures LastChange(num, w, n) == if ChangedBy(num, w, n) then n else LastChange(num, w, n - 1)
    ensures ChangedAt(num, w, n) == BeginOf(num, w, n) + 1 == EndOf(num, w, n - 1) + 2
    ensures EndOf(num, w, n) == BeginOf(num, w, n) + if ChangedBy(num, w, n) then 2 else 1
    ensures QuietFor(num, w, n) == w.clock(EndOf(num, w, n)) - w.clock(ChangedAt(num, w, LastChange(num, w, n)))
  {
    hide ShownAfter;
  }

  lemma ShownIs(num: Screens.Numerals, w: World, n: nat)
    ensures ShownAfter(num, w, n) == Screens.Rendered(num, Stream(w, n), 240, 200)
  {
    hide Screens.Rendered;
  }

  /** `n` rounds ran, none but perhaps the last of them found the screen quiet, and this is how they ended. */
  ghost predicate Ended(num: Screens.Numerals, w: World, quiet: real, budget: real, n: nat,
                        settled: Result<bool, Screens.Raised>) {
    var deadline := w.clock(0) + budget;
    && (forall j: nat :: j < n ==> ShownAfter(num, w, j).Ok?)
    && (forall j: nat :: 0 < j < n ==> QuietFor(num, w, j) < quiet)
    && (forall j: nat :: 0 < j <= n ==> w.clock(BeginOf(num, w, j)) < deadline)
    && if settled.Err? then ShownAfter(num, w, n) == Err(settled.error)
       else
         && ShownAfter(num, w, n).Ok?
         && (if settled.value then n > 0 && QuietFor(num, w, n) >= quiet
             else (n > 0 ==> QuietFor(num, w, n) < quiet) && w.clock(BeginOf(num, w, n + 1)) >= deadline)
  }

  /** `last` is a reading by which the budget is spent, so that there is an end. */
  method SettleAndQuiet(num: Screens.Numerals, w: World, quiet: real, budget: real, ghost last: nat)
    returns (settled: Result<bool, Screens.Raised>)
    requires forall k: nat :: last <= k ==> w.clock(k) >= w.clock(0) + budget
    ensures exists n: nat :: Ended(num, w, quiet, budget, n, settled)
  {
    hide Screens.Rendered, LastChange, ChangedAt, EndOf, ChangedBy, Stream, BeginOf, QuietFor, ShownAfter;
    AtTheStart(num, w);
    var deadline := w.clock(0) + budget;
    var lastChange := w.clock(0);
    var stream := "";
    ghost var n := 0;
    var first := Screens.Rendered(num, stream, 240, 200);
    if first.Err? {
      assert Ended(num, w, quiet, budget, 0, Err(first.error));
      return Err(first.error);
    }
    var shown := first.value;
    var read, reading := 0, 1;
    while w.clock(reading) < deadline
      invariant n == read && reading == BeginOf(num, w, n + 1)
      invariant stream == Stream(w, n) && ShownAfter(num, w, n) == Ok(shown)
      invariant lastChange == w.clock(ChangedAt(num, w, LastChange(num, w, n)))
      invariant forall j: nat :: j <= n ==> ShownAfter(num, w, j).Ok?
      invariant forall j: nat :: 0 < j <= n ==> QuietFor(num, w, j) < quiet
      invariant forall j: nat :: 0 < j <= n ==> w.clock(BeginOf(num, w, j)) < deadline
      decreases last - reading
    {
      OneRound(num, w, n + 1);
      OneRound(num, w, n + 2);
      ShownIs(num, w, n);
      ShownIs(num, w, n + 1);
      var text := w.text(read);
      read, reading, n := read + 1, reading + 1, n + 1;
      if text != "" {
        stream := stream + text;
        var now := Screens.Rendered(num, stream, 240, 200);
        if now.Err? {
          assert Ended(num, w, quiet, budget, n, Err(now.error));
          return Err(now.error);
        }
        if now.value != shown {
          shown := now.value;
          lastChange := w.clock(reading);
          reading := reading + 1;
        }
      } else {
        assert stream + text == stream;
      }
      assert reading == EndOf(num, w, n);
      if w.clock(reading) - lastChange >= quiet {
        assert Ended(num, w, quiet, budget, n, Ok(true));
        return Ok(true);
      }
      reading := reading + 1;
    }
    settled := Ok(false);
    assert Ended(num, w, quiet, budget, n, settled);
  }

  /** So there is one answer. */
  lemma OneEnd(num: Screens.Numerals, w: World, quiet: real, budget: real, m: nat, n: nat,
               a: Result<bool, Screens.Raised>, b: Result<bool, Screens.Raised>)
    requires Ended(num, w, quiet, budget, m, a) && Ended(num, w, quiet, budget, n, b)
    ensures m == n && a == b
  {
    hide QuietFor, ShownAfter, BeginOf;
  }

  lemma AtTheStart(num: Screens.Numerals, w: World)
    ensures Stream(w, 0) == "" && LastChange(num, w, 0) == 0 && ChangedAt(num, w, 0) == 0 && BeginOf(num, w, 1) == 1
    ensures ShownAfter(num, w, 0) == Screens.Rendered(num, "", 240, 200)
  {
  }

  lemma {:induction false} NothingChangedSince(num: Screens.Numerals, w: World, n: nat, j: nat)
    requires LastChange(num, w, n) <= j <= n
    ensures ShownAfter(num, w, j) == ShownAfter(num, w, n)
    ensures LastChange(num, w, n) > 0 ==> ChangedBy(num, w, LastChange(num, w, n))
    decreases n
  {
    hide Screens.Rendered;
    if n > 0 && !ChangedBy(num, w, n) {
      if j < n { NothingChangedSince(num, w, n - 1, j); } else { NothingChangedSince(num, w, n - 1, n - 1); }
    }
  }

  lemma {:induction false} RoundsTakeTime(num: Screens.Numerals, w: World, m: nat, n: nat)
    requires m <= n
    ensures EndOf(num, w, m) + 2 * (n - m) <= EndOf(num, w, n)
  {
    hide ChangedBy, ShownAfter;
    if m < n { RoundsTakeTime(num, w, m, n - 1); }
  }

  /**
   A screen that is called settled showed one thing for the whole of the quiet time: each read of a later round
   lies between two readings that are that far apart, and none of them changed it. The first of the two was taken
   behind the read that changed it last.
   */
  lemma SettledMeansStill(num: Screens.Numerals, w: World, quiet: real, n: nat)
    requires Monotone(w) && n > 0 && QuietFor(num, w, n) >= quiet
    ensures var m := LastChange(num, w, n);
      && (forall j :: m <= j <= n ==> ShownAfter(num, w, j) == ShownAfter(num, w, n))
      && w.clock(EndOf(num, w, n)) >= w.clock(ChangedAt(num, w, m)) + quiet
      && (forall j :: m < j <= n ==>
            w.clock(ChangedAt(num, w, m)) <= w.clock(BeginOf(num, w, j)) <= w.clock(EndOf(num, w, n)))
      && (forall j :: 0 < j <= m ==> w.clock(BeginOf(num, w, j)) <= w.clock(ChangedAt(num, w, m)))
      && (m == 0 ==> ChangedAt(num, w, m) == 0)
  {
    hide ShownAfter, ChangedBy, EndOf, BeginOf, ChangedAt;
    var m := LastChange(num, w, n);
    AtTheStart(num, w);
    forall j | 0 < j <= m ensures w.clock(BeginOf(num, w, j)) <= w.clock(ChangedAt(num, w, m)) {
      BegunBeforeTheChange(num, w, j, m);
    }
    forall j | m <= j <= n ensures ShownAfter(num, w, j) == ShownAfter(num, w, n) { NothingChangedSince(num, w, n, j); }
    forall j | m < j <= n
      ensures w.clock(ChangedAt(num, w, m)) <= w.clock(BeginOf(num, w, j)) <= w.clock(EndOf(num, w, n))
    {
      NothingChangedSince(num, w, n, n);
      ReadingsAreInOrder(num, w, m, j, n);
    }
  }

  lemma BegunBeforeTheChange(num: Screens.Numerals, w: World, j: nat, m: nat)
    requires 0 < j <= m
    ensures BeginOf(num, w, j) < ChangedAt(num, w, m)
  {
    hide ShownAfter, ChangedBy;
    RoundsTakeTime(num, w, j - 1, m - 1);
  }

  lemma ReadingsAreInOrder(num: Screens.Numerals, w: World, m: nat, j: nat, n: nat)
    requires m < j <= n && (m > 0 ==> ChangedBy(num, w, m))
    ensures ChangedAt(num, w, m) <= BeginOf(num, w, j) <= EndOf(num, w, n)
  {
    hide *;
    RoundsTakeTime(num, w, m, j - 1);
    RoundsTakeTime(num, w, j, n);
    OneRound(num, w, j);
    AtTheStart(num, w);
    if m > 0 { OneRound(num, w, m); }
  }

  /** Cursor motion over a screen that is there already is no change, however much of it is read. */
  lemma MotionIsNoChange(num: Screens.Numerals, w: World, n: nat)
    requires n > 0 && EndsOnBoundary(Stream(w, n - 1)) && ShownAfter(num, w, n).Ok?
    requires forall token :: token in Tokens(w.text(n - 1)) ==> Screens.Still(token)
    ensures !ChangedBy(num, w, n)
  {
    hide Screens.Play, Screens.Shown, Tokens, EndsOnBoundary;
    var a, b := Stream(w, n - 1), w.text(n - 1);
    var start := Screens.Start(200, 240);
    Screens.RenderingResumes(num, start, a, b);
    var before := Screens.Play(num, start, Tokens(a));
    if before.Ok? {
      Screens.MotionShowsNothing(num, before.value, Tokens(b));
    }
  }
}
