/** Keeping a journal within its budget: `prune_to_size` in src/telemetry.rs. */
module Journal {
  import opened Outcomes
  import opened Strings

  const MAX_U64: nat := 0xffff_ffff_ffff_ffff

  type u64 = n: nat | n <= MAX_U64

  datatype Day = Day(file: string, bytes: u64)

  // ----- The order names sort in -----

  lemma {:induction false} BelowBehind(front: string, a: string, b: string)
    ensures Below(front + a, front + b) <==> Below(a, b)
  {
    if front == "" {
      assert front + a == a && front + b == b;
    } else {
      assert (front + a)[1..] == front[1..] + a && (front + b)[1..] == front[1..] + b;
      BelowBehind(front[1..], a, b);
    }
  }

  lemma {:induction false} BelowBefore(a: string, b: string, end: string)
    requires |a| == |b|
    ensures Below(a + end, b + end) <==> Below(a, b)
  {
    if a == "" {
      assert a + end == b + end;
      BelowIsTotal(a + end, a + end);
    } else {
      assert (a + end)[1..] == a[1..] + end && (b + end)[1..] == b[1..] + end;
      BelowBefore(a[1..], b[1..], end);
    }
  }

  /** The file a journal's day is rolled into. */
  function Rolled(name: string, date: string): string { name + "." + date + ".log" }

  /** Written alike, dates sort their files. */
  lemma NamesSortLikeTheirDates(name: string, earlier: string, later: string)
    requires |earlier| == |later|
    ensures Below(Rolled(name, earlier), Rolled(name, later)) <==> Below(earlier, later)
  {
    assert forall date :: Rolled(name, date) == (name + ".") + (date + ".log");
    BelowBehind(name + ".", earlier + ".log", later + ".log");
    BelowBefore(earlier, later, ".log");
  }

  // ----- Whose file it is -----

  predicate EndsWith(s: string, end: string) { |end| <= |s| && s[|s| - |end|..] == end }

  predicate IsDayOf(name: string, file: string) { name + "." <= file && EndsWith(file, ".log") }

  /** A file is a journal's if its name begins with the journal's and a dot and ends in `.log`. */
  lemma WhichFilesAreDays(name: string, file: string)
    ensures IsDayOf(name, file) <==>
      && |name| + 1 <= |file| && file[..|name|] == name && file[|name|] == '.'
      && 4 <= |file| && file[|file| - 4..] == ".log"
  {
    if |name| + 1 <= |file| && file[..|name|] == name && file[|name|] == '.' {
      assert file[..|name| + 1] == name + ".";
    }
    if name + "." <= file {
      assert file[..|name| + 1] == name + "." && file[..|name| + 1][..|name|] == name;
      assert file[..|name| + 1][|name|] == '.';
    }
  }

  /**
   Of another journal's files, a dotless `name` takes for its own those of one called `name.` and something
   more, and no others.
   */
  lemma WhoseFilesAreTaken(name: string, other: string, date: string)
    requires '.' !in name
    ensures IsDayOf(name, Rolled(other, date)) <==> other == name || name + "." <= other
  {
    var file := Rolled(other, date);
    assert EndsWith(file, ".log");
    assert forall i :: 0 <= i < |other| ==> file[i] == other[i];
    assert file[|other|] == '.';
    if name + "." <= file {
      assert forall i :: 0 <= i < |name| ==> file[i] == name[i];
      assert file[|name|] == '.';
      assert forall i :: 0 <= i < |name| ==> file[i] != '.';
    }
  }

  lemma AnotherJournalIsTaken()
    ensures IsDayOf("ui", Rolled("ui.preview", "2026-01-01")) && "ui.preview" != "ui"
  {
    assert "ui" + "." <= "ui.preview";
    WhoseFilesAreTaken("ui", "ui.preview", "2026-01-01");
  }

  /** The two journals the program opens take nothing of each other's. */
  lemma TheJournalsThereAreStayApart(name: string, other: string, date: string)
    requires name in ["uze", "terminal"] && other in ["uze", "terminal"] && name != other
    ensures !IsDayOf(name, Rolled(other, date))
  {
    assert "uze"[0] != "terminal"[0];
    WhoseFilesAreTaken(name, other, date);
  }

  // ----- Newest first -----

  function Insert(day: Day, days: seq<Day>): seq<Day> {
    if days == [] then [day]
    else if Below(days[0].file, day.file) then [day] + days
    else [days[0]] + Insert(day, days[1..])
  }

  function NewestFirst(days: seq<Day>): seq<Day> {
    if days == [] then [] else Insert(days[0], NewestFirst(days[1..]))
  }

  ghost predicate Descending(days: seq<Day>) {
    forall i, j :: 0 <= i < j < |days| ==> Below(days[j].file, days[i].file)
  }

  ghost predicate Distinct(days: seq<Day>) {
    forall i, j :: 0 <= i < j < |days| ==> days[i].file != days[j].file
  }

  lemma {:induction false} InsertKeepsOrder(day: Day, days: seq<Day>)
    requires Descending(days) && forall i :: 0 <= i < |days| ==> days[i].file != day.file
    ensures Descending(Insert(day, days)) && multiset(Insert(day, days)) == multiset{day} + multiset(days)
  {
    hide Below;
    if days != [] {
      assert days == [days[0]] + days[1..];
      if Below(days[0].file, day.file) {
        forall i | 0 < i < |days| ensures Below(days[i].file, day.file) {
          BelowIsTransitive(days[i].file, days[0].file, day.file);
        }
      } else {
        BelowIsTotal(days[0].file, day.file);
        InsertKeepsOrder(day, days[1..]);
        var rest := Insert(day, days[1..]);
        forall i | 0 <= i < |rest| ensures Below(rest[i].file, days[0].file) {
          assert rest[i] in multiset(rest);
          assert rest[i] == day || rest[i] in days[1..];
        }
      }
    }
  }

  lemma {:induction false} SortingSorts(days: seq<Day>)
    requires Distinct(days)
    ensures Descending(NewestFirst(days)) && multiset(NewestFirst(days)) == multiset(days)
  {
    hide Insert, Below;
    if days != [] {
      assert days == [days[0]] + days[1..];
      SortingSorts(days[1..]);
      var rest := NewestFirst(days[1..]);
      forall i | 0 <= i < |rest| ensures rest[i].file != days[0].file {
        assert rest[i] in multiset(days[1..]);
        assert rest[i] in days[1..];
      }
      InsertKeepsOrder(days[0], rest);
    }
  }

  // ----- What is dropped -----

  function Total(days: seq<Day>, k: nat): nat
    requires k <= |days|
  {
    if k == 0 then 0 else Total(days, k - 1) + days[k - 1].bytes
  }

  function Saturated(n: nat): u64 { if n <= MAX_U64 then n else MAX_U64 }

  predicate Over(days: seq<Day>, budget: u64, i: nat)
    requires i < |days|
  {
    i > 0 && Saturated(Total(days, i + 1)) > budget
  }

  ghost function Dropped(days: seq<Day>, budget: u64): set<string> {
    set i | 0 <= i < |days| && Over(days, budget, i) :: days[i].file
  }

  lemma {:induction false} TotalsGrow(days: seq<Day>, j: nat, k: nat)
    requires j <= k <= |days|
    ensures Total(days, j) <= Total(days, k)
  {
    if j < k { TotalsGrow(days, j, k - 1); }
  }

  /** The longest run of the newest days that fits, and the newest whatever it weighs. */
  ghost predicate LongestRun(days: seq<Day>, budget: u64, n: nat) {
    && n <= |days| && (days != [] ==> n > 0)
    && (n > 1 ==> Saturated(Total(days, n)) <= budget)
    && (0 < n < |days| ==> Saturated(Total(days, n + 1)) > budget)
  }

  lemma {:induction false} OverFromThere(days: seq<Day>, budget: u64, n: nat, i: nat)
    requires LongestRun(days, budget, n) && i < |days|
    ensures Over(days, budget, i) <==> n <= i
  {
    hide Total;
    if i < n { TotalsGrow(days, i + 1, n); } else { TotalsGrow(days, n + 1, i + 1); }
  }

  lemma {:induction false} ThereIsALongestRun(days: seq<Day>, budget: u64, from: nat) returns (n: nat)
    requires from <= |days| && (days != [] ==> from > 0)
    requires from > 1 ==> Saturated(Total(days, from)) <= budget
    ensures LongestRun(days, budget, n)
    decreases |days| - from
  {
    if from == |days| || Saturated(Total(days, from + 1)) > budget {
      n := from;
    } else {
      n := ThereIsALongestRun(days, budget, from + 1);
    }
  }

  /** Everything past the longest run goes, and nothing in it. */
  lemma ExactlyTheLongestRunStays(days: seq<Day>, budget: u64, n: nat)
    requires LongestRun(days, budget, n) && Descending(days)
    ensures forall i :: 0 <= i < |days| ==> (days[i].file in Dropped(days, budget) <==> n <= i)
  {
    hide Total, Below, Over, LongestRun;
    forall i | 0 <= i < |days| ensures days[i].file in Dropped(days, budget) <==> n <= i {
      OverFromThere(days, budget, n, i);
      if n > i && days[i].file in Dropped(days, budget) {
        var j :| 0 <= j < |days| && Over(days, budget, j) && days[j].file == days[i].file;
        OverFromThere(days, budget, n, j);
        BelowIsTotal(days[i].file, days[j].file);
      }
    }
  }

  lemma {:induction false} TotalOfFront(days: seq<Day>, n: nat, k: nat)
    requires k <= n <= |days|
    ensures Total(days[..n], k) == Total(days, k)
  {
    if k > 0 { TotalOfFront(days, n, k - 1); }
  }

  /** What one pruning leaves, the next leaves. */
  lemma PrunedStaysPruned(days: seq<Day>, budget: u64, n: nat)
    requires LongestRun(days, budget, n)
    ensures LongestRun(days[..n], budget, n) && Dropped(days[..n], budget) == {}
  {
    hide Total, Over;
    TotalOfFront(days, n, n);
    forall i | 0 <= i < n ensures !Over(days[..n], budget, i) { OverFromThere(days[..n], budget, n, i); }
  }

  /** What some days weigh together. */
  function Weight(days: seq<Day>): nat { if days == [] then 0 else days[0].bytes + Weight(days[1..]) }

  lemma {:induction false} WeightsAdd(a: seq<Day>, b: seq<Day>)
    ensures Weight(a + b) == Weight(a) + Weight(b)
  {
    if a == [] {
      assert a + b == b;
    } else {
      assert (a + b)[1..] == a[1..] + b;
      WeightsAdd(a[1..], b);
    }
  }

  lemma {:induction false} TotalIsTheWeight(days: seq<Day>, k: nat)
    requires k <= |days|
    ensures Total(days, k) == Weight(days[..k])
  {
    if k > 0 {
      TotalIsTheWeight(days, k - 1);
      WeightsAdd(days[..k - 1], [days[k - 1]]);
      assert days[..k] == days[..k - 1] + [days[k - 1]];
      assert [days[k - 1]][1..] == [];
    }
  }

  /**
   A day goes exactly if it is not the newest and it and those newer than it weigh more than the budget; nothing weighs
   more than the largest budget, the sum saturating there.
   */
  lemma ADayGoesExactlyWhen(days: seq<Day>, budget: u64, i: nat)
    requires Descending(days) && i < |days|
    ensures days[i].file in Dropped(days, budget) <==>
      0 < i && Weight(days[..i + 1]) > budget && budget < 0xffff_ffff_ffff_ffff
  {
    hide Below, Total;
    TotalIsTheWeight(days, i + 1);
    if days[i].file in Dropped(days, budget) {
      var j :| 0 <= j < |days| && Over(days, budget, j) && days[j].file == days[i].file;
      BelowIsTotal(days[i].file, days[j].file);
      assert i == j;
    }
  }

  // ----- The directory -----

  /** A directory of files, some of which will not be removed; `Err` where a file's length cannot be read. */
  class Directory {
    var files: map<string, Result<u64, ()>>
    const stuck: set<string>

    constructor (files: map<string, Result<u64, ()>>, stuck: set<string>)
      ensures this.files == files && this.stuck == stuck
    {
      this.files, this.stuck := files, stuck;
    }

    method Remove(file: string)
      modifies this
      ensures files == if file in stuck then old(files) else old(files) - {file}
    {
      if file !in stuck { files := files - {file}; }
    }

    ghost predicate Lists(listing: seq<string>)
      reads this
    {
      && (forall i :: 0 <= i < |listing| ==> listing[i] in files)
      && (forall i, j :: 0 <= i < j < |listing| ==> listing[i] != listing[j])
    }
  }

  function Days(files: map<string, Result<u64, ()>>, name: string, listing: seq<string>): seq<Day> {
    if listing == [] then []
    else
      var file := listing[0];
      (if IsDayOf(name, file) && file in files && files[file].Ok? then [Day(file, files[file].value)] else [])
      + Days(files, name, listing[1..])
  }

  lemma {:induction false} DaysAreTheListed(files: map<string, Result<u64, ()>>, name: string, listing: seq<string>)
    requires forall i, j :: 0 <= i < j < |listing| ==> listing[i] != listing[j]
    ensures Distinct(Days(files, name, listing))
    ensures forall day :: day in Days(files, name, listing) <==>
      && day.file in listing && IsDayOf(name, day.file) && day.file in files && files[day.file] == Ok(day.bytes)
  {
    hide IsDayOf;
    if listing != [] {
      DaysAreTheListed(files, name, listing[1..]);
      var file := listing[0];
      var rest := Days(files, name, listing[1..]);
      assert listing == [file] + listing[1..];
      assert forall day :: day in rest ==> day.file != file;
      if IsDayOf(name, file) && file in files && files[file].Ok? {
        assert Days(files, name, listing) == [Day(file, files[file].value)] + rest;
      } else {
        assert Days(files, name, listing) == rest;
      }
    }
  }

  /** The days are taken newest first, and every file but the ones past the budget is left as it was. */
  method PruneToSize(dir: Directory, listing: Option<seq<string>>, name: string, budget: u64)
    requires listing.Some? ==> dir.Lists(listing.value)
    modifies dir
    ensures listing.None? ==> dir.files == old(dir.files)
    ensures listing.Some? ==>
      var days := NewestFirst(Days(old(dir.files), name, listing.value));
      dir.files == old(dir.files) - (Dropped(days, budget) - dir.stuck)
  {
    hide Days, NewestFirst;
    if listing.None? { return; }
    var journals := NewestFirst(Days(dir.files, name, listing.value));
    assert Total(journals, 0) == 0;
    hide Total;
    ghost var gone: set<string> := {};
    var kept: u64 := 0;
    for index := 0 to |journals|
      invariant kept == Saturated(Total(journals, index))
      invariant forall file :: file in gone <==>
        exists i :: 0 <= i < index && Over(journals, budget, i) && journals[i].file == file
      invariant dir.files == old(dir.files) - (gone - dir.stuck)
    {
      AddUp(journals, index);
      kept := Saturated(kept + journals[index].bytes);
      if index > 0 && kept > budget {
        dir.Remove(journals[index].file);
        gone := gone + {journals[index].file};
      }
    }
    assert gone == Dropped(journals, budget);
  }

  lemma AddUp(days: seq<Day>, k: nat)
    requires k < |days|
    ensures Saturated(Saturated(Total(days, k)) + days[k].bytes) == Saturated(Total(days, k + 1))
  {
  }

  /**
   What a pruning under which every removal succeeds leaves of a directory read whole: of this journal's days,
   newest first, the longest run that fits and no more, and every other file.
   */
  lemma PruningKeepsTheLongestRun(files: map<string, Result<u64, ()>>, name: string, listing: seq<string>, budget: u64,
                                  left: map<string, Result<u64, ()>>) returns (days: seq<Day>, n: nat)
    requires forall i, j :: 0 <= i < j < |listing| ==> listing[i] != listing[j]
    requires forall file :: file in listing <==> file in files
    requires left == files - Dropped(NewestFirst(Days(files, name, listing)), budget)
    ensures Descending(days) && LongestRun(days, budget, n)
    ensures forall day :: day in days <==>
      IsDayOf(name, day.file) && day.file in files && files[day.file] == Ok(day.bytes)
    ensures forall i :: 0 <= i < |days| ==> (days[i].file in left <==> i < n)
    ensures forall file :: file in files && !(IsDayOf(name, file) && files[file].Ok?) ==> file in left
    ensures forall file :: file in left ==> file in files && left[file] == files[file]
  {
    hide Total, Over, LongestRun, Below, IsDayOf, Days, NewestFirst;
    DaysAreTheListed(files, name, listing);
    var listed := Days(files, name, listing);
    SortingSorts(listed);
    days := NewestFirst(listed);
    forall day ensures day in days <==> day in listed {
      assert day in multiset(days) <==> day in multiset(listed);
    }
    n := ALongestRun(days, budget);
    ExactlyTheLongestRunStays(days, budget, n);
    forall i | 0 <= i < |days| ensures days[i].file in files { assert days[i] in days; }
    assert forall i :: 0 <= i < |days| ==> days[i] in days;
  }

  lemma ALongestRun(days: seq<Day>, budget: u64) returns (n: nat)
    ensures LongestRun(days, budget, n)
  {
    n := ThereIsALongestRun(days, budget, if days == [] then 0 else 1);
  }
}
