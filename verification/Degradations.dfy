/**
 What each kind of step in a specification of conformance/shared/variation.py does to the bytes, from the text of
 the step to the wire.
 */
module Degradations {
  import opened Outcomes
  import opened Sequences
  import opened Strings
  import opened Variations

  // ----- What a step asks for -----

  lemma TheKindsThereAre(kind: string)
    ensures kind in SUPPORTED <==>
      || kind == "slow_sse" || kind == "disconnect_after" || kind == "duplicate" || kind == "malformed"
      || kind == "chopped"
  {
  }

  /** Of several steps of a kind that takes one number, the first counts. */
  lemma {:induction false} TheFirstCounts(steps: seq<Step>, kind: string, i: nat)
    requires i < |steps| && steps[i].kind == kind && forall j :: 0 <= j < i ==> steps[j].kind != kind
    ensures First(steps, kind) == Some(steps[i].arg)
  {
    if i > 0 {
      assert forall j :: 0 <= j < i - 1 ==> steps[1..][j].kind == steps[j + 1].kind;
      TheFirstCounts(steps[1..], kind, i - 1);
    }
  }

  /** Of those that name an event, all of them count, but for a `duplicate` that names none. */
  lemma {:induction false} AllNamesCount(env: Reading, steps: seq<Step>, kind: string, name: Bytes)
    ensures name in Named(env, steps, kind) <==>
      exists step ::
        step in steps && step.kind == kind && env.encode(step.arg) == name && (kind == "duplicate" ==> step.arg != "")
  {
    if steps != [] {
      AllNamesCount(env, steps[1..], kind, name);
      assert forall step :: step in steps <==> step == steps[0] || step in steps[1..];
    }
  }

  /** A step by itself sets what it is for and nothing else; a number that cannot be read raises. */
  lemma WhatALoneStepAsks(env: Reading, kind: string, arg: string)
    ensures var read := Variations.Read(env, [Step(kind, arg)]);
      if kind == "slow_sse" then
        if env.seconds(arg).Err? then read == Err(()) else read == Ok(Settings(0, env.seconds(arg).value, [], [], 0))
      else if kind == "disconnect_after" then
        if arg == "" then read == Ok(Settings(0, 0.0, [], [], 0))
        else if env.number(arg).Err? then read == Err(())
        else read == Ok(Settings(env.number(arg).value, 0.0, [], [], 0))
      else if kind == "chopped" then
        if env.number(arg).Err? then read == Err(()) else read == Ok(Settings(0, 0.0, [], [], env.number(arg).value))
      else if kind == "duplicate" then
        read == Ok(Settings(0, 0.0, if arg == "" then [] else [env.encode(arg)], [], 0))
      else if kind == "malformed" then read == Ok(Settings(0, 0.0, [], [env.encode(arg)], 0))
      else read == Ok(Settings(0, 0.0, [], [], 0))
  {
    hide First, Named;
    LoneFirst(kind, arg, "slow_sse");
    LoneFirst(kind, arg, "disconnect_after");
    LoneFirst(kind, arg, "chopped");
    LoneNamed(env, kind, arg, "duplicate");
    LoneNamed(env, kind, arg, "malformed");
  }

  lemma LoneFirst(kind: string, arg: string, of: string)
    ensures First([Step(kind, arg)], of) == if kind == of then Some(arg) else None
  {
    assert [Step(kind, arg)][1..] == [] && First([], of) == None;
  }

  lemma LoneNamed(env: Reading, kind: string, arg: string, of: string)
    ensures Named(env, [Step(kind, arg)], of) ==
      if kind == of && (of == "duplicate" ==> arg != "") then [env.encode(arg)] else []
  {
    assert [Step(kind, arg)][1..] == [] && Named(env, [], of) == [];
  }

  // ----- Names in frames -----

  /** The name stands somewhere in the frame. */
  predicate Holds(frame: Bytes, name: Bytes) {
    exists i :: 0 <= i <= |frame| && name <= frame[i..]
  }

  lemma {:induction false} FoundExactlyWhenHeld(name: Bytes, frame: Bytes)
    ensures After(name, frame).Some? <==> Holds(frame, name)
  {
    assert frame[0..] == frame;
    if !(name <= frame) && frame != [] {
      FoundExactlyWhenHeld(name, frame[1..]);
      assert forall i :: 0 <= i < |frame| ==> frame[1..][i..] == frame[i + 1..];
      if Holds(frame, name) {
        var i :| 0 <= i <= |frame| && name <= frame[i..];
        assert frame[1..][i - 1..] == frame[i..];
      }
    }
  }

  lemma OneName(name: Bytes, frame: Bytes)
    ensures AnyIn([name], frame) <==> Holds(frame, name)
    ensures !AnyIn([], frame)
  {
    hide After, Holds;
    FoundExactlyWhenHeld(name, frame);
    assert [name][0] == name;
  }

  // ----- duplicate:<event> -----

  function Doubled(frames: seq<Bytes>, name: Bytes): seq<Bytes> {
    if frames == [] then [] else
      var last := frames[|frames| - 1];
      Doubled(frames[..|frames| - 1], name) + if Holds(last, name) then [last, last] else [last]
  }

  lemma {:induction false} RepeatedIsDoubled(o: Settings, frames: seq<Bytes>, name: Bytes)
    requires o.twice == [name]
    ensures Repeated(o, frames) == Doubled(frames, name)
  {
    hide Holds, AnyIn;
    if frames != [] {
      RepeatedIsDoubled(o, frames[..|frames| - 1], name);
      OneName(name, frames[|frames| - 1]);
    }
  }

  lemma Alone(env: Reading, payload: Bytes, step: Step, out: Result<seq<Event>, ()>, o: Settings)
    requires Plain(step) && Streamed(env, payload, PrintStep(step), out)
    requires Variations.Read(env, [step]) == Ok(o) && o.slow == 0.0
    ensures out.Ok? && Served(o, Frames(payload), out.value)
  {
    hide Steps, Frames, Served, Variations.Read, Plain, PrintStep;
    LoneStepIsRead(step);
  }

  lemma AllAreServed(o: Settings, frames: seq<Bytes>, events: seq<Event>)
    requires o.after == 0 && Served(o, frames, events)
    ensures events == Upto(o, frames, |frames|)
  {
    hide Upto, Count;
    var k: nat :| StopsAt(o, frames, k) && events == Upto(o, frames, k);
  }

  /** Every frame that holds the named event is served twice, the others once. */
  lemma ANamedEventIsDoubled(env: Reading, payload: Bytes, event: string, out: Result<seq<Event>, ()>)
    requires Plain(Step("duplicate", event)) && event != ""
    requires Streamed(env, payload, PrintStep(Step("duplicate", event)), out)
    ensures out.Ok? && Wire(out.value) == Delimited(Doubled(Frames(payload), env.encode(event)))
  {
    hide *;
    var frames := Frames(payload);
    WhatALoneStepAsks(env, "duplicate", event);
    var o := Settings(0, 0.0, [env.encode(event)], [], 0);
    Alone(env, payload, Step("duplicate", event), out, o);
    AllAreServed(o, frames, out.value);
    UptoIsDelimited(o, frames, |frames|);
    assert frames[..|frames|] == frames;
    RepeatedIsDoubled(o, frames, env.encode(event));
  }

  // ----- malformed:<event> -----

  /** What is left of a frame: `data: ` and the note, and what followed its first `data:`, if it has one. */
  function Corrupt(frame: Bytes): Bytes {
    Ascii("data: {corrupted-by-uze-variation} ")
    + match After(Ascii("data:"), frame) case Some(data) => data case None => []
  }

  function Corrupted(frames: seq<Bytes>, name: Bytes): seq<Bytes> {
    seq(|frames|, i requires 0 <= i < |frames| => if Holds(frames[i], name) then Corrupt(frames[i]) else frames[i])
  }

  lemma PartIsCorrupt(o: Settings, index: nat, frame: Bytes, name: Bytes)
    requires o.broken == [name] && o.chopped == 0
    ensures Wire(Part(o, index, frame)) == (if Holds(frame, name) then Corrupt(frame) else frame) + DELIM
  {
    hide AnyIn, After, Wire, Pause, Holds;
    OneName(name, frame);
    var sent := if Holds(frame, name) then Corrupt(frame) else frame;
    assert Part(o, index, frame) == Pause(o) + [Yield(sent), Yield(DELIM)];
    WireOfTwo(sent);
    PausesAreSilent(o, [Yield(sent), Yield(DELIM)]);
  }

  lemma {:induction false} UptoIsCorrupted(o: Settings, frames: seq<Bytes>, name: Bytes, k: nat)
    requires o.broken == [name] && o.chopped == 0 && o.twice == [] && k <= |frames|
    ensures Wire(Upto(o, frames, k)) == Delimited(Corrupted(frames[..k], name))
  {
    hide Part, AnyIn, Holds, Corrupt;
    if k == 0 {
      DelimitedOfFew([]);
    } else {
      var f := frames[k - 1];
      var sent := if Holds(f, name) then Corrupt(f) else f;
      UptoIsCorrupted(o, frames, name, k - 1);
      PartIsCorrupt(o, k - 1, f, name);
      OneName(name, f);
      WireJoins(Upto(o, frames, k - 1), Part(o, k - 1, f));
      DelimitedOfFew(sent);
      assert Corrupted(frames[..k], name) == Corrupted(frames[..k - 1], name) + [sent];
      DelimitedJoins(Corrupted(frames[..k - 1], name), [sent]);
    }
  }

  /** Every frame that holds the named event is broken, the others are served as they are. */
  lemma ANamedEventIsBroken(env: Reading, payload: Bytes, event: string, out: Result<seq<Event>, ()>)
    requires Plain(Step("malformed", event))
    requires Streamed(env, payload, PrintStep(Step("malformed", event)), out)
    ensures out.Ok? && Wire(out.value) == Delimited(Corrupted(Frames(payload), env.encode(event)))
  {
    hide *;
    var frames := Frames(payload);
    WhatALoneStepAsks(env, "malformed", event);
    var o := Settings(0, 0.0, [], [env.encode(event)], 0);
    Alone(env, payload, Step("malformed", event), out, o);
    AllAreServed(o, frames, out.value);
    UptoIsCorrupted(o, frames, env.encode(event), |frames|);
    assert frames[..|frames|] == frames;
  }

  // ----- disconnect_after:<n> -----

  lemma {:induction false} CountedOnce(o: Settings, frames: seq<Bytes>, k: nat)
    requires o.twice == [] && k <= |frames|
    ensures Count(o, frames, k) == k
  {
    if k > 0 { CountedOnce(o, frames, k - 1); }
  }

  /** The first n frames are served, or all there are; all of them if n is 0, and none if it is negative. */
  lemma ABoundServesTheFirst(env: Reading, payload: Bytes, arg: string, n: int, out: Result<seq<Event>, ()>)
    requires Plain(Step("disconnect_after", arg)) && arg != "" && env.number(arg) == Ok(n)
    requires Streamed(env, payload, PrintStep(Step("disconnect_after", arg)), out)
    ensures var frames := Frames(payload);
      && out.Ok?
      && Wire(out.value) ==
           Delimited(if n == 0 || n >= |frames| then frames else if n < 0 then [] else frames[..n])
  {
    hide Steps, Frames, Plain, PrintStep, Streamed, Upto, Repeated, Delimited, Wire, Variations.Read, Count;
    var frames := Frames(payload);
    WhatALoneStepAsks(env, "disconnect_after", arg);
    var o := Settings(n, 0.0, [], [], 0);
    Alone(env, payload, Step("disconnect_after", arg), out, o);
    var k: nat :| StopsAt(o, frames, k) && out.value == Upto(o, frames, k);
    UptoIsDelimited(o, frames, k);
    OnceEach(o, frames[..k]);
    forall j: nat | j <= |frames| ensures Count(o, frames, j) == j { CountedOnce(o, frames, j); }
    StopsThere(o, frames, k);
  }

  lemma StopsThere(o: Settings, frames: seq<Bytes>, k: nat)
    requires StopsAt(o, frames, k) && forall j: nat :: j <= |frames| ==> Count(o, frames, j) == j
    ensures frames[..k] ==
      if o.after == 0 || o.after >= |frames| then frames else if o.after < 0 then [] else frames[..o.after]
  {
    hide Count;
    assert Count(o, frames, k) == k;
    if k > 0 { assert !Enough(o, Count(o, frames, k - 1)); }
  }

  // ----- chopped:<n> and slow_sse:<seconds> -----

  /** Only the named frame is split, in the middle, with a pause of its own where the stream is not slowed. */
  lemma OnlyThatFrameIsSplit(o: Settings, index: nat, frame: Bytes)
    requires !AnyIn(o.broken, frame)
    ensures var half := |frame| / 2;
      Part(o, index, frame) ==
        (if o.slow != 0.0 then [Sleep(o.slow)] else [])
        + (if o.chopped == index + 1
           then [Yield(frame[..half]), Sleep(if o.slow > 0.0 then o.slow else 0.3), Yield(frame[half..])]
           else [Yield(frame)])
        + [Yield([10, 10])]
  {
    hide AnyIn;
  }
}
