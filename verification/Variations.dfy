/**
 The degraded streams of conformance/shared/variation.py: `parse`, `_split_frames` and `chunk_stream`. What a
 number reads as, and how a name is encoded, are given; a pause is an event beside the chunks.
 */
module Variations {
  import opened Outcomes
  import opened Sequences
  import opened Strings

  const NL: byte := 10
  const DELIM: Bytes := [NL, NL]

  function Ascii(s: string): Bytes
    requires forall i :: 0 <= i < |s| ==> s[i] < '\U{80}'
  {
    seq(|s|, i requires 0 <= i < |s| => s[i] as int)
  }

  const DATA: Bytes := Ascii("data:")
  const CORRUPTED: Bytes := Ascii("data: {corrupted-by-uze-variation} ")

  // ----- The specification -----

  const SUPPORTED := ["slow_sse", "disconnect_after", "duplicate", "malformed", "chopped"]

  datatype Step = Step(kind: string, arg: string)

  function StepOf(token: string): Step {
    var (kind, arg) := SplitOnce(token, ':');
    Step(Trim(kind), if arg.Some? then Trim(arg.value) else "")
  }

  function StepsOf(tokens: seq<string>): seq<Step> {
    if tokens == [] then []
    else (if Trim(tokens[0]) == "" then [] else [StepOf(Trim(tokens[0]))]) + StepsOf(tokens[1..])
  }

  function InvalidOf(tokens: seq<string>): seq<string> {
    if tokens == [] then []
    else
      (if Trim(tokens[0]) == "" || StepOf(Trim(tokens[0])).kind in SUPPORTED then [] else [Trim(tokens[0])])
      + InvalidOf(tokens[1..])
  }

  function Steps(spec: string): seq<Step> { StepsOf(Split(spec, ',')) }

  /** One token more, from the front. */
  lemma NextToken(tokens: seq<string>, i: nat)
    requires i < |tokens|
    ensures var token := Trim(tokens[i]); var rest := tokens[i + 1..];
      && StepsOf(tokens[i..]) == (if token == "" then StepsOf(rest) else [StepOf(token)] + StepsOf(rest))
      && InvalidOf(tokens[i..]) ==
           if token == "" || StepOf(token).kind in SUPPORTED then InvalidOf(rest) else [token] + InvalidOf(rest)
  {
    hide Trim, StepOf;
    var front, rest := tokens[i..], tokens[i + 1..];
    assert front[0] == tokens[i] && front[1..] == rest && [] + StepsOf(rest) == StepsOf(rest);
    assert [] + InvalidOf(rest) == InvalidOf(rest);
  }

  method Parse(spec: string) returns (steps: seq<Step>, invalid: seq<string>)
    ensures steps == Steps(spec) && invalid == InvalidOf(Split(spec, ','))
  {
    assert StepsOf([]) == [] && InvalidOf([]) == [];
    hide Trim, StepOf, Split, StepsOf, InvalidOf;
    var tokens := Split(spec, ',');
    steps, invalid := [], [];
    assert tokens[0..] == tokens;
    for i := 0 to |tokens|
      invariant Steps(spec) == steps + StepsOf(tokens[i..])
      invariant InvalidOf(tokens) == invalid + InvalidOf(tokens[i..])
    {
      NextToken(tokens, i);
      var token := Trim(tokens[i]);
      if token == "" { continue; }
      Moved(steps, StepOf(token), StepsOf(tokens[i + 1..]));
      steps := steps + [StepOf(token)];
      if StepOf(token).kind !in SUPPORTED {
        Moved(invalid, token, InvalidOf(tokens[i + 1..]));
        invalid := invalid + [token];
      }
    }
    assert tokens[|tokens|..] == [];
  }

  lemma Moved<T>(done: seq<T>, next: T, rest: seq<T>)
    ensures done + ([next] + rest) == (done + [next]) + rest
  {
  }

  /** No typo goes unseen: nothing is reported exactly when every step is of a kind there is. */
  lemma {:induction false} EveryTypoIsReported(tokens: seq<string>)
    ensures InvalidOf(tokens) == [] <==> forall step :: step in StepsOf(tokens) ==> step.kind in SUPPORTED
    ensures forall token :: token in InvalidOf(tokens) ==> StepOf(token) in StepsOf(tokens)
  {
    hide Trim, StepOf;
    if tokens != [] {
      EveryTypoIsReported(tokens[1..]);
      var token := Trim(tokens[0]);
      if token != "" {
        assert StepsOf(tokens) == [StepOf(token)] + StepsOf(tokens[1..]);
        assert StepOf(token) in StepsOf(tokens);
      }
    }
  }

  function PrintStep(step: Step): string { step.kind + ":" + step.arg }

  /** A step that can be written down. */
  predicate Plain(step: Step) {
    ',' !in step.kind && ':' !in step.kind && ',' !in step.arg && Bare(step.kind) && Bare(step.arg)
  }

  lemma StepIsRead(step: Step)
    requires Plain(step)
    ensures ',' !in PrintStep(step) && Trim(PrintStep(step)) == PrintStep(step) && StepOf(PrintStep(step)) == step
  {
    SplitOnceAtFirst(step.kind, step.arg, ':');
    assert PrintStep(step) == step.kind + [':'] + step.arg;
    BareIsKept(PrintStep(step));
    BareIsKept(step.kind);
    BareIsKept(step.arg);
  }

  lemma {:induction false} TokensAreRead(steps: seq<Step>)
    requires forall i :: 0 <= i < |steps| ==> Plain(steps[i])
    ensures StepsOf(seq(|steps|, i requires 0 <= i < |steps| => PrintStep(steps[i]))) == steps
  {
    hide Trim, StepOf;
    var tokens := seq(|steps|, i requires 0 <= i < |steps| => PrintStep(steps[i]));
    if steps != [] {
      assert tokens[1..] == seq(|steps| - 1, i requires 0 <= i < |steps| - 1 => PrintStep(steps[1..][i]));
      TokensAreRead(steps[1..]);
      StepIsRead(steps[0]);
    }
  }

  /** Steps come back as they were written, whatever their kinds. */
  lemma ParseInvertsPrint(steps: seq<Step>)
    requires steps != [] && forall i :: 0 <= i < |steps| ==> Plain(steps[i])
    ensures Steps(Join(seq(|steps|, i requires 0 <= i < |steps| => PrintStep(steps[i])), ',')) == steps
  {
    hide StepOf, PrintStep;
    var tokens := seq(|steps|, i requires 0 <= i < |steps| => PrintStep(steps[i]));
    TokensAreRead(steps);
    forall i | 0 <= i < |steps| ensures ',' !in tokens[i] { StepIsRead(steps[i]); }
    SplitInvertsJoin(tokens, ',');
  }

  // ----- Frames -----

  /** `payload.split(b"\n\n")`: cut at the leftmost blank line, and on from behind it. */
  function Pieces(s: Bytes): (pieces: seq<Bytes>)
    ensures pieces != []
    decreases |s|
  {
    if s == [] then [[]]
    else if DELIM <= s then [[]] + Pieces(s[2..])
    else var pieces := Pieces(s[1..]); [[s[0]] + pieces[0]] + pieces[1..]
  }

  function NonEmpty(pieces: seq<Bytes>): seq<Bytes> {
    if pieces == [] then [] else (if pieces[0] == [] then [] else [pieces[0]]) + NonEmpty(pieces[1..])
  }

  function Frames(payload: Bytes): seq<Bytes> { NonEmpty(Pieces(payload)) }

  predicate EndsInNewline(s: Bytes) { s != [] && s[|s| - 1] == NL }

  ghost predicate NoGap(s: Bytes) { forall i, j :: 0 <= i < |s| && j == i + 1 < |s| ==> s[i] != NL || s[j] != NL }

  /** Cut as far as it goes, and each piece but the last at its leftmost blank line. */
  ghost predicate WellCut(pieces: seq<Bytes>) {
    forall i :: 0 <= i < |pieces| ==> NoGap(pieces[i]) && (i < |pieces| - 1 ==> !EndsInNewline(pieces[i]))
  }

  lemma GrownIsWellCut(c: byte, pieces: seq<Bytes>)
    requires WellCut(pieces) && pieces != []
    requires c == NL ==> (pieces[0] == [] && |pieces| == 1) || (pieces[0] != [] && pieces[0][0] != NL)
    ensures WellCut([[c] + pieces[0]] + pieces[1..])
  {
    var grown := [c] + pieces[0];
    forall i, j | 0 <= i < |grown| && j == i + 1 < |grown| ensures grown[i] != NL || grown[j] != NL {
      assert i > 0 ==> grown[i] == pieces[0][i - 1];
      assert grown[j] == pieces[0][j - 1];
    }
    assert NoGap(grown) && (|pieces| > 1 ==> !EndsInNewline(grown)) by {
      assert pieces[0] != [] ==> grown[|grown| - 1] == pieces[0][|pieces[0]| - 1];
    }
  }

  lemma {:induction false} PiecesAreWellCut(s: Bytes)
    ensures WellCut(Pieces(s))
    ensures Pieces(s)[0] != [] ==> s != [] && Pieces(s)[0][0] == s[0]
    ensures Pieces(s)[0] == [] && |Pieces(s)| > 1 ==> DELIM <= s
    ensures Pieces(s)[0] == [] && |Pieces(s)| == 1 ==> s == []
    decreases |s|
  {
    if s != [] && DELIM <= s {
      PiecesAreWellCut(s[2..]);
    } else if s != [] {
      hide WellCut;
      PiecesAreWellCut(s[1..]);
      GrownIsWellCut(s[0], Pieces(s[1..]));
    }
  }

  lemma {:induction false} FramesStayWellCut(pieces: seq<Bytes>)
    requires WellCut(pieces)
    ensures WellCut(NonEmpty(pieces)) && [] !in NonEmpty(pieces)
  {
    hide NoGap, EndsInNewline;
    if pieces != [] {
      assert WellCut(pieces[1..]) by {
        forall i | 0 <= i < |pieces| - 1
          ensures NoGap(pieces[1..][i]) && (i < |pieces| - 2 ==> !EndsInNewline(pieces[1..][i]))
        {
          assert pieces[1..][i] == pieces[i + 1];
        }
      }
      FramesStayWellCut(pieces[1..]);
      assert |pieces| == 1 ==> NonEmpty(pieces[1..]) == [];
    }
  }

  /** Each frame behind the other, a blank line after each. */
  function Delimited(frames: seq<Bytes>): Bytes {
    if frames == [] then [] else frames[0] + DELIM + Delimited(frames[1..])
  }

  lemma {:induction false} DelimitedJoins(a: seq<Bytes>, b: seq<Bytes>)
    ensures Delimited(a + b) == Delimited(a) + Delimited(b)
  {
    if a == [] {
      assert a + b == b;
    } else {
      assert (a + b)[1..] == a[1..] + b;
      DelimitedJoins(a[1..], b);
    }
  }

  lemma {:induction false} PieceIsCut(f: Bytes, rest: Bytes)
    requires NoGap(f)
    ensures Pieces(f) == [f]
    ensures !EndsInNewline(f) ==> Pieces(f + DELIM + rest) == [f] + Pieces(rest)
  {
    var s := f + DELIM + rest;
    if f == [] {
      assert s[2..] == rest;
    } else {
      assert f == [f[0]] + f[1..];
      assert s[1..] == f[1..] + DELIM + rest;
      PieceIsCut(f[1..], rest);
      if !EndsInNewline(f) {
        assert s[0] == f[0] && s[1] == (if |f| > 1 then f[1] else NL);
      }
    }
  }

  /** A frame that is cut off again where it was before. */
  ghost predicate Whole(f: Bytes) { f != [] && NoGap(f) && !EndsInNewline(f) }

  lemma {:induction false} WholeFramesAreCut(frames: seq<Bytes>, tail: Bytes)
    requires forall i :: 0 <= i < |frames| ==> Whole(frames[i])
    ensures Frames(Delimited(frames) + tail) == frames + Frames(tail)
  {
    hide NoGap, EndsInNewline, Pieces;
    if frames == [] {
      assert Delimited(frames) + tail == tail;
    } else {
      assert forall i :: 0 <= i < |frames| - 1 ==> frames[1..][i] == frames[i + 1];
      WholeFramesAreCut(frames[1..], tail);
      assert Delimited(frames) + tail == frames[0] + DELIM + (Delimited(frames[1..]) + tail);
      PieceIsCut(frames[0], Delimited(frames[1..]) + tail);
      assert ([frames[0]] + Pieces(Delimited(frames[1..]) + tail))[1..] == Pieces(Delimited(frames[1..]) + tail);
    }
  }

  /** A frame ending in a newline is cut one byte early, and the newline becomes a frame. */
  lemma ANewlineIsCutOff(body: Bytes)
    requires NoGap(body) && !EndsInNewline(body)
    ensures Frames(body + [NL] + DELIM) == (if body == [] then [] else [body]) + [[NL]]
  {
    hide EndsInNewline;
    assert body + [NL] + DELIM == body + DELIM + [NL];
    PieceIsCut(body, [NL]);
    PieceIsCut([NL], []);
    assert NonEmpty([[NL]]) == [[NL]];
    assert ([body] + [[NL]])[1..] == [[NL]];
  }

  /**
   Written out again and cut again, a payload's frames are the same exactly when the last of them does not
   end in a newline (or is nothing else).
   */
  lemma ResplitIsTheSame(payload: Bytes)
    ensures var frames := Frames(payload);
      Frames(Delimited(frames)) == frames <==>
      frames == [] || !EndsInNewline(frames[|frames| - 1]) || frames[|frames| - 1] == [NL]
  {
    assert Frames([]) == [];
    hide NoGap, Frames, Delimited, EndsInNewline;
    FramesAreWellCut(payload);
    var frames := Frames(payload);
    if frames == [] {
      DelimitedOfFew([]);
    } else {
      var last := |frames| - 1;
      assert frames == frames[..last] + [frames[last]];
      DelimitedJoins(frames[..last], [frames[last]]);
      DelimitedOfFew(frames[last]);
      WholeFramesAreCut(frames[..last], frames[last] + DELIM);
      LastIsCut(frames[last]);
    }
  }

  lemma FramesAreWellCut(payload: Bytes)
    ensures WellCut(Frames(payload)) && [] !in Frames(payload)
  {
    PiecesAreWellCut(payload);
    FramesStayWellCut(Pieces(payload));
  }

  lemma DelimitedOfFew(f: Bytes)
    ensures Delimited([]) == [] && Delimited([f]) == f + DELIM
  {
    assert [f][1..] == [];
    assert Delimited([f]) == f + DELIM + Delimited([]);
  }

  lemma LastIsCut(f: Bytes)
    requires f != [] && NoGap(f)
    ensures Frames(f + DELIM) == [f] <==> !EndsInNewline(f) || f == [NL]
  {
    assert Frames([]) == [];
    hide Frames;
    if EndsInNewline(f) {
      var body := f[..|f| - 1];
      assert f == body + [NL];
      ANewlineIsCutOff(body);
    } else {
      DelimitedOfFew(f);
      WholeFramesAreCut([f], []);
      assert Delimited([f]) + [] == f + DELIM;
      assert [f] + [] == [f];
    }
  }

  // ----- The stream -----

  datatype Event = Yield(chunk: Bytes) | Sleep(seconds: real)

  function Wire(events: seq<Event>): Bytes {
    if events == [] then [] else (if events[0].Yield? then events[0].chunk else []) + Wire(events[1..])
  }

  lemma {:induction false} WireJoins(a: seq<Event>, b: seq<Event>)
    ensures Wire(a + b) == Wire(a) + Wire(b)
  {
    if a == [] {
      assert a + b == b;
    } else {
      assert (a + b)[1..] == a[1..] + b;
      WireJoins(a[1..], b);
    }
  }

  /** What stands behind the first `needle`, if it is there: `split(needle, 1)` and `in`. */
  function After(needle: Bytes, s: Bytes): Option<Bytes> {
    if needle <= s then Some(s[|needle|..]) else if s == [] then None else After(needle, s[1..])
  }

  predicate AnyIn(names: seq<Bytes>, s: Bytes) {
    exists i :: 0 <= i < |names| && After(names[i], s).Some?
  }

  /** What the steps of a specification ask for. */
  datatype Settings = Settings(after: int, slow: real, twice: seq<Bytes>, broken: seq<Bytes>, chopped: int)

  datatype Reading = Reading(number: string -> Result<int, ()>, seconds: string -> Result<real, ()>,
                             encode: string -> Bytes)

  function First(steps: seq<Step>, kind: string): Option<string> {
    if steps == [] then None else if steps[0].kind == kind then Some(steps[0].arg) else First(steps[1..], kind)
  }

  function Named(env: Reading, steps: seq<Step>, kind: string): seq<Bytes> {
    if steps == [] then []
    else
      (if steps[0].kind == kind && (kind == "duplicate" ==> steps[0].arg != "") then [env.encode(steps[0].arg)] else [])
      + Named(env, steps[1..], kind)
  }

  function Read(env: Reading, steps: seq<Step>): Result<Settings, ()> {
    var after := First(steps, "disconnect_after");
    var count := if after.None? || after.value == "" then Ok(0) else env.number(after.value);
    var slow := First(steps, "slow_sse");
    var pause := if slow.None? then Ok(0.0) else env.seconds(slow.value);
    var chopped := First(steps, "chopped");
    var split := if chopped.None? then Ok(0) else env.number(chopped.value);
    if count.Err? || pause.Err? || split.Err? then Err(())
    else
      Ok(Settings(count.value, pause.value, Named(env, steps, "duplicate"), Named(env, steps, "malformed"),
                  split.value))
  }

  function Pause(o: Settings): seq<Event> { if o.slow != 0.0 then [Sleep(o.slow)] else [] }

  /** One frame as it is served: in two halves, broken, or as it is, and the blank line after it. */
  function Part(o: Settings, index: nat, part: Bytes): seq<Event> {
    Pause(o) +
    (if o.chopped != 0 && index + 1 == o.chopped then
       [Yield(part[..|part| / 2]), Sleep(if o.slow <= 0.0 then 0.3 else o.slow), Yield(part[|part| / 2..])]
     else if AnyIn(o.broken, part) then
       var head := After(DATA, part);
       [Yield(CORRUPTED + if head.Some? then head.value else [])]
     else
       [Yield(part)])
    + [Yield(DELIM)]
  }

  function Times(o: Settings, frame: Bytes): (times: nat)
    ensures times == 1 || times == 2
  {
    if AnyIn(o.twice, frame) then 2 else 1
  }

  /** The first `k` frames served. */
  function Upto(o: Settings, frames: seq<Bytes>, k: nat): seq<Event>
    requires k <= |frames|
  {
    if k == 0 then [] else
      var part := Part(o, k - 1, frames[k - 1]);
      Upto(o, frames, k - 1) + (if Times(o, frames[k - 1]) == 2 then part + part else part)
  }

  function Count(o: Settings, frames: seq<Bytes>, k: nat): nat
    requires k <= |frames|
  {
    if k == 0 then 0 else Count(o, frames, k - 1) + Times(o, frames[k - 1])
  }

  predicate Enough(o: Settings, served: nat) { o.after != 0 && served >= o.after }

  /** Frames are served until enough are, or all. */
  ghost predicate StopsAt(o: Settings, frames: seq<Bytes>, k: nat) {
    && k <= |frames|
    && (forall j :: 0 <= j < k ==> !Enough(o, Count(o, frames, j)))
    && (k < |frames| ==> Enough(o, Count(o, frames, k)))
  }

  ghost predicate Served(o: Settings, frames: seq<Bytes>, events: seq<Event>) {
    exists k: nat :: StopsAt(o, frames, k) && events == Upto(o, frames, k)
  }

  /** `time.sleep` refuses a negative time: the first part served never gets past its pause. */
  predicate Refuses(o: Settings, frames: seq<Bytes>) { o.slow < 0.0 && frames != [] && !Enough(o, 0) }

  ghost predicate Streamed(env: Reading, payload: Bytes, spec: string, out: Result<seq<Event>, ()>) {
    var o := Read(env, Steps(spec));
    if Steps(spec) == [] then out == Ok([Yield(payload)])
    else if o.Err? || Refuses(o.value, Frames(payload)) then out == Err(())
    else out.Ok? && Served(o.value, Frames(payload), out.value)
  }

  method ChunkStream(env: Reading, payload: Bytes, spec: string) returns (out: Result<seq<Event>, ()>)
    ensures Streamed(env, payload, spec, out)
  {
    hide Frames, Steps, Read, Served, Refuses;
    var steps, _ := Parse(spec);
    if steps == [] { return Ok([Yield(payload)]); }
    var frames := Frames(payload);
    var read := Read(env, steps);
    if read.Err? { return Err(()); }
    out := ServeFrames(read.value, frames);
  }

  /** The loop over frames. */
  method ServeFrames(o: Settings, frames: seq<Bytes>) returns (out: Result<seq<Event>, ()>)
    ensures if Refuses(o, frames) then out == Err(()) else out.Ok? && Served(o, frames, out.value)
  {
    hide Times, Upto, Count, Enough;
    NoneServed(o, frames);
    var events: seq<Event> := [];
    var streamed := 0;
    var index := 0;
    while index < |frames|
      invariant 0 <= index <= |frames|
      invariant events == Upto(o, frames, index) && streamed == Count(o, frames, index)
      invariant forall j :: 0 <= j < index ==> !Enough(o, Count(o, frames, j))
      invariant index > 0 ==> o.slow >= 0.0
    {
      if Enough(o, streamed) { break; }
      OneServed(o, frames, index);
      var more := ServeFrame(o, frames, index, events);
      if more.Err? { return Err(()); }
      events := more.value;
      streamed := streamed + Times(o, frames[index]);
      index := index + 1;
    }
    assert StopsAt(o, frames, index);
    out := Ok(events);
  }

  /** Such as a lone `slow_sse:-1` over any payload that holds a frame. */
  lemma ANegativePauseRaises(env: Reading, payload: Bytes, out: Result<seq<Event>, ()>)
    requires env.seconds("-1") == Ok(-1.0) && Frames(payload) != []
    requires Streamed(env, payload, PrintStep(Step("slow_sse", "-1")), out)
    ensures out == Err(())
  {
    hide *;
    SlowStepIsPlain();
    LoneStepIsRead(Step("slow_sse", "-1"));
    SlowAlone(env);
    RefusedIsErr(env, payload, PrintStep(Step("slow_sse", "-1")), out);
  }

  lemma SlowStepIsPlain()
    ensures Plain(Step("slow_sse", "-1"))
  {
  }

  lemma LoneStepIsRead(step: Step)
    requires Plain(step)
    ensures Steps(PrintStep(step)) == [step]
  {
    hide Steps, Plain, PrintStep;
    var steps := [step];
    ParseInvertsPrint(steps);
    var printed := seq(|steps|, i requires 0 <= i < |steps| => PrintStep(steps[i]));
    assert printed == [PrintStep(step)] && Join(printed, ',') == PrintStep(step);
  }

  lemma SlowAlone(env: Reading)
    requires env.seconds("-1") == Ok(-1.0)
    ensures var o := Read(env, [Step("slow_sse", "-1")]); o.Ok? && o.value.slow == -1.0 && o.value.after == 0
  {
    var steps := [Step("slow_sse", "-1")];
    hide Named;
    assert steps[1..] == [];
    assert First(steps, "slow_sse") == Some("-1");
    AbsentIsNone(env, steps, "disconnect_after");
    AbsentIsNone(env, steps, "chopped");
  }

  lemma RefusedIsErr(env: Reading, payload: Bytes, spec: string, out: Result<seq<Event>, ()>)
    requires Streamed(env, payload, spec, out) && Steps(spec) != [] && Frames(payload) != []
    requires var o := Read(env, Steps(spec)); o.Ok? && o.value.slow < 0.0 && o.value.after == 0
    ensures out == Err(())
  {
    hide Frames, Steps, Read;
  }

  lemma NoneServed(o: Settings, frames: seq<Bytes>)
    ensures Upto(o, frames, 0) == [] && Count(o, frames, 0) == 0
  {
  }

  lemma OneServed(o: Settings, frames: seq<Bytes>, k: nat)
    requires k < |frames|
    ensures Count(o, frames, k + 1) == Count(o, frames, k) + Times(o, frames[k])
  {
  }

  /** One round of the loop over frames: the frame, and once more if a step names it. */
  method ServeFrame(o: Settings, frames: seq<Bytes>, index: nat, before: seq<Event>)
    returns (out: Result<seq<Event>, ()>)
    requires index < |frames| && before == Upto(o, frames, index)
    ensures out == if o.slow < 0.0 then Err(()) else Ok(Upto(o, frames, index + 1))
  {
    hide AnyIn, After, Part;
    var frame := frames[index];
    var hasDup := AnyIn(o.twice, frame);
    var parts := [frame] + (if hasDup then [frame] else []);
    var events := before;
    for i := 0 to |parts|
      invariant i > 0 ==> o.slow >= 0.0
      invariant i == 0 ==> events == before
      invariant i == 1 ==> events == before + Part(o, index, frame)
      invariant i == 2 ==> events == before + (Part(o, index, frame) + Part(o, index, frame))
    {
      var served := ServePart(o, index, parts[i]);
      if served.Err? { return Err(()); }
      events := events + served.value;
    }
    out := Ok(events);
  }

  method ServePart(o: Settings, index: nat, part: Bytes) returns (out: Result<seq<Event>, ()>)
    ensures out == if o.slow < 0.0 then Err(()) else Ok(Part(o, index, part))
  {
    hide AnyIn, After;
    var served: seq<Event> := [];
    if o.slow != 0.0 {
      if o.slow < 0.0 { return Err(()); }
      served := served + [Sleep(o.slow)];
    }
    if o.chopped != 0 && index + 1 == o.chopped {
      var half := |part| / 2;
      served := served + [Yield(part[..half]), Sleep(if o.slow <= 0.0 then 0.3 else o.slow), Yield(part[half..])];
    } else if AnyIn(o.broken, part) {
      var head := After(DATA, part);
      served := served + [Yield(CORRUPTED + if head.Some? then head.value else [])];
    } else {
      served := served + [Yield(part)];
    }
    served := served + [Yield(DELIM)];
    assert served == Part(o, index, part);
    out := Ok(served);
  }

  // ----- What the steps do to the bytes -----

  /** Halved or whole, a frame's bytes are its own, and so is the blank line; a halved one is never broken. */
  lemma PartIsTheFrame(o: Settings, index: nat, frame: Bytes)
    requires (o.chopped != 0 && index + 1 == o.chopped) || !AnyIn(o.broken, frame)
    ensures Wire(Part(o, index, frame)) == frame + DELIM
  {
    hide AnyIn, Pause, Wire;
    PausesAreSilent(
      o, if o.chopped != 0 && index + 1 == o.chopped then Halves(o, frame) else [Yield(frame), Yield(DELIM)]);
    if o.chopped != 0 && index + 1 == o.chopped {
      assert Part(o, index, frame) == Pause(o) + Halves(o, frame);
      HalvesAreTheFrame(o, frame);
    } else {
      assert Part(o, index, frame) == Pause(o) + [Yield(frame), Yield(DELIM)];
      WireOfTwo(frame);
    }
  }

  function Halves(o: Settings, frame: Bytes): seq<Event> {
    [Yield(frame[..|frame| / 2]), Sleep(if o.slow <= 0.0 then 0.3 else o.slow), Yield(frame[|frame| / 2..]),
     Yield(DELIM)]
  }

  lemma HalvesAreTheFrame(o: Settings, frame: Bytes)
    ensures Wire(Halves(o, frame)) == frame + DELIM
  {
    var half := |frame| / 2;
    WireOfThree(frame[..half], Halves(o, frame)[1], frame[half..]);
    assert frame[..half] + frame[half..] == frame;
  }

  lemma PausesAreSilent(o: Settings, events: seq<Event>)
    ensures Wire(Pause(o) + events) == Wire(events)
  {
    WireJoins(Pause(o), events);
    assert Wire(Pause(o)) == [];
  }

  lemma WireOfTwo(chunk: Bytes)
    ensures Wire([Yield(chunk), Yield(DELIM)]) == chunk + DELIM
  {
    assert [Yield(chunk), Yield(DELIM)][1..] == [Yield(DELIM)];
    assert [Yield(DELIM)][1..] == [];
    assert Wire([Yield(DELIM)]) == DELIM + Wire([]);
  }

  lemma WireOfThree(a: Bytes, pause: Event, b: Bytes)
    requires pause.Sleep?
    ensures Wire([Yield(a), pause, Yield(b), Yield(DELIM)]) == a + b + DELIM
  {
    assert [Yield(a), pause, Yield(b), Yield(DELIM)][1..] == [pause, Yield(b), Yield(DELIM)];
    assert [pause, Yield(b), Yield(DELIM)][1..] == [Yield(b), Yield(DELIM)];
    WireOfTwo(b);
  }

  /** A broken frame keeps only what follows its first `data:`: whatever names the event goes with the rest. */
  lemma ABrokenFrameKeepsItsData(o: Settings, index: nat, head: Bytes, data: Bytes)
    requires index + 1 != o.chopped && AnyIn(o.broken, head + DATA + data)
    requires forall i :: 0 <= i < |head| ==> !(DATA <= (head + DATA + data)[i..])
    ensures Wire(Part(o, index, head + DATA + data)) == CORRUPTED + data + DELIM
  {
    hide AnyIn, After, Wire, Pause;
    var frame := head + DATA + data;
    AfterTheFirst(head, data);
    WireOfTwo(CORRUPTED + data);
    PausesAreSilent(o, [Yield(CORRUPTED + data), Yield(DELIM)]);
    assert Part(o, index, frame) == Pause(o) + [Yield(CORRUPTED + data), Yield(DELIM)];
  }

  lemma {:induction false} AfterNothing(needle: Bytes, s: Bytes)
    requires forall i :: 0 <= i <= |s| ==> !(needle <= s[i..])
    ensures After(needle, s) == None
  {
    assert s[0..] == s;
    if s != [] {
      forall i | 0 <= i <= |s| - 1 ensures !(needle <= s[1..][i..]) { assert s[1..][i..] == s[i + 1..]; }
      AfterNothing(needle, s[1..]);
    }
  }

  /** And one that holds no `data:` keeps nothing. */
  lemma ABrokenFrameWithoutDataKeepsNothing(o: Settings, index: nat, frame: Bytes)
    requires index + 1 != o.chopped && AnyIn(o.broken, frame)
    requires forall i :: 0 <= i <= |frame| ==> !(DATA <= frame[i..])
    ensures Wire(Part(o, index, frame)) == CORRUPTED + DELIM
  {
    hide AnyIn, After, Wire, Pause;
    AfterNothing(DATA, frame);
    WireOfTwo(CORRUPTED);
    assert CORRUPTED + [] == CORRUPTED;
    PausesAreSilent(o, [Yield(CORRUPTED), Yield(DELIM)]);
    assert Part(o, index, frame) == Pause(o) + [Yield(CORRUPTED), Yield(DELIM)];
  }

  lemma {:induction false} AfterTheFirst(head: Bytes, data: Bytes)
    requires forall i :: 0 <= i < |head| ==> !(DATA <= (head + DATA + data)[i..])
    ensures After(DATA, head + DATA + data) == Some(data)
  {
    var s := head + DATA + data;
    if head == [] {
      assert s[|DATA|..] == data;
    } else {
      assert s[0..] == s;
      assert s[1..] == head[1..] + DATA + data;
      forall i | 0 <= i < |head| - 1 ensures !(DATA <= (head[1..] + DATA + data)[i..]) {
        assert s[1..][i..] == s[i + 1..];
      }
      AfterTheFirst(head[1..], data);
    }
  }

  /** Each frame as often as it is served. */
  function Repeated(o: Settings, frames: seq<Bytes>): seq<Bytes> {
    if frames == [] then [] else
      var last := frames[|frames| - 1];
      Repeated(o, frames[..|frames| - 1]) + (if Times(o, last) == 2 then [last, last] else [last])
  }

  lemma {:induction false} UptoIsDelimited(o: Settings, frames: seq<Bytes>, k: nat)
    requires k <= |frames| && o.broken == []
    ensures Wire(Upto(o, frames, k)) == Delimited(Repeated(o, frames[..k]))
    ensures |Repeated(o, frames[..k])| == Count(o, frames, k)
  {
    hide Part, AnyIn;
    if k == 0 {
      DelimitedOfFew([]);
    } else {
      var f := frames[k - 1];
      var part := Part(o, k - 1, f);
      UptoIsDelimited(o, frames, k - 1);
      assert frames[..k][..k - 1] == frames[..k - 1];
      NothingIsBroken(o, f);
      PartIsTheFrame(o, k - 1, f);
      WireJoins(part, part);
      DelimitedOfFew(f);
      DelimitedJoins([f], [f]);
      assert [f] + [f] == [f, f];
      var more := if Times(o, f) == 2 then part + part else part;
      var fs := if Times(o, f) == 2 then [f, f] else [f];
      WireJoins(Upto(o, frames, k - 1), more);
      DelimitedJoins(Repeated(o, frames[..k - 1]), fs);
    }
  }

  lemma NothingIsBroken(o: Settings, f: Bytes)
    requires o.broken == []
    ensures !AnyIn(o.broken, f)
  {
  }

  lemma {:induction false} OnceEach(o: Settings, frames: seq<Bytes>)
    requires o.twice == []
    ensures Repeated(o, frames) == frames
  {
    if frames != [] {
      OnceEach(o, frames[..|frames| - 1]);
      assert frames == frames[..|frames| - 1] + [frames[|frames| - 1]];
    }
  }

  lemma {:induction false} AbsentIsNone(env: Reading, steps: seq<Step>, kind: string)
    requires forall step :: step in steps ==> step.kind != kind
    ensures First(steps, kind) == None && Named(env, steps, kind) == []
  {
    if steps != [] {
      assert steps[0] in steps && forall step :: step in steps[1..] ==> step in steps;
      AbsentIsNone(env, steps[1..], kind);
    }
  }

  /** Slowed and chopped only, every frame is served as it is, a blank line after each. */
  lemma PacingKeepsEveryByte(env: Reading, payload: Bytes, spec: string, out: Result<seq<Event>, ()>)
    requires Streamed(env, payload, spec, out) && out.Ok? && Steps(spec) != []
    requires forall step :: step in Steps(spec) ==> step.kind !in ["disconnect_after", "duplicate", "malformed"]
    ensures Wire(out.value) == Delimited(Frames(payload))
  {
    hide Steps, Frames, Part, Upto, Repeated, Delimited;
    AbsentIsNone(env, Steps(spec), "disconnect_after");
    AbsentIsNone(env, Steps(spec), "duplicate");
    AbsentIsNone(env, Steps(spec), "malformed");
    var o := Read(env, Steps(spec)).value;
    var frames := Frames(payload);
    var k: nat :| StopsAt(o, frames, k) && out.value == Upto(o, frames, k);
    UptoIsDelimited(o, frames, k);
    OnceEach(o, frames[..k]);
    assert frames[..k] == frames;
  }

  lemma {:induction false} UptoGrows(o: Settings, frames: seq<Bytes>, j: nat, k: nat)
    requires j <= k <= |frames|
    ensures Upto(o, frames, j) <= Upto(o, frames, k)
    ensures Count(o, frames, k) - Count(o, frames, j) >= k - j
  {
    hide Part, AnyIn;
    if j < k { UptoGrows(o, frames, j, k - 1); }
  }

  /** Where the bound is left out, nothing else about a frame changes. */
  lemma {:induction false} TheBoundOnlyStops(o: Settings, frames: seq<Bytes>, k: nat)
    requires k <= |frames|
    ensures Upto(o, frames, k) == Upto(o.(after := 0), frames, k)
    ensures Count(o, frames, k) == Count(o.(after := 0), frames, k)
  {
    hide AnyIn, Part;
    if k > 0 {
      TheBoundOnlyStops(o, frames, k - 1);
      PartIgnoresTheBound(o, k - 1, frames[k - 1]);
    }
  }

  lemma PartIgnoresTheBound(o: Settings, index: nat, frame: Bytes)
    ensures Part(o.(after := 0), index, frame) == Part(o, index, frame)
    ensures Times(o.(after := 0), frame) == Times(o, frame)
  {
    hide AnyIn, After;
  }

  lemma OneStop(o: Settings, frames: seq<Bytes>, j: nat, k: nat)
    requires StopsAt(o, frames, j) && StopsAt(o, frames, k)
    ensures j == k
  {
  }

  /**
   What is served under a bound of `n` is what is served without it, up to a whole number of frames: at most
   `n` parts, and one more only where the last frame served is a repeated one; never fewer unless the frames
   run out. A negative `n` serves nothing.
   */
  lemma DisconnectingCutsShort(o: Settings, frames: seq<Bytes>, k: nat)
    requires o.after != 0 && StopsAt(o, frames, k)
    ensures StopsAt(o.(after := 0), frames, |frames|)
    ensures Upto(o, frames, k) <= Upto(o.(after := 0), frames, |frames|)
    ensures o.after < 0 ==> Upto(o, frames, k) == []
    ensures o.after > 0 ==> Count(o, frames, k) <= o.after + 1
    ensures o.after > 0 ==>
      (Count(o, frames, k) == o.after + 1 <==>
       k > 0 && AnyIn(o.twice, frames[k - 1]) && Count(o, frames, k - 1) == o.after - 1)
    ensures k < |frames| ==> Count(o, frames, k) >= o.after
  {
    hide Part, AnyIn;
    TheBoundOnlyStops(o, frames, k);
    UptoGrows(o.(after := 0), frames, k, |frames|);
    if k > 0 {
      assert !Enough(o, Count(o, frames, 0));
      assert !Enough(o, Count(o, frames, k - 1));
    }
  }

  // ----- What they do to the pace -----

  function Sleeps(events: seq<Event>): nat {
    if events == [] then 0 else (if events[0].Sleep? then 1 else 0) + Sleeps(events[1..])
  }

  lemma {:induction false} SleepsJoin(a: seq<Event>, b: seq<Event>)
    ensures Sleeps(a + b) == Sleeps(a) + Sleeps(b)
  {
    if a == [] {
      assert a + b == b;
    } else {
      assert (a + b)[1..] == a[1..] + b;
      SleepsJoin(a[1..], b);
    }
  }

  lemma SleepsOfPart(o: Settings, index: nat, frame: Bytes)
    ensures Sleeps(Part(o, index, frame)) ==
      (if o.slow != 0.0 then 1 else 0) + if o.chopped == index + 1 then 1 else 0
    ensures o.slow != 0.0 ==> Part(o, index, frame)[0] == Sleep(o.slow)
  {
    hide AnyIn, After;
    var part := Part(o, index, frame);
    SleepsOfFew(part);
  }

  lemma SleepsOfFew(events: seq<Event>)
    requires |events| <= 5
    ensures Sleeps(events) ==
      Sleep1(events, 0) + Sleep1(events, 1) + Sleep1(events, 2) + Sleep1(events, 3) + Sleep1(events, 4)
  {
    if events != [] {
      SleepsOfFew(events[1..]);
    }
  }

  function Sleep1(events: seq<Event>, i: nat): nat { if i < |events| && events[i].Sleep? then 1 else 0 }

  /** A pause before each part where one is asked for, and one more inside each part of a chopped frame. */
  lemma {:induction false} PausesAreCounted(o: Settings, frames: seq<Bytes>, k: nat)
    requires k <= |frames|
    ensures Sleeps(Upto(o, frames, k)) ==
      (if o.slow != 0.0 then Count(o, frames, k) else 0) +
      if 0 < o.chopped <= k then Times(o, frames[o.chopped - 1]) else 0
  {
    hide Part, Times;
    if k > 0 {
      var part := Part(o, k - 1, frames[k - 1]);
      PausesAreCounted(o, frames, k - 1);
      SleepsOfPart(o, k - 1, frames[k - 1]);
      SleepsJoin(part, part);
      SleepsJoin(Upto(o, frames, k - 1), if Times(o, frames[k - 1]) == 2 then part + part else part);
    }
  }

  function Without(steps: seq<Step>, kind: string): seq<Step> {
    if steps == [] then []
    else (if steps[0].kind == kind then [] else [steps[0]]) + Without(steps[1..], kind)
  }

  lemma {:induction false} OthersAreKept(env: Reading, steps: seq<Step>, kind: string, other: string)
    requires kind != other
    ensures First(Without(steps, kind), other) == First(steps, other)
    ensures Named(env, Without(steps, kind), other) == Named(env, steps, other)
    ensures First(Without(steps, kind), kind) == None
  {
    if steps != [] {
      OthersAreKept(env, steps[1..], kind, other);
      if steps[0].kind == kind {
        assert Without(steps, kind) == Without(steps[1..], kind);
      } else {
        assert Without(steps, kind)[1..] == Without(steps[1..], kind);
      }
    }
  }

  lemma ReadWithout(env: Reading, steps: seq<Step>)
    requires Read(env, steps).Ok?
    ensures Read(env, Without(steps, "disconnect_after")) == Ok(Read(env, steps).value.(after := 0))
  {
    hide First, Named, Without;
    OthersAreKept(env, steps, "disconnect_after", "slow_sse");
    OthersAreKept(env, steps, "disconnect_after", "chopped");
    OthersAreKept(env, steps, "disconnect_after", "duplicate");
    OthersAreKept(env, steps, "disconnect_after", "malformed");
  }

  /**
   With a bound added to other steps, what is served is a prefix of what they serve by themselves; where they raise
   by themselves, for a negative pause, a bound that does not raise serves nothing.
   */
  lemma ABoundYieldsAPrefix(env: Reading, payload: Bytes, spec: string, unbound: string,
                            out: Result<seq<Event>, ()>, all: Result<seq<Event>, ()>)
    requires Streamed(env, payload, spec, out) && Streamed(env, payload, unbound, all) && out.Ok?
    requires Steps(unbound) == Without(Steps(spec), "disconnect_after") && Steps(unbound) != []
    ensures all.Err? <==> Read(env, Steps(spec)).Ok? && Read(env, Steps(spec)).value.slow < 0.0 && Frames(payload) != []
    ensures all.Ok? ==> out.value <= all.value && Wire(out.value) <= Wire(all.value)
    ensures all.Err? ==> out.value == []
  {
    hide Steps, Frames, Upto, Count, Read;
    assert Without([], "disconnect_after") == [];
    ReadWithout(env, Steps(spec));
    var o := Read(env, Steps(spec)).value;
    var frames := Frames(payload);
    NoneServed(o, frames);
    var k: nat :| StopsAt(o, frames, k) && out.value == Upto(o, frames, k);
    if all.Ok? {
      hide Enough;
      var n: nat :| StopsAt(o.(after := 0), frames, n) && all.value == Upto(o.(after := 0), frames, n);
      UnboundRunsOn(o, frames);
      OneStop(o.(after := 0), frames, n, |frames|);
      TheBoundOnlyStops(o, frames, k);
      UptoGrows(o.(after := 0), frames, k, n);
      WireJoins(out.value, all.value[|out.value|..]);
      assert all.value == out.value + all.value[|out.value|..];
    }
  }

  lemma UnboundRunsOn(o: Settings, frames: seq<Bytes>)
    ensures StopsAt(o.(after := 0), frames, |frames|)
  {
  }
}
