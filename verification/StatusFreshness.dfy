/**
 What a shared `status` shows of the files this host writes: `write_file` and `delete_file` of
 src/ui/extension_host.rs forget the answers around a path and then touch it, while reads go on. The protocol of
 `SharedStatus`, with every edit, and with the moment at which a `run` looks at the checkout.
 */
module StatusFreshness {
  import opened Outcomes
  import opened SharedStatus

  /** A file touched, which of the forgets went before it, and how many reads had been registered by then. */
  datatype Edit = Edit(path: Path, forget: nat, frontier: nat)

  /** How many edits and forgets there had been when a read looked. */
  datatype Glance = Glance(edits: nat, forgets: nat)

  /** `pending` says who has forgotten and is yet to write; `looked` how many edits each last lookup came after. */
  datatype World = World(s: State, edits: seq<Edit>, took: map<nat, Glance>, pending: map<nat, nat>, looked: seq<nat>)

  datatype Act =
    | Base(step: Step)
    | Take(t: nat)     // the `run` of this thread looks at the checkout
    | Write(t: nat)
    | GiveUp(t: nat)   // the write failed

  function Start(threads: nat): World {
    World(Init(threads), [], map[], map[], seq(threads, _ => 0))
  }

  ghost predicate Can(w: World, act: Act) {
    match act
    case Base(step) =>
      && Enabled(w.s, step)
      && ((step.Ask? || step.AskForget?) ==> step.t !in w.pending)
      && (step.End? && step.out.Returned? ==> w.s.pcs[step.t].r in w.took)
    case Take(t) => t < |w.s.pcs| && w.s.pcs[t].Running? && w.s.pcs[t].r !in w.took
    case Write(t) => t in w.pending && w.pending[t] < |w.s.forgets|
    case GiveUp(t) => t in w.pending
  }

  function Next(w: World, act: Act): World
    requires Can(w, act)
  {
    match act
    case Base(step) =>
      w.(s := Apply(w.s, step),
         pending := if step.DropAround? then w.pending[step.t := |w.s.forgets|] else w.pending,
         looked := if (step.Judge? || step.Register?) && step.t < |w.looked| then w.looked[step.t := |w.edits|]
           else w.looked)
    case Take(t) => w.(took := w.took[w.s.pcs[t].r := Glance(|w.edits|, |w.s.forgets|)])
    case Write(t) =>
      var edit := Edit(w.s.forgets[w.pending[t]].path, w.pending[t], |w.s.known|);
      w.(edits := w.edits + [edit], pending := w.pending - {t})
    case GiveUp(t) => w.(pending := w.pending - {t})
  }

  ghost predicate Runs(threads: nat, acts: seq<Act>)
    decreases |acts|, 0
  {
    acts == [] || (Runs(threads, acts[..|acts| - 1]) && Can(After(threads, acts[..|acts| - 1]), acts[|acts| - 1]))
  }

  ghost function After(threads: nat, acts: seq<Act>): World
    requires Runs(threads, acts)
    decreases |acts|, 1
  {
    if acts == [] then Start(threads) else Next(After(threads, acts[..|acts| - 1]), acts[|acts| - 1])
  }

  // ----- What every run keeps -----

  /** The answer a thread is on its way to store. */
  function InHandOf(pc: Pc): Option<(nat, Outcome)> {
    match pc
    case Settling(r, out) => Some((r, out))
    case Stamped(r, out, _) => Some((r, out))
    case Storing(r, out, _) => Some((r, out))
    case _ => None
  }

  lemma StepCarries(s: State, step: Step, u: nat)
    requires Enabled(s, step) && u < |s.pcs|
    ensures var s' := Apply(s, step);
      && |s'.pcs| == |s.pcs| && |s.known| <= |s'.known|
      && (if step == Judge(u) then
            && (Seen(s'.pcs[u]).Some? ==> Seen(s'.pcs[u]).value.forgets == |s.forgets|)
            && Own(s'.pcs[u]) == None && InHandOf(s'.pcs[u]) == None
          else if step == Register(u) then
            Seen(s'.pcs[u]) == None && Own(s'.pcs[u]) == Some(|s.known|) && InHandOf(s'.pcs[u]) == None
          else
            && (Seen(s'.pcs[u]).Some? ==> Seen(s'.pcs[u]) == Seen(s.pcs[u]))
            && (Own(s'.pcs[u]).Some? ==> Own(s'.pcs[u]) == Own(s.pcs[u]))
            && (InHandOf(s'.pcs[u]).Some? ==>
                  InHandOf(s'.pcs[u]) == InHandOf(s.pcs[u])
                  || (step.End? && step.t == u && s.pcs[u].Running?
                      && InHandOf(s'.pcs[u]).value == (s.pcs[u].r, step.out))))
  {
  }

  lemma StepForgets(s: State, step: Step)
    requires Enabled(s, step)
    ensures Apply(s, step).forgets ==
      s.forgets + if step.DropAround? then [Forget(s.pcs[step.t].path, |s.known|)] else []
  {
  }

  /** Answers are stored by `Store` alone. */
  lemma StepStores(s: State, step: Step, r: nat)
    requires Enabled(s, step) && r < |Apply(s, step).known| && Apply(s, step).known[r].answer.Some?
    ensures (r < |s.known| && Apply(s, step).known[r].answer == s.known[r].answer)
      || (step.Store? && InHandOf(s.pcs[step.t]).Some? && InHandOf(s.pcs[step.t]).value.0 == r
          && Apply(s, step).known[r].answer.value.value == Kept(InHandOf(s.pcs[step.t]).value.1))
  {
  }

  ghost predicate EditsOk(w: World) {
    && (forall t :: t in w.pending ==> w.pending[t] < |w.s.forgets|)
    && (forall k :: 0 <= k < |w.edits| ==>
          w.edits[k].forget < |w.s.forgets| && w.edits[k].path == w.s.forgets[w.edits[k].forget].path)
    && (forall i :: 0 <= i < |w.s.forgets| ==> w.s.forgets[i].frontier <= |w.s.known|)
  }

  /** A read looked after every forget, and every edit, that it was registered after. */
  ghost predicate LookOk(w: World, r: nat)
    requires r in w.took
  {
    && r < |w.s.known| && w.took[r].edits <= |w.edits| && w.took[r].forgets <= |w.s.forgets|
    && (forall i :: w.took[r].forgets <= i < |w.s.forgets| ==> r < w.s.forgets[i].frontier)
    && forall k :: w.took[r].edits <= k < |w.edits| ==> r < w.edits[k].frontier
  }

  /** Every edit a lookup came after was forgotten before it, and what it found was registered since. */
  ghost predicate LookedOk(w: World, t: nat)
    requires t < |w.s.pcs| && t < |w.looked|
  {
    var pc := w.s.pcs[t];
    && w.looked[t] <= |w.edits|
    && (forall k :: 0 <= k < w.looked[t] ==>
          && (Seen(pc).Some? ==> w.edits[k].forget < Seen(pc).value.forgets)
          && (Own(pc).Some? && w.edits[k].forget < |w.s.forgets| ==>
                w.s.forgets[w.edits[k].forget].frontier <= Own(pc).value))
    && (InHandOf(pc).Some? && InHandOf(pc).value.1.Returned? ==> InHandOf(pc).value.0 in w.took)
  }

  /** A read that never looked answers that it did not finish. */
  ghost predicate AnswerOk(w: World, r: nat)
    requires r < |w.s.known|
  {
    w.s.known[r].answer.Some? && r !in w.took ==> w.s.known[r].answer.value.value == UNFINISHED
  }

  ghost predicate WorldOk(w: World) {
    && Inv(w.s) && |w.looked| == |w.s.pcs| && EditsOk(w)
    && (forall r :: r in w.took ==> LookOk(w, r))
    && (forall t {:trigger LookedOk(w, t)} :: 0 <= t < |w.s.pcs| ==> LookedOk(w, t))
    && (forall r {:trigger AnswerOk(w, r)} :: 0 <= r < |w.s.known| ==> AnswerOk(w, r))
  }

  lemma BaseKeeps(w: World, step: Step)
    requires WorldOk(w) && Can(w, Base(step))
    ensures WorldOk(Next(w, Base(step)))
  {
    hide Inv, Apply, Enabled;
    var w' := Next(w, Base(step));
    StepKeepsInv(w.s, step);
    StepForgets(w.s, step);
    LengthsKeep(w.s, step);
    BaseKeepsEdits(w, step);
    forall r | r in w'.took ensures LookOk(w', r) { BaseKeepsLook(w, step, r); }
    forall t | 0 <= t < |w'.s.pcs| ensures |w'.looked| == |w'.s.pcs| && LookedOk(w', t) { BaseKeepsLooked(w, step, t); }
    forall r | 0 <= r < |w'.s.known| ensures AnswerOk(w', r) { BaseKeepsAnswer(w, step, r); }
  }

  lemma BaseKeepsEdits(w: World, step: Step)
    requires WorldOk(w) && Can(w, Base(step))
    ensures EditsOk(Next(w, Base(step)))
  {
    hide Inv, Apply, Enabled, LookOk, LookedOk, AnswerOk;
    StepForgets(w.s, step);
    LengthsKeep(w.s, step);
  }

  lemma BaseKeepsLook(w: World, step: Step, r: nat)
    requires WorldOk(w) && Can(w, Base(step)) && r in w.took
    ensures LookOk(Next(w, Base(step)), r)
  {
    hide Inv, Apply, Enabled, LookedOk, AnswerOk;
    assert LookOk(w, r);
    StepForgets(w.s, step);
    LengthsKeep(w.s, step);
  }

  lemma BaseKeepsLooked(w: World, step: Step, t: nat)
    requires WorldOk(w) && Can(w, Base(step)) && t < |w.s.pcs|
    ensures var w' := Next(w, Base(step)); |w'.s.pcs| == |w.s.pcs| == |w'.looked| && LookedOk(w', t)
  {
    hide Inv, Apply, Enabled, AnswerOk, LookOk, Seen, Own, InHandOf;
    assert LookedOk(w, t);
    StepCarries(w.s, step, t);
    StepForgets(w.s, step);
  }

  lemma BaseKeepsAnswer(w: World, step: Step, r: nat)
    requires WorldOk(w) && Can(w, Base(step)) && r < |Next(w, Base(step)).s.known|
    ensures AnswerOk(Next(w, Base(step)), r)
  {
    hide Inv, Apply, Enabled, LookOk, InHandOf;
    if Apply(w.s, step).known[r].answer.Some? {
      StepStores(w.s, step, r);
      if r < |w.s.known| { assert AnswerOk(w, r); }
      if step.Store? { ActorIsThere(w.s, step); assert LookedOk(w, step.t); }
    }
  }

  lemma ActorIsThere(s: State, step: Step)
    requires Enabled(s, step) && !step.Tick?
    ensures step.t < |s.pcs|
  {
  }

  lemma ActKeeps(w: World, act: Act)
    requires WorldOk(w) && Can(w, act)
    ensures WorldOk(Next(w, act))
  {
    match act
    case Base(step) => BaseKeeps(w, step);
    case Take(t) =>
      assert ThreadOk(w.s, t);
      hide Inv;
      TakeKeeps(w, t);
    case _ =>
      hide Inv;
      var w' := Next(w, act);
      forall t | 0 <= t < |w'.s.pcs| ensures LookedOk(w', t) { assert LookedOk(w, t); }
      forall r | 0 <= r < |w'.s.known| ensures AnswerOk(w', r) { assert AnswerOk(w, r); }
      assert forall r :: r in w'.took ==> LookOk(w, r);
  }

  lemma TakeKeeps(w: World, t: nat)
    requires WorldOk(w) && Can(w, Take(t)) && w.s.pcs[t].r < |w.s.known|
    ensures WorldOk(Next(w, Take(t)))
  {
    hide Inv;
    var w' := Next(w, Take(t));
    forall u | 0 <= u < |w'.s.pcs| ensures LookedOk(w', u) { assert LookedOk(w, u); }
    forall r | 0 <= r < |w'.s.known| ensures AnswerOk(w', r) { assert AnswerOk(w, r); }
    forall r | r in w'.took ensures LookOk(w', r) { assert r in w.took ==> LookOk(w, r); }
  }

  lemma {:induction false} RunsKeep(threads: nat, acts: seq<Act>)
    requires Runs(threads, acts)
    ensures WorldOk(After(threads, acts))
  {
    if acts == [] {
      InitKeepsInv(threads);
    } else {
      RunsKeep(threads, acts[..|acts| - 1]);
      ActKeeps(After(threads, acts[..|acts| - 1]), acts[|acts| - 1]);
    }
  }

  // ----- What an answer shows -----

  /** The version that read `r` answers with has edit `k` in it. */
  predicate Shows(w: World, r: nat, k: nat) { r in w.took && k < w.took[r].edits }

  /** Read `r` looked after the forget that goes before edit `k`, and before that edit. */
  predicate LookedBetween(w: World, r: nat, k: nat) {
    r in w.took && k < |w.edits| && w.edits[k].forget < w.took[r].forgets && w.took[r].edits <= k
  }

  /** The reads registered after the forget that goes before edit `k`, and before that edit. */
  predicate RegisteredBetween(w: World, r: nat, k: nat) {
    && k < |w.edits| && w.edits[k].forget < |w.s.forgets|
    && w.s.forgets[w.edits[k].forget].frontier <= r < w.edits[k].frontier
  }

  /**
   Whoever looks up after an edit, and leaves with a read of a root around it, is told that the read did not
   finish, or else shown the edit exactly when that read did not look between the edit and the forget before it.
   No answer comes from before the forget; a read registered after the edit shows it, so one that misses it was
   registered in between as well.
   */
  lemma ALookupAfterAnEditShowsItExactlyWhen(threads: nat, acts: seq<Act>, t: nat, k: nat)
    requires Runs(threads, acts)
    requires var w := After(threads, acts);
      && t < |w.s.pcs| && (w.s.pcs[t].Answered? || w.s.pcs[t].Ran?) && t < |w.looked| && k < w.looked[t]
      && k < |w.edits| && w.s.pcs[t].r < |w.s.known| && w.s.known[w.s.pcs[t].r].key.root <= w.edits[k].path
    ensures var w := After(threads, acts); var r := w.s.pcs[t].r;
      if r !in w.took then Holding(w.s, r, UNFINISHED)
      else
        && w.edits[k].forget < |w.s.forgets| && w.s.forgets[w.edits[k].forget].frontier <= r
        && w.edits[k].forget < w.took[r].forgets && (Shows(w, r, k) <==> !LookedBetween(w, r, k))
        && (w.edits[k].frontier <= r ==> Shows(w, r, k))
        && (!Shows(w, r, k) ==> RegisteredBetween(w, r, k))
  {
    hide After, Runs;
    var w := After(threads, acts);
    RunsKeep(threads, acts);
    assert LookedOk(w, t) && ThreadOk(w.s, t);
    var r := w.s.pcs[t].r;
    assert AnswerOk(w, r);
    if r in w.took {
      assert LookOk(w, r);
      var f := w.edits[k].forget;
      assert Covers(w.s.forgets[f], w.s.known[r].key);
    }
  }

  // ----- A read between the forget and the write -----

  const ROOT: Path := ["repo"]
  const FILE: Path := ["repo", "file"]
  const KEY := Key(ROOT, [])
  const OLD: Answer := Ok("as it was")
  const SEEN := Lookup(0, None, 1)

  const FORGOTTEN := [Base(AskForget(0, FILE)), Base(LockMap(0)), Base(DropAround(0))]
  const ASKING := [Base(Ask(1, KEY)), Base(LockMap(1)), Base(LookUp(1))]
  const LOOKING := [Base(Register(1)), Take(1)]
  const WRITTEN := [Write(0), Base(Ask(2, KEY)), Base(LockMap(2))]
  const JOINED := [Base(LookUp(2)), Base(Judge(2)), Base(Share(2))]
  const RUN := [Base(End(1, Returned(OLD))), Base(Stamp(1)), Base(LockStore(1))]
  const SETTLED := [Base(Store(1)), Base(Notify(1))]
  const TOLD := [Base(LockAnswer(2)), Base(SharedStatus.Step.Look(2))]

  /** What further acts come to, from a world that has been reached. */
  ghost predicate Leads(w: World, acts: seq<Act>, end: World)
    decreases |acts|
  {
    if acts == [] then w == end else Can(w, acts[0]) && Leads(Next(w, acts[0]), acts[1..], end)
  }

  lemma {:induction false} LeadsOn(threads: nat, before: seq<Act>, acts: seq<Act>, end: World)
    requires Runs(threads, before) && Leads(After(threads, before), acts, end)
    ensures Runs(threads, before + acts) && After(threads, before + acts) == end
    decreases |acts|
  {
    hide Can, Next;
    if acts == [] {
      assert before + acts == before;
    } else {
      var more := before + [acts[0]];
      assert more[..|more| - 1] == before && more + acts[1..] == before + acts;
      LeadsOn(threads, more, acts[1..], end);
    }
  }

  const AFTER_FORGET := World(
    State(0, [Idle, Idle, Idle], None, map[], [], [Forget(FILE, 0)]), [], map[], map[0 := 0], [0, 0, 0])
  const AFTER_ASK := World(
    State(0, [Idle, Missing(KEY), Idle], Some(1), map[], [], [Forget(FILE, 0)]), [], map[], map[0 := 0], [0, 0, 0])
  const AFTER_LOOK := World(
    State(0, [Idle, Running(0), Idle], None, map[KEY := 0], [Read(KEY, 1, None, None, false)], [Forget(FILE, 0)]),
    [], map[0 := Glance(0, 1)], map[0 := 0], [0, 0, 0])
  const AFTER_WRITE := AFTER_LOOK.(
    s := AFTER_LOOK.s.(pcs := [Idle, Running(0), HoldMap(KEY)], mapLock := Some(2)),
    edits := [Edit(FILE, 0, 1)], pending := map[])
  const AFTER_JOIN := World(
    State(0, [Idle, Running(0), Want(0, SEEN)], None, map[KEY := 0], [Read(KEY, 1, None, None, false)],
          [Forget(FILE, 0)]),
    [Edit(FILE, 0, 1)], map[0 := Glance(0, 1)], map[], [0, 0, 1])
  const AFTER_RUN := AFTER_JOIN.(
    s := AFTER_JOIN.s.(pcs := [Idle, Storing(0, Returned(OLD), 0), Want(0, SEEN)],
                       known := [Read(KEY, 1, None, Some(1), false)]))
  const AFTER_SETTLE := World(
    State(0, [Idle, Ran(0, Returned(OLD)), Want(0, SEEN)], None, map[KEY := 0],
          [Read(KEY, 1, Some(Settled(0, OLD)), None, true)], [Forget(FILE, 0)]),
    [Edit(FILE, 0, 1)], map[0 := Glance(0, 1)], map[], [0, 0, 1])
  const AFTER_ALL := AFTER_SETTLE.(s := AFTER_SETTLE.s.(pcs := [Idle, Ran(0, Returned(OLD)), Answered(0, OLD, SEEN)]))

  lemma {:induction false} LeadsBy(ws: seq<World>, acts: seq<Act>)
    requires |ws| == |acts| + 1
    requires forall i :: 0 <= i < |acts| ==> Can(ws[i], acts[i]) && ws[i + 1] == Next(ws[i], acts[i])
    ensures Leads(ws[0], acts, ws[|acts|])
    decreases |acts|
  {
    hide Can, Next;
    if acts != [] { LeadsBy(ws[1..], acts[1..]); }
  }

  lemma Forgetting()
    ensures Leads(Start(3), FORGOTTEN, AFTER_FORGET)
  {
    var w0 := Start(3);
    var w1 := Next(w0, FORGOTTEN[0]);
    var w2 := Next(w1, FORGOTTEN[1]);
    var w3 := Next(w2, FORGOTTEN[2]);
    assert w3 == AFTER_FORGET;
    LeadsBy([w0, w1, w2, w3], FORGOTTEN);
  }

  lemma AskingForIt()
    ensures Leads(AFTER_FORGET, ASKING, AFTER_ASK)
  {
    var w0 := AFTER_FORGET;
    var w1 := Next(w0, ASKING[0]);
    var w2 := Next(w1, ASKING[1]);
    var w3 := Next(w2, ASKING[2]);
    assert w3 == AFTER_ASK;
    LeadsBy([w0, w1, w2, w3], ASKING);
  }

  lemma LookingAtIt()
    ensures Leads(AFTER_ASK, LOOKING, AFTER_LOOK)
  {
    var w0 := AFTER_ASK;
    var w1 := Next(w0, LOOKING[0]);
    var w2 := Next(w1, LOOKING[1]);
    assert w2 == AFTER_LOOK;
    LeadsBy([w0, w1, w2], LOOKING);
  }

  lemma WritingIt()
    ensures Leads(AFTER_LOOK, WRITTEN, AFTER_WRITE)
  {
    var w0 := AFTER_LOOK;
    var w1 := Next(w0, WRITTEN[0]);
    var w2 := Next(w1, WRITTEN[1]);
    var w3 := Next(w2, WRITTEN[2]);
    assert w3 == AFTER_WRITE;
    LeadsBy([w0, w1, w2, w3], WRITTEN);
  }

  lemma JoiningIt()
    ensures Leads(AFTER_WRITE, JOINED, AFTER_JOIN)
  {
    var w0 := AFTER_WRITE;
    var w1 := Next(w0, JOINED[0]);
    var w2 := Next(w1, JOINED[1]);
    var w3 := Next(w2, JOINED[2]);
    assert w3 == AFTER_JOIN;
    LeadsBy([w0, w1, w2, w3], JOINED);
  }

  lemma RunningIt()
    ensures Leads(AFTER_JOIN, RUN, AFTER_RUN)
  {
    var w0 := AFTER_JOIN;
    var w1 := Next(w0, RUN[0]);
    var w2 := Next(w1, RUN[1]);
    var w3 := Next(w2, RUN[2]);
    assert w3 == AFTER_RUN;
    LeadsBy([w0, w1, w2, w3], RUN);
  }

  lemma SettlingIt()
    ensures Leads(AFTER_RUN, SETTLED, AFTER_SETTLE)
  {
    var w0 := AFTER_RUN;
    var w1 := Next(w0, SETTLED[0]);
    var w2 := Next(w1, SETTLED[1]);
    assert w2 == AFTER_SETTLE;
    LeadsBy([w0, w1, w2], SETTLED);
  }

  lemma TellingIt()
    ensures Leads(AFTER_SETTLE, TOLD, AFTER_ALL)
  {
    var w0 := AFTER_SETTLE;
    var w1 := Next(w0, TOLD[0]);
    var w2 := Next(w1, TOLD[1]);
    assert w2 == AFTER_ALL;
    LeadsBy([w0, w1, w2], TOLD);
  }

  /**
   The window is there: a read registered between the forget and the write looks before the write, and the next
   `status`, asked for after it, is handed that read's answer.
   */
  lemma TheNextStatusMayMissTheEdit()
    ensures var acts := FORGOTTEN + ASKING + LOOKING + WRITTEN + JOINED + RUN + SETTLED + TOLD;
      && Runs(3, acts) && After(3, acts) == AFTER_ALL
      && AFTER_ALL.looked[2] == 1 == |AFTER_ALL.edits| && AFTER_ALL.s.pcs[2] == Answered(0, OLD, SEEN)
      && ROOT <= AFTER_ALL.edits[0].path && LookedBetween(AFTER_ALL, 0, 0) && !Shows(AFTER_ALL, 0, 0)
  {
    hide Leads, Runs, After;
    NothingRuns();
    Forgetting();
    AskingForIt();
    LookingAtIt();
    WritingIt();
    JoiningIt();
    RunningIt();
    SettlingIt();
    TellingIt();
    assert [] + FORGOTTEN == FORGOTTEN;
    LeadsOn(3, [], FORGOTTEN, AFTER_FORGET);
    LeadsOn(3, FORGOTTEN, ASKING, AFTER_ASK);
    LeadsOn(3, FORGOTTEN + ASKING, LOOKING, AFTER_LOOK);
    LeadsOn(3, FORGOTTEN + ASKING + LOOKING, WRITTEN, AFTER_WRITE);
    LeadsOn(3, FORGOTTEN + ASKING + LOOKING + WRITTEN, JOINED, AFTER_JOIN);
    LeadsOn(3, FORGOTTEN + ASKING + LOOKING + WRITTEN + JOINED, RUN, AFTER_RUN);
    LeadsOn(3, FORGOTTEN + ASKING + LOOKING + WRITTEN + JOINED + RUN, SETTLED, AFTER_SETTLE);
    LeadsOn(3, FORGOTTEN + ASKING + LOOKING + WRITTEN + JOINED + RUN + SETTLED, TOLD, AFTER_ALL);
  }

  lemma NothingRuns()
    ensures Runs(3, []) && After(3, []) == Start(3)
  {
  }
}
