/**
 The shared `status` read of src/ui/extension_host.rs, as the interleaved steps of any number of
 threads: the map of registered reads under its own lock, one lock and one condition variable per
 read, the reuse window, the unwind guard, and forgetting by path.

 One step is what a thread does between two points where another thread could be scheduled. A read
 is numbered by its position in `known`, which is the order of registration.
 */
module SharedStatus {
  import opened Outcomes

  // A path is its components, so `Path::starts_with` is the prefix order on sequences.
  type Path = seq<string>
  type Answer = Result<string, string>

  // Clock readings are nanoseconds of the monotonic clock; 500 ms.
  const SHARED_FOR: nat := 500_000_000

  const UNFINISHED: Answer := Err("the status read did not finish")

  datatype Key = Key(root: Path, args: seq<string>)

  datatype Settled = Settled(at: nat, value: Answer)

  /** `told` says that the settler's `notify_all` is behind it. */
  datatype Read = Read(key: Key, runner: nat, answer: Option<Settled>, lock: Option<nat>, told: bool)

  /** What an asker saw when it was handed somebody else's read: history, never consulted by a step. */
  datatype Lookup = Lookup(at: nat, settledAt: Option<nat>, forgets: nat)

  /** How a `run` ended: with an answer, or by unwinding. */
  datatype Outcome = Returned(answer: Answer) | Unwound

  datatype Pc =
    | Idle
    | WantMap(key: Key)                               // about to lock the map
    | HoldMap(key: Key)                               // holds it, about to look the key up
    | HoldBoth(key: Key, r: nat)                      // inside `usable`, holding the read's lock too
    | Sharing(r: nat, seen: Lookup)                   // found usable, still holding the map
    | Missing(key: Key)                               // nothing usable there, still holding the map
    | Running(r: nat)
    | Settling(r: nat, out: Outcome)                  // the guard is dropping
    | Stamped(r: nat, out: Outcome, at: nat)          // `Instant::now()` is taken before the lock
    | Storing(r: nat, out: Outcome, at: nat)
    | Notifying(r: nat, out: Outcome)
    | Want(r: nat, seen: Lookup)                      // about to (re)lock the answer
    | Hold(r: nat, seen: Lookup)
    | Parked(r: nat, seen: Lookup)                    // inside `Condvar::wait`
    | Answered(r: nat, answer: Answer, seen: Lookup)  // handed a shared answer
    | Ran(r: nat, out: Outcome)                       // its own run ended, and is settled
    | WantForget(path: Path)
    | HoldForget(path: Path)

  /** A forget that happened, and how many reads had been registered by then. */
  datatype Forget = Forget(path: Path, frontier: nat)

  datatype State = State(
    now: nat,
    pcs: seq<Pc>,
    mapLock: Option<nat>,
    registered: map<Key, nat>,
    known: seq<Read>,
    forgets: seq<Forget>)

  datatype Step =
    | Tick(elapsed: nat)
    | Ask(t: nat, key: Key)
    | AskForget(t: nat, path: Path)
    | LockMap(t: nat)
    | LookUp(t: nat)
    | Judge(t: nat)                   // the body of `usable`
    | Share(t: nat)
    | Register(t: nat)
    | End(t: nat, out: Outcome)
    | Stamp(t: nat)
    | LockStore(t: nat)
    | Store(t: nat)
    | Notify(t: nat)
    | LockAnswer(t: nat)
    | Look(t: nat)
    | WakeUp(t: nat)                  // a spurious wake-up
    | DropAround(t: nat)
    | Leave(t: nat)

  function Init(threads: nat): State {
    State(0, seq(threads, i => Idle), None, map[], [], [])
  }

  /** What `Settle::drop` stores. */
  function Kept(out: Outcome): Answer {
    match out
    case Returned(answer) => answer
    case Unwound => UNFINISHED
  }

  predicate Covers(f: Forget, key: Key) {
    key.root <= f.path
  }

  /** `usable`: still running, or answered less than the window ago. */
  predicate Usable(answer: Option<Settled>, now: nat) {
    answer.None? || now - answer.value.at < SHARED_FOR
  }

  predicate FreeLock(s: State, r: nat) {
    r < |s.known| && s.known[r].lock.None?
  }

  predicate HasRead(s: State, r: nat) {
    r < |s.known|
  }

  ghost predicate Enabled(s: State, step: Step) {
    if step.Tick? then true else
    step.t < |s.pcs| &&
    var pc := s.pcs[step.t];
    match step
    case Ask(_, _) => pc.Idle?
    case AskForget(_, _) => pc.Idle?
    case LockMap(_) => (pc.WantMap? || pc.WantForget?) && s.mapLock.None?
    case LookUp(_) => pc.HoldMap? && (pc.key in s.registered ==> FreeLock(s, s.registered[pc.key]))
    case Judge(_) => pc.HoldBoth? && HasRead(s, pc.r)
    case Share(_) => pc.Sharing?
    case Register(_) => pc.Missing?
    case End(_, _) => pc.Running?
    case Stamp(_) => pc.Settling?
    case LockStore(_) => pc.Stamped? && FreeLock(s, pc.r)
    case Store(_) => pc.Storing? && HasRead(s, pc.r)
    case Notify(_) => pc.Notifying? && HasRead(s, pc.r)
    case LockAnswer(_) => pc.Want? && FreeLock(s, pc.r)
    case Look(_) => pc.Hold? && HasRead(s, pc.r)
    case WakeUp(_) => pc.Parked?
    case DropAround(_) => pc.HoldForget?
    case Leave(_) => pc.Answered? || pc.Ran?
  }

  function Move(s: State, t: nat, pc: Pc): State
    requires t < |s.pcs|
  {
    s.(pcs := s.pcs[t := pc])
  }

  function SetRead(s: State, r: nat, read: Read): State
    requires r < |s.known|
  {
    s.(known := s.known[r := read])
  }

  /** `notify_all`: everybody waiting on this read goes back to its lock. */
  function Roused(pcs: seq<Pc>, r: nat): (woken: seq<Pc>) {
    seq(|pcs|, i requires 0 <= i < |pcs| =>
      if pcs[i].Parked? && pcs[i].r == r then Want(r, pcs[i].seen) else pcs[i])
  }

  /** The reads that outlive a forget: those whose root does not hold the path. */
  function Retained(registered: map<Key, nat>, path: Path): map<Key, nat> {
    map key | key in registered && !(key.root <= path) :: registered[key]
  }

  function Apply(s: State, step: Step): State
    requires Enabled(s, step)
  {
    match step
    case Tick(elapsed) => s.(now := s.now + elapsed)
    case Ask(t, key) => Move(s, t, WantMap(key))
    case AskForget(t, path) => Move(s, t, WantForget(path))
    case LockMap(t) =>
      var held := s.(mapLock := Some(t));
      (match s.pcs[t]
       case WantMap(key) => Move(held, t, HoldMap(key))
       case WantForget(path) => Move(held, t, HoldForget(path)))
    case LookUp(t) =>
      var key := s.pcs[t].key;
      if key in s.registered then
        var r := s.registered[key];
        Move(SetRead(s, r, s.known[r].(lock := Some(t))), t, HoldBoth(key, r))
      else
        Move(s, t, Missing(key))
    case Judge(t) =>
      var pc := s.pcs[t];
      var read := s.known[pc.r];
      var settledAt := if read.answer.None? then None else Some(read.answer.value.at);
      Move(SetRead(s, pc.r, read.(lock := None)), t,
           if Usable(read.answer, s.now) then Sharing(pc.r, Lookup(s.now, settledAt, |s.forgets|))
           else Missing(pc.key))
    case Share(t) => Move(s.(mapLock := None), t, Want(s.pcs[t].r, s.pcs[t].seen))
    case Register(t) =>
      var key := s.pcs[t].key;
      var r := |s.known|;
      Move(s.(mapLock := None,
              registered := s.registered[key := r],
              known := s.known + [Read(key, t, None, None, false)]),
           t, Running(r))
    case End(t, out) => Move(s, t, Settling(s.pcs[t].r, out))
    case Stamp(t) => Move(s, t, Stamped(s.pcs[t].r, s.pcs[t].out, s.now))
    case LockStore(t) =>
      var pc := s.pcs[t];
      Move(SetRead(s, pc.r, s.known[pc.r].(lock := Some(t))), t, Storing(pc.r, pc.out, pc.at))
    case Store(t) =>
      var pc := s.pcs[t];
      var stored := s.known[pc.r].(answer := Some(Settled(pc.at, Kept(pc.out))), lock := None);
      Move(SetRead(s, pc.r, stored), t, Notifying(pc.r, pc.out))
    case Notify(t) =>
      var pc := s.pcs[t];
      var told := SetRead(s, pc.r, s.known[pc.r].(told := true));
      Move(told.(pcs := Roused(s.pcs, pc.r)), t, Ran(pc.r, pc.out))
    case LockAnswer(t) =>
      var pc := s.pcs[t];
      Move(SetRead(s, pc.r, s.known[pc.r].(lock := Some(t))), t, Hold(pc.r, pc.seen))
    case Look(t) =>
      var pc := s.pcs[t];
      var read := s.known[pc.r];
      Move(SetRead(s, pc.r, read.(lock := None)), t,
           if read.answer.Some? then Answered(pc.r, read.answer.value.value, pc.seen)
           else Parked(pc.r, pc.seen))
    case WakeUp(t) => Move(s, t, Want(s.pcs[t].r, s.pcs[t].seen))
    case DropAround(t) =>
      var path := s.pcs[t].path;
      Move(s.(mapLock := None,
              registered := Retained(s.registered, path),
              forgets := s.forgets + [Forget(path, |s.known|)]),
           t, Idle)
    case Leave(t) => Move(s, t, Idle)
  }

  // ----- Runs -----

  ghost predicate Legal(s: State, steps: seq<Step>)
    decreases |steps|
  {
    steps == [] || (Enabled(s, steps[0]) && Legal(Apply(s, steps[0]), steps[1..]))
  }

  ghost function Run(s: State, steps: seq<Step>): State
    requires Legal(s, steps)
    decreases |steps|
  {
    if steps == [] then s else Run(Apply(s, steps[0]), steps[1..])
  }

  // ----- What every state of every run keeps -----

  predicate HasMap(pc: Pc) {
    pc.HoldMap? || pc.HoldBoth? || pc.Sharing? || pc.Missing? || pc.HoldForget?
  }

  predicate HasAnswer(pc: Pc, r: nat) {
    (pc.HoldBoth? || pc.Storing? || pc.Hold?) && pc.r == r
  }

  /** On its way to storing the answer of read `r`. */
  predicate Working(pc: Pc, r: nat) {
    (pc.Running? || pc.Settling? || pc.Stamped? || pc.Storing?) && pc.r == r
  }

  predicate Waiting(pc: Pc) {
    pc.Want? || pc.Hold? || pc.Parked?
  }

  /** `t` registered read `r`, and has yet to store its answer. */
  predicate InHand(s: State, t: nat, r: nat) {
    r < |s.known| && s.known[r].runner == t && s.known[r].answer.None?
  }

  predicate Holds(s: State, t: nat, r: nat) {
    r < |s.known| && s.known[r].lock == Some(t)
  }

  predicate Found(s: State, key: Key, r: nat) {
    key in s.registered && s.registered[key] == r && r < |s.known|
  }

  /** Read `r` holds `answer`. */
  predicate Holding(s: State, r: nat, answer: Answer) {
    r < |s.known| && s.known[r].answer.Some? && s.known[r].answer.value.value == answer
  }

  /** Read `r` of `key` was registered after each of the first `n` forgets that reach the key. */
  ghost predicate Since(s: State, key: Key, r: nat, n: nat) {
    n <= |s.forgets| && forall i :: 0 <= i < n && Covers(s.forgets[i], key) ==> s.forgets[i].frontier <= r
  }

  /** Read `r` was handed over while unsettled or inside the window, with no forget overlooked. */
  ghost predicate SeenOk(s: State, r: nat, seen: Lookup) {
    && r < |s.known|
    && (seen.settledAt.Some? ==>
          && s.known[r].answer.Some?
          && s.known[r].answer.value.at == seen.settledAt.value
          && seen.at - seen.settledAt.value < SHARED_FOR)
    && Since(s, s.known[r].key, r, seen.forgets)
  }

  ghost predicate ThreadOk(s: State, t: nat)
    requires t < |s.pcs|
  {
    (HasMap(s.pcs[t]) ==> s.mapLock == Some(t)) &&
    match s.pcs[t]
    case Idle => true
    case WantMap(_) => true
    case WantForget(_) => true
    case HoldMap(_) => true
    case HoldForget(_) => true
    case HoldBoth(key, r) => Found(s, key, r) && Holds(s, t, r)
    case Sharing(r, seen) => SeenOk(s, r, seen)
    case Missing(key) =>
      key in s.registered ==> s.registered[key] < |s.known| && s.known[s.registered[key]].answer.Some?
    case Running(r) => InHand(s, t, r)
    case Settling(r, _) => InHand(s, t, r)
    case Stamped(r, _, at) => InHand(s, t, r)
    case Storing(r, _, at) => InHand(s, t, r) && Holds(s, t, r)
    case Notifying(r, out) => Holding(s, r, Kept(out)) && s.known[r].runner == t && !s.known[r].told
    case Want(r, seen) => SeenOk(s, r, seen)
    case Hold(r, seen) => SeenOk(s, r, seen) && Holds(s, t, r)
    case Parked(r, seen) => SeenOk(s, r, seen) && !s.known[r].told
    case Answered(r, answer, seen) => SeenOk(s, r, seen) && Holding(s, r, answer)
    case Ran(r, out) => Holding(s, r, Kept(out)) && s.known[r].runner == t
  }

  /** A held lock has a holder, an unsettled read a runner, an unannounced answer its announcer. */
  ghost predicate ReadOk(s: State, r: nat)
    requires r < |s.known|
  {
    var read := s.known[r];
    && read.runner < |s.pcs|
    && (read.lock.Some? ==> read.lock.value < |s.pcs| && HasAnswer(s.pcs[read.lock.value], r))
    && (read.answer.None? ==> Working(s.pcs[read.runner], r) && !read.told)
    && (read.answer.Some? && !read.told ==> s.pcs[read.runner].Notifying? && s.pcs[read.runner].r == r)
  }

  ghost predicate KeyOk(s: State, key: Key)
    requires key in s.registered
  {
    && s.registered[key] < |s.known|
    && s.known[s.registered[key]].key == key
    && Since(s, key, s.registered[key], |s.forgets|)
  }

  ghost predicate MapOk(s: State) {
    s.mapLock.Some? ==> s.mapLock.value < |s.pcs| && HasMap(s.pcs[s.mapLock.value])
  }

  /** A forget reached `key` after read `r` was registered and before read `limit` was. */
  ghost predicate ForgottenBetween(s: State, key: Key, r: nat, limit: nat) {
    exists i :: 0 <= i < |s.forgets| && Covers(s.forgets[i], key) && r < s.forgets[i].frontier <= limit
  }

  /** An unfinished read is the one registered for its key, unless a forget dropped it. */
  ghost predicate Reachable(s: State, r: nat)
    requires r < |s.known|
  {
    s.known[r].answer.None? ==>
      Found(s, s.known[r].key, r) || ForgottenBetween(s, s.known[r].key, r, |s.known|)
  }

  /** Two reads of one key with the first unfinished: a forget came between them. */
  ghost predicate Apart(s: State, r: nat, q: nat)
    requires r < q < |s.known|
  {
    s.known[r].key == s.known[q].key && s.known[r].answer.None? ==> ForgottenBetween(s, s.known[r].key, r, q)
  }

  ghost predicate ThreadsOk(s: State) {
    forall t {:trigger ThreadOk(s, t)} :: 0 <= t < |s.pcs| ==> ThreadOk(s, t)
  }

  ghost predicate ReadsOk(s: State) {
    forall r {:trigger ReadOk(s, r)} :: 0 <= r < |s.known| ==> ReadOk(s, r)
  }

  ghost predicate KeysOk(s: State) {
    && MapOk(s)
    && (forall k {:trigger KeyOk(s, k)} :: k in s.registered ==> KeyOk(s, k))
    && (forall i :: 0 <= i < |s.forgets| ==> s.forgets[i].frontier <= |s.known|)
  }

  ghost predicate SingleFlight(s: State) {
    && (forall r {:trigger Reachable(s, r)} :: 0 <= r < |s.known| ==> Reachable(s, r))
    && (forall r, q {:trigger Apart(s, r, q)} :: 0 <= r < q < |s.known| ==> Apart(s, r, q))
  }

  ghost predicate Inv(s: State) {
    ThreadsOk(s) && ReadsOk(s) && KeysOk(s) && SingleFlight(s)
  }

  lemma InitKeepsInv(threads: nat)
    ensures Inv(Init(threads))
  {
  }

  /** The steps of a thread on its way to, in and out of the map. */
  predicate ByMap(step: Step) {
    step.Ask? || step.AskForget? || step.LockMap? || step.LookUp? || step.Judge? || step.Share? || step.Register?
    || step.DropAround? || step.Leave?
  }

  /** The one who moves is as it should be, and so is what its step is about. */
  ghost predicate Fit(s: State, step: Step) {
    Enabled(s, step) && !step.Tick? && ThreadOk(s, step.t)
  }

  lemma MoverByMap(s: State, step: Step)
    requires Fit(s, step) && ByMap(step)
    requires var pc := s.pcs[step.t]; pc.HoldMap? && pc.key in s.registered ==> KeyOk(s, pc.key)
    requires var pc := s.pcs[step.t]; pc.HoldBoth? && pc.key in s.registered ==> KeyOk(s, pc.key)
    ensures ThreadOk(Apply(s, step), step.t)
  {
  }

  lemma MoverRuns(s: State, step: Step)
    requires Fit(s, step) && (step.End? || step.Stamp? || step.LockStore? || step.Store? || step.Notify?)
    requires s.pcs[step.t].r < |s.known| ==> ReadOk(s, s.pcs[step.t].r)
    ensures ThreadOk(Apply(s, step), step.t)
  {
  }

  lemma MoverWaits(s: State, step: Step)
    requires Fit(s, step) && (step.LockAnswer? || step.Look? || step.WakeUp?)
    requires s.pcs[step.t].r < |s.known| ==> ReadOk(s, s.pcs[step.t].r)
    ensures ThreadOk(Apply(s, step), step.t)
  {
  }

  lemma MoverKeeps(s: State, step: Step)
    requires Inv(s) && Enabled(s, step) && !step.Tick?
    ensures ThreadOk(Apply(s, step), step.t)
  {
    assert step.t < |s.pcs| && ThreadOk(s, step.t);
    var pc := s.pcs[step.t];
    if step.LookUp? || step.Judge? { assert pc.key in s.registered ==> KeyOk(s, pc.key); }
    if !ByMap(step) { assert pc.r < |s.known| ==> ReadOk(s, pc.r); }
    hide Inv, Apply, ThreadOk, KeyOk, ReadOk;
    if ByMap(step) {
      OnlyThese(s, step);
      MoverByMap(s, step);
    } else if step.LockAnswer? || step.Look? || step.WakeUp? {
      MoverWaits(s, step);
    } else {
      MoverRuns(s, step);
    }
  }

  lemma OnlyThese(s: State, step: Step)
    requires Enabled(s, step) && ByMap(step)
    ensures s.pcs[step.t].HoldMap? ==> step.LookUp?
    ensures s.pcs[step.t].HoldBoth? ==> step.Judge?
  {
  }

  lemma LengthsKeep(s: State, step: Step)
    requires Enabled(s, step)
    ensures |Apply(s, step).pcs| == |s.pcs| && |s.known| <= |Apply(s, step).known|
  {
  }

  /** All that a step of another thread may change under thread `u`. */
  ghost predicate Leaves(s: State, s': State, u: nat)
    requires u < |s.pcs| == |s'.pcs|
  {
    && |s.known| <= |s'.known| && s.forgets <= s'.forgets
    && (s.mapLock == Some(u) ==> s'.mapLock == Some(u) && s'.registered == s.registered)
    && (forall r :: 0 <= r < |s.known| ==> var was, now := s.known[r], s'.known[r];
          && was.key == now.key && was.runner == now.runner
          && (was.answer.Some? || was.runner == u ==> was.answer == now.answer)
          && (was.runner == u ==> was.told == now.told)
          && (was.lock == Some(u) ==> now.lock == Some(u)))
    && (s'.pcs[u] == s.pcs[u] || (s.pcs[u].Parked? && s'.pcs[u] == Want(s.pcs[u].r, s.pcs[u].seen)))
    && (s'.pcs[u].Parked? && s'.pcs[u].r < |s.known| ==> s.known[s'.pcs[u].r].told == s'.known[s'.pcs[u].r].told)
    && (s'.pcs[u] != s.pcs[u] ==> s'.pcs[u].r < |s'.known| && s'.known[s'.pcs[u].r].answer.Some?)
  }

  lemma OthersLeave(s: State, step: Step, u: nat)
    requires Enabled(s, step) && u < |s.pcs| && (step.Tick? || (step.t != u && ThreadOk(s, step.t)))
    ensures Leaves(s, Apply(s, step), u)
  {
    if !step.Tick? {
      if ByMap(step) { OthersLeaveByMap(s, step, u); } else { OthersLeaveElsewhere(s, step, u); }
    }
  }

  lemma OthersLeaveByMap(s: State, step: Step, u: nat)
    requires Enabled(s, step) && ByMap(step) && u < |s.pcs| && step.t != u && ThreadOk(s, step.t)
    ensures Leaves(s, Apply(s, step), u)
  {
  }

  lemma OthersLeaveElsewhere(s: State, step: Step, u: nat)
    requires Enabled(s, step) && !ByMap(step) && !step.Tick? && u < |s.pcs| && step.t != u && ThreadOk(s, step.t)
    ensures Leaves(s, Apply(s, step), u)
  {
  }

  lemma SinceKeeps(s: State, s': State, key: Key, r: nat, n: nat)
    requires s.forgets <= s'.forgets && Since(s, key, r, n)
    ensures Since(s', key, r, n)
  {
  }

  lemma BystanderKeeps(s: State, s': State, u: nat)
    requires u < |s.pcs| == |s'.pcs| && ThreadOk(s, u) && Leaves(s, s', u)
    ensures ThreadOk(s', u)
  {
    var pc := s.pcs[u];
    if pc.Sharing? || Waiting(pc) || pc.Answered? {
      SinceKeeps(s, s', s.known[pc.r].key, pc.r, pc.seen.forgets);
    }
  }

  lemma ThreadKeeps(s: State, step: Step, u: nat)
    requires Inv(s) && Enabled(s, step) && u < |s.pcs|
    ensures u < |Apply(s, step).pcs| && ThreadOk(Apply(s, step), u)
  {
    LengthsKeep(s, step);
    assert ThreadOk(s, u) && (!step.Tick? ==> step.t < |s.pcs| && ThreadOk(s, step.t));
    hide Apply, ThreadOk, ReadsOk, KeysOk, SingleFlight;
    if !step.Tick? && step.t == u {
      MoverKeeps(s, step);
    } else {
      OthersLeave(s, step, u);
      BystanderKeeps(s, Apply(s, step), u);
    }
  }

  lemma ReadToMap(s: State, step: Step, r: nat)
    requires Enabled(s, step) && r < |Apply(s, step).known| && (step.Tick? || (ByMap(step) && ThreadOk(s, step.t)))
    requires r < |s.known| ==> ReadOk(s, r)
    ensures ReadOk(Apply(s, step), r)
  {
  }

  lemma ReadElsewhere(s: State, step: Step, r: nat)
    requires Fit(s, step) && r < |Apply(s, step).known| && !ByMap(step)
    requires r < |s.known| ==> ReadOk(s, r)
    ensures ReadOk(Apply(s, step), r)
  {
  }

  lemma ReadKeeps(s: State, step: Step, r: nat)
    requires Inv(s) && Enabled(s, step) && r < |Apply(s, step).known|
    ensures ReadOk(Apply(s, step), r)
  {
    assert (!step.Tick? ==> step.t < |s.pcs| && ThreadOk(s, step.t)) && (r < |s.known| ==> ReadOk(s, r));
    hide Apply, ThreadOk, ReadOk, KeysOk, SingleFlight;
    if step.Tick? || ByMap(step) { ReadToMap(s, step, r); } else { ReadElsewhere(s, step, r); }
  }

  lemma KeysKeep(s: State, step: Step)
    requires Inv(s) && Enabled(s, step)
    ensures KeysOk(Apply(s, step))
  {
    hide SingleFlight, ReadOk;
    var s' := Apply(s, step);
    if !step.Tick? { assert ThreadOk(s, step.t); }
    forall k | k in s'.registered ensures KeyOk(s', k) {
      if k in s.registered { assert KeyOk(s, k); }
    }
  }

  /** What a step does to one unfinished read of a key, its registration and the forgets. */
  lemma UnfinishedKeeps(s: State, step: Step, r: nat)
    requires Enabled(s, step) && r < |s.known| && Apply(s, step).known[r].answer.None?
    requires !step.Tick? ==> ThreadOk(s, step.t)
    ensures var s' := Apply(s, step); var key := s.known[r].key;
      && s'.known[r].key == key && s.known[r].answer.None? && s.forgets <= s'.forgets && |s.known| <= |s'.known|
      && (step.DropAround? ==> s'.forgets == s.forgets + [Forget(s.pcs[step.t].path, |s.known|)])
      && (Found(s, key, r) && !Found(s', key, r) ==> step.DropAround? && key.root <= s.pcs[step.t].path)
  {
  }

  lemma ReachableKeeps(s: State, step: Step, r: nat)
    requires Inv(s) && Enabled(s, step) && r < |Apply(s, step).known|
    ensures Reachable(Apply(s, step), r)
  {
    assert !step.Tick? ==> step.t < |s.pcs| && ThreadOk(s, step.t);
    assert r < |s.known| ==> Reachable(s, r);
    if r >= |s.known| {
      hide Inv;
    } else {
      hide Inv, Apply, Enabled, ThreadOk;
      var s' := Apply(s, step);
      if s'.known[r].answer.None? {
        UnfinishedKeeps(s, step, r);
        var key := s.known[r].key;
        if Found(s, key, r) && !Found(s', key, r) {
          assert Covers(s'.forgets[|s.forgets|], key);
        } else if !Found(s, key, r) {
          var i :| 0 <= i < |s.forgets| && Covers(s.forgets[i], key) && r < s.forgets[i].frontier <= |s.known|;
          assert s'.forgets[i] == s.forgets[i];
        }
      }
    }
  }

  lemma ApartKeeps(s: State, step: Step, r: nat, q: nat)
    requires Inv(s) && Enabled(s, step) && r < q < |Apply(s, step).known|
    ensures Apart(Apply(s, step), r, q)
  {
    hide ReadOk, KeyOk;
    var s' := Apply(s, step);
    if !step.Tick? { assert ThreadOk(s, step.t); }
    if s'.known[r].key == s'.known[q].key && s'.known[r].answer.None? {
      var key := s.known[r].key;
      if q < |s.known| { assert Apart(s, r, q); } else { assert Reachable(s, r); }
      var i :| 0 <= i < |s.forgets| && Covers(s.forgets[i], key) && r < s.forgets[i].frontier <= q;
      assert s'.forgets[i] == s.forgets[i];
    }
  }

  lemma StepKeepsInv(s: State, step: Step)
    requires Inv(s) && Enabled(s, step)
    ensures Inv(Apply(s, step))
  {
    hide Apply, ThreadOk, ReadOk, Reachable, Apart, KeyOk;
    var s' := Apply(s, step);
    LengthsKeep(s, step);
    forall u | 0 <= u < |s'.pcs| ensures ThreadOk(s', u) {
      ThreadKeeps(s, step, u);
    }
    forall r | 0 <= r < |s'.known| ensures ReadOk(s', r) && Reachable(s', r) {
      ReadKeeps(s, step, r);
      ReachableKeeps(s, step, r);
    }
    forall r, q | 0 <= r < q < |s'.known| ensures Apart(s', r, q) { ApartKeeps(s, step, r, q); }
    KeysKeep(s, step);
  }

  // ----- Safety over every run -----

  lemma {:induction false} RunKeepsInv(s: State, steps: seq<Step>)
    requires Inv(s) && Legal(s, steps)
    ensures Inv(Run(s, steps))
    decreases |steps|
  {
    if steps != [] {
      StepKeepsInv(s, steps[0]);
      RunKeepsInv(Apply(s, steps[0]), steps[1..]);
    }
  }

  /** Some run leads from `threads` idle threads to `s`. */
  ghost predicate Reached(threads: nat, s: State) {
    exists steps: seq<Step> :: Legal(Init(threads), steps) && Run(Init(threads), steps) == s
  }

  lemma ReachedKeepsInv(threads: nat, s: State)
    requires Reached(threads, s)
    ensures Inv(s)
  {
    var steps: seq<Step> :| Legal(Init(threads), steps) && Run(Init(threads), steps) == s;
    InitKeepsInv(threads);
    RunKeepsInv(Init(threads), steps);
  }

  /** The steps at which `r` is settled. */
  ghost function Settlements(s: State, steps: seq<Step>, r: nat): nat
    requires Legal(s, steps)
    decreases |steps|
  {
    if steps == [] then 0 else
      (if steps[0].Store? && s.pcs[steps[0].t].r == r then 1 else 0) + Settlements(Apply(s, steps[0]), steps[1..], r)
  }

  /** An answer is stored by the thread that registered the read, over none, and then never changes. */
  lemma OnlyTheRunnerSettles(s: State, step: Step, r: nat)
    requires Inv(s) && Enabled(s, step) && r < |s.known|
    ensures var was, now := s.known[r], Apply(s, step).known[r];
      && now.runner == was.runner && now.key == was.key
      && if step.Store? && s.pcs[step.t].r == r
         then step.t == was.runner && was.answer.None? && now.answer.Some?
         else now.answer == was.answer
  {
    if !step.Tick? { assert ThreadOk(s, step.t); }
  }

  /** Settled exactly once: as often as it goes from having no answer to having one. */
  lemma {:induction false} SettledOnce(s: State, steps: seq<Step>, r: nat)
    requires Inv(s) && Legal(s, steps) && r < |s.known|
    ensures r < |Run(s, steps).known|
    ensures Settlements(s, steps, r) == if s.known[r].answer.None? && Run(s, steps).known[r].answer.Some? then 1 else 0
    ensures s.known[r].answer.Some? ==> Run(s, steps).known[r].answer == s.known[r].answer
    decreases |steps|
  {
    if steps != [] {
      OnlyTheRunnerSettles(s, steps[0], r);
      StepKeepsInv(s, steps[0]);
      SettledOnce(Apply(s, steps[0]), steps[1..], r);
    }
  }

  /** Whoever is inside `run`, or on the way to settling it, registered that read itself. */
  lemma RunByItsRegistrant(threads: nat, s: State, t: nat, r: nat)
    requires Reached(threads, s) && t < |s.pcs| && Working(s.pcs[t], r)
    ensures r < |s.known| && s.known[r].runner == t && s.known[r].answer.None?
    ensures forall u :: 0 <= u < |s.pcs| && Working(s.pcs[u], r) ==> u == t
  {
    ReachedKeepsInv(threads, s);
    forall u | 0 <= u < |s.pcs| && Working(s.pcs[u], r) ensures u == t && InHand(s, t, r) {
      assert ThreadOk(s, u) && ThreadOk(s, t);
    }
    assert InHand(s, t, r) by { assert ThreadOk(s, t); }
  }

  /** Two reads of one key, the older still unfinished, only with a forget of that checkout in between. */
  lemma OneReadInFlight(threads: nat, s: State, r: nat, q: nat)
    requires Reached(threads, s) && r < q < |s.known|
    requires s.known[r].key == s.known[q].key && s.known[r].answer.None?
    ensures exists i ::
              && 0 <= i < |s.forgets| && s.known[r].key.root <= s.forgets[i].path
              && r < s.forgets[i].frontier <= q
  {
    ReachedKeepsInv(threads, s);
    assert Apart(s, r, q);
    var i :| 0 <= i < |s.forgets| && Covers(s.forgets[i], s.known[r].key) && r < s.forgets[i].frontier <= q;
    assert s.known[r].key.root <= s.forgets[i].path;
  }

  /**
   What an asker leaves with: the outcome of its own run, kept for the others too, or the answer of
   a read that, when it was looked up, was unsettled or settled less than the window before.
   */
  lemma EveryAnswerIsFresh(threads: nat, s: State, t: nat)
    requires Reached(threads, s) && t < |s.pcs|
    ensures s.pcs[t].Ran? ==>
      var Ran(r, out) := s.pcs[t];
      r < |s.known| && s.known[r].runner == t && Holding(s, r, Kept(out))
    ensures s.pcs[t].Answered? ==>
      var Answered(r, answer, seen) := s.pcs[t];
      && Holding(s, r, answer)
      && (seen.settledAt.Some? ==>
            s.known[r].answer.value.at == seen.settledAt.value && seen.at < seen.settledAt.value + SHARED_FOR)
  {
    ReachedKeepsInv(threads, s);
    assert ThreadOk(s, t);
  }

  /** What a thread that shares a read saw at its lookup. */
  function Seen(pc: Pc): Option<Lookup> {
    match pc
    case Sharing(_, seen) => Some(seen)
    case Want(_, seen) => Some(seen)
    case Hold(_, seen) => Some(seen)
    case Parked(_, seen) => Some(seen)
    case Answered(_, _, seen) => Some(seen)
    case _ => None
  }

  /** The read a thread registered itself. */
  function Own(pc: Pc): Option<nat> {
    match pc
    case Running(r) => Some(r)
    case Settling(r, _) => Some(r)
    case Stamped(r, _, _) => Some(r)
    case Storing(r, _, _) => Some(r)
    case Notifying(r, _) => Some(r)
    case Ran(r, _) => Some(r)
    case _ => None
  }

  // ----- When an answer was settled, and what it is -----

  /** The time thread `u` took for read `r`, once it has. */
  function StampOf(s: State, u: nat, r: nat): Option<nat> {
    if r < |s.known| && s.known[r].answer.Some? then Some(s.known[r].answer.value.at)
    else if u < |s.pcs| && (s.pcs[u].Stamped? || s.pcs[u].Storing?) && s.pcs[u].r == r then Some(s.pcs[u].at)
    else None
  }

  /** The answer thread `u` has for read `r`, once its run has ended. */
  function OutcomeOf(s: State, u: nat, r: nat): Option<Answer> {
    if r < |s.known| && s.known[r].answer.Some? then Some(s.known[r].answer.value.value)
    else if u < |s.pcs| && (s.pcs[u].Settling? || s.pcs[u].Stamped? || s.pcs[u].Storing?) && s.pcs[u].r == r then
      Some(match s.pcs[u].out
           case Returned(answer) => answer
           case Unwound => Err("the status read did not finish"))
    else None
  }

  predicate Registered(s: State, u: nat, r: nat) { r < |s.known| && s.known[r].runner == u }

  lemma StepKeepsStamp(s: State, step: Step, u: nat, r: nat)
    requires Enabled(s, step) && Registered(s, u, r) && u < |s.pcs|
    requires s.known[r].answer.None? ==> Working(s.pcs[u], r)
    requires !step.Tick? ==> ThreadOk(s, step.t)
    ensures var s' := Apply(s, step);
      && Registered(s', u, r) && |s'.pcs| == |s.pcs| && s.now <= s'.now
      && (StampOf(s, u, r).Some? ==> StampOf(s', u, r) == StampOf(s, u, r))
      && (StampOf(s, u, r).None? && StampOf(s', u, r).Some? ==> step == Stamp(u) && StampOf(s', u, r) == Some(s.now))
  {
  }

  lemma StepKeepsOutcome(s: State, step: Step, u: nat, r: nat)
    requires Enabled(s, step) && Registered(s, u, r) && u < |s.pcs|
    requires s.known[r].answer.None? ==> Working(s.pcs[u], r)
    requires !step.Tick? ==> ThreadOk(s, step.t)
    ensures var s' := Apply(s, step);
      && r < |s'.known|
      && (s.known[r].answer.Some? ==> s'.known[r].answer == s.known[r].answer)
      && (OutcomeOf(s, u, r).Some? ==> OutcomeOf(s', u, r) == OutcomeOf(s, u, r))
  {
  }

  lemma {:induction false} RunKeepsStamp(s: State, steps: seq<Step>, u: nat, r: nat)
    requires Inv(s) && Legal(s, steps) && Registered(s, u, r)
    ensures var s' := Run(s, steps);
      && Inv(s') && Registered(s', u, r) && s.now <= s'.now
      && (StampOf(s, u, r).Some? ==> StampOf(s', u, r) == StampOf(s, u, r))
      && (StampOf(s, u, r).None? && StampOf(s', u, r).Some? ==> s.now <= StampOf(s', u, r).value <= s'.now)
      && (s.known[r].answer.Some? ==> s'.known[r].answer == s.known[r].answer)
      && (OutcomeOf(s, u, r).Some? ==> OutcomeOf(s', u, r) == OutcomeOf(s, u, r))
    decreases |steps|
  {
    if steps != [] {
      var step := steps[0];
      assert ReadOk(s, r) && (!step.Tick? ==> step.t < |s.pcs| && ThreadOk(s, step.t));
      StepKeepsInv(s, step);
      hide Inv, Apply, ThreadOk, Enabled, StampOf, OutcomeOf, Registered;
      StepKeepsStamp(s, step, u, r);
      StepKeepsOutcome(s, step, u, r);
      RunKeepsStamp(Apply(s, step), steps[1..], u, r);
    }
  }

  /** What a lookup that has found read `r` does next: share it or not. */
  predicate Shares(s: State, t: nat, key: Key, r: nat) {
    && t < |s.pcs| && s.pcs[t] == HoldBoth(key, r) && r < |s.known|
    && Apply(s, Judge(t)).pcs[t].Sharing? && Apply(s, Judge(t)).pcs[t].r == r
  }

  lemma SharesByTheStamp(s: State, t: nat, key: Key, r: nat)
    requires t < |s.pcs| && s.pcs[t] == HoldBoth(key, r) && r < |s.known|
    ensures s.known[r].answer.None? ==> Shares(s, t, key, r)
    ensures s.known[r].answer.Some? ==>
      (Shares(s, t, key, r) <==> s.now < StampOf(s, s.known[r].runner, r).value + 500_000_000)
  {
  }

  /**
   The moment that counts is the one at which the runner, its run over, reads the clock: from then on, in every run,
   whoever finds the read once it is settled shares it exactly if less than half a second has passed since, and
   whoever finds it before shares it.
   */
  lemma SharedExactlyWhileFresh(threads: nat, s: State, u: nat, r: nat, steps: seq<Step>, t: nat, key: Key)
    requires Reached(threads, s) && u < |s.pcs| && s.pcs[u].Settling? && s.pcs[u].r == r
    requires Legal(Apply(s, Stamp(u)), steps)
    requires var s' := Run(Apply(s, Stamp(u)), steps); t < |s'.pcs| && s'.pcs[t] == HoldBoth(key, r)
    ensures var s' := Run(Apply(s, Stamp(u)), steps);
      && r < |s'.known| && Enabled(s', Judge(t))
      && (Shares(s', t, key, r) <==> s'.known[r].answer.None? || s'.now < s.now + 500_000_000)
  {
    ReachedKeepsInv(threads, s);
    assert ThreadOk(s, u);
    var s1 := Apply(s, Stamp(u));
    StepKeepsInv(s, Stamp(u));
    assert StampOf(s1, u, r) == Some(s.now) && Registered(s1, u, r);
    hide Inv, Run, Legal, Reached, Apply;
    RunKeepsStamp(s1, steps, u, r);
    SharesByTheStamp(Run(s1, steps), t, key, r);
  }

  /** So a read settled half a second ago, or longer, is not shared. */
  lemma ASettledReadAges(threads: nat, s: State, r: nat, steps: seq<Step>, t: nat, key: Key)
    requires Reached(threads, s) && r < |s.known| && s.known[r].answer.Some? && Legal(s, steps)
    requires var s' := Run(s, steps);
      s'.now >= s.now + 500_000_000 && t < |s'.pcs| && s'.pcs[t] == HoldBoth(key, r)
    ensures !Shares(Run(s, steps), t, key, r)
  {
    ReachedKeepsInv(threads, s);
    StampsArePast(threads, s, s.known[r].runner, r);
    hide Inv, Run, Legal, Reached, Apply;
    RunKeepsStamp(s, steps, s.known[r].runner, r);
    SharesByTheStamp(Run(s, steps), t, key, r);
  }

  /** And one whose runner had yet to read the clock less than half a second ago is. */
  lemma AnUnstampedReadIsFresh(threads: nat, s: State, r: nat, steps: seq<Step>, t: nat, key: Key)
    requires Reached(threads, s) && r < |s.known| && s.known[r].answer.None? && Legal(s, steps)
    requires var u := s.known[r].runner; u < |s.pcs| && (s.pcs[u].Running? || s.pcs[u].Settling?)
    requires var s' := Run(s, steps);
      s'.now < s.now + 500_000_000 && t < |s'.pcs| && s'.pcs[t] == HoldBoth(key, r)
    ensures Shares(Run(s, steps), t, key, r)
  {
    ReachedKeepsInv(threads, s);
    assert StampOf(s, s.known[r].runner, r) == None;
    hide Inv, Run, Legal, Reached, Apply;
    RunKeepsStamp(s, steps, s.known[r].runner, r);
    SharesByTheStamp(Run(s, steps), t, key, r);
  }

  /** A clock once read may wait for the lock, though: a read that settles only now may be old already. */
  lemma AStampThatWaitedIsOld(threads: nat, s: State, u: nat, steps: seq<Step>, t: nat, key: Key)
    requires Reached(threads, s) && u < |s.pcs| && s.pcs[u].Stamped? && s.now >= s.pcs[u].at + 500_000_000
    requires Legal(s, steps)
    requires var s' := Run(s, steps); var r := s.pcs[u].r;
      t < |s'.pcs| && s'.pcs[t] == HoldBoth(key, r) && r < |s'.known| && s'.known[r].answer.Some?
    ensures !Shares(Run(s, steps), t, key, s.pcs[u].r)
  {
    ReachedKeepsInv(threads, s);
    assert ThreadOk(s, u);
    var r := s.pcs[u].r;
    assert Registered(s, u, r) && StampOf(s, u, r) == Some(s.pcs[u].at);
    hide Inv, Run, Legal, Reached, Apply;
    RunKeepsStamp(s, steps, u, r);
    SharesByTheStamp(Run(s, steps), t, key, r);
  }

  lemma {:induction false} RunBy(ss: seq<State>, steps: seq<Step>)
    requires |ss| == |steps| + 1
    requires forall i :: 0 <= i < |steps| ==> Enabled(ss[i], steps[i]) && ss[i + 1] == Apply(ss[i], steps[i])
    ensures Legal(ss[0], steps) && Run(ss[0], steps) == ss[|steps|]
    decreases |steps|
  {
    hide Enabled, Apply;
    if steps != [] { RunBy(ss[1..], steps[1..]); }
  }

  lemma {:induction false} RunJoins(s: State, a: seq<Step>, b: seq<Step>)
    requires Legal(s, a) && Legal(Run(s, a), b)
    ensures Legal(s, a + b) && Run(s, a + b) == Run(Run(s, a), b)
    decreases |a|
  {
    hide Enabled, Apply;
    if a == [] {
      assert a + b == b;
    } else {
      assert (a + b)[1..] == a[1..] + b;
      RunJoins(Apply(s, a[0]), a[1..], b);
    }
  }

  const ASKED := Key([], [])
  const GIVEN := Returned(Ok("an answer"))
  const ASKS: seq<Step> := [Ask(0, ASKED), LockMap(0), LookUp(0), Register(0)]
  const WAITS: seq<Step> := [End(0, GIVEN), Stamp(0), Tick(500_000_000)]
  const SETTLES: seq<Step> := [LockStore(0), Store(0)]
  const ASKS_AGAIN: seq<Step> := [Ask(1, ASKED), LockMap(1), LookUp(1)]
  const AFTER_ASKING :=
    State(0, [Running(0), Idle], None, map[ASKED := 0], [Read(ASKED, 0, None, None, false)], [])
  const AFTER_WAITING := AFTER_ASKING.(now := 500_000_000, pcs := [Stamped(0, GIVEN, 0), Idle])
  const AFTER_SETTLING := AFTER_WAITING.(
    pcs := [Notifying(0, GIVEN), Idle], known := [Read(ASKED, 0, Some(Settled(0, GIVEN.answer)), None, false)])
  const AFTER_ASKING_AGAIN := AFTER_SETTLING.(
    pcs := [Notifying(0, GIVEN), HoldBoth(ASKED, 0)], mapLock := Some(1),
    known := [Read(ASKED, 0, Some(Settled(0, GIVEN.answer)), Some(1), false)])

  lemma Asking()
    ensures Legal(Init(2), ASKS) && Run(Init(2), ASKS) == AFTER_ASKING
  {
    var s0 := Init(2);
    var s1 := Apply(s0, ASKS[0]);
    var s2 := Apply(s1, ASKS[1]);
    var s3 := Apply(s2, ASKS[2]);
    var s4 := Apply(s3, ASKS[3]);
    assert s4 == AFTER_ASKING;
    RunBy([s0, s1, s2, s3, s4], ASKS);
  }

  lemma WaitingForTheLock()
    ensures Legal(AFTER_ASKING, WAITS) && Run(AFTER_ASKING, WAITS) == AFTER_WAITING
  {
    var s0 := AFTER_ASKING;
    var s1 := Apply(s0, WAITS[0]);
    var s2 := Apply(s1, WAITS[1]);
    var s3 := Apply(s2, WAITS[2]);
    assert s3 == AFTER_WAITING;
    RunBy([s0, s1, s2, s3], WAITS);
  }

  lemma SettlingAtLast()
    ensures Legal(AFTER_WAITING, SETTLES) && Run(AFTER_WAITING, SETTLES) == AFTER_SETTLING
  {
    var s0 := AFTER_WAITING;
    var s1 := Apply(s0, SETTLES[0]);
    var s2 := Apply(s1, SETTLES[1]);
    assert s2 == AFTER_SETTLING;
    RunBy([s0, s1, s2], SETTLES);
  }

  lemma AskingAgain()
    ensures Legal(AFTER_SETTLING, ASKS_AGAIN) && Run(AFTER_SETTLING, ASKS_AGAIN) == AFTER_ASKING_AGAIN
  {
    var s0 := AFTER_SETTLING;
    var s1 := Apply(s0, ASKS_AGAIN[0]);
    var s2 := Apply(s1, ASKS_AGAIN[1]);
    var s3 := Apply(s2, ASKS_AGAIN[2]);
    assert s3 == AFTER_ASKING_AGAIN;
    RunBy([s0, s1, s2, s3], ASKS_AGAIN);
  }

  /** Such a run: unsettled half a second after its clock was read, settled, asked for at once, and not shared. */
  lemma ASettledReadMayBeOldAtOnce()
    ensures Reached(2, AFTER_WAITING) && AFTER_WAITING.known[0].answer.None?
    ensures Legal(AFTER_WAITING, SETTLES + ASKS_AGAIN)
    ensures var s' := Run(AFTER_WAITING, SETTLES + ASKS_AGAIN);
      s'.now == AFTER_WAITING.now && s'.pcs == [Notifying(0, GIVEN), HoldBoth(ASKED, 0)] && !Shares(s', 1, ASKED, 0)
  {
    Asking();
    WaitingForTheLock();
    SettlingAtLast();
    AskingAgain();
    hide Legal, Run;
    RunJoins(Init(2), ASKS, WAITS);
    RunJoins(AFTER_WAITING, SETTLES, ASKS_AGAIN);
  }

  /** The clock has never been read ahead. */
  ghost predicate Past(s: State, u: nat, r: nat) {
    Registered(s, u, r) && StampOf(s, u, r).Some? ==> StampOf(s, u, r).value <= s.now
  }

  lemma {:induction false} StampsArePastIn(s: State, steps: seq<Step>, u: nat, r: nat)
    requires Inv(s) && Legal(s, steps) && Past(s, u, r)
    ensures Past(Run(s, steps), u, r)
    decreases |steps|
  {
    if steps != [] {
      var step := steps[0];
      StepKeepsInv(s, step);
      assert !step.Tick? ==> step.t < |s.pcs| && ThreadOk(s, step.t);
      if Registered(s, u, r) {
        assert ReadOk(s, r);
        StepKeepsStamp(s, step, u, r);
      } else if Registered(Apply(s, step), u, r) {
        NewReadsAreUnstamped(s, step, u, r);
      }
      hide Inv, Apply, ThreadOk, Enabled;
      StampsArePastIn(Apply(s, step), steps[1..], u, r);
    }
  }

  lemma NewReadsAreUnstamped(s: State, step: Step, u: nat, r: nat)
    requires Enabled(s, step) && !Registered(s, u, r) && Registered(Apply(s, step), u, r)
    ensures StampOf(Apply(s, step), u, r) == None
  {
  }

  lemma StampsArePast(threads: nat, s: State, u: nat, r: nat)
    requires Reached(threads, s)
    ensures Past(s, u, r)
  {
    var steps :| Legal(Init(threads), steps) && s == Run(Init(threads), steps);
    InitKeepsInv(threads);
    StampsArePastIn(Init(threads), steps, u, r);
  }

  /**
   Nobody leaves with a stale answer: once a read has been settled for half a second, whoever has yet to be handed a
   read is never handed that one.
   */
  lemma NobodyIsHandedAStaleRead(threads: nat, s: State, r: nat, before: seq<Step>, steps: seq<Step>, t: nat)
    requires Reached(threads, s) && r < |s.known| && s.known[r].answer.Some? && Legal(s, before)
    requires Run(s, before).now >= s.now + 500_000_000 && Legal(Run(s, before), steps)
    requires t < |Run(s, before).pcs| && Seen(Run(s, before).pcs[t]).None?
    ensures t < |Run(Run(s, before), steps).pcs|
    ensures var pc := Run(Run(s, before), steps).pcs[t]; Seen(pc).Some? ==> pc.r != r
  {
    ReachedKeepsInv(threads, s);
    StampsArePast(threads, s, s.known[r].runner, r);
    hide Inv, Reached;
    RunKeepsStamp(s, before, s.known[r].runner, r);
    StaleStaysStale(Run(s, before), steps, t, r);
  }

  lemma {:induction false} StaleStaysStale(s: State, steps: seq<Step>, t: nat, r: nat)
    requires Inv(s) && Legal(s, steps) && t < |s.pcs| && r < |s.known| && s.known[r].answer.Some?
    requires s.now >= s.known[r].answer.value.at + 500_000_000 && (Seen(s.pcs[t]).Some? ==> s.pcs[t].r != r)
    ensures t < |Run(s, steps).pcs|
    ensures var pc := Run(s, steps).pcs[t]; Seen(pc).Some? ==> pc.r != r
    decreases |steps|
  {
    if steps != [] {
      var step := steps[0];
      StepKeepsInv(s, step);
      OnlyTheRunnerSettles(s, step, r);
      StepHands(s, step, t, r);
      hide Inv, Apply, Enabled, Seen;
      StaleStaysStale(Apply(s, step), steps[1..], t, r);
    }
  }

  /** A read is handed over by judging it fresh, and no other way. */
  lemma StepHands(s: State, step: Step, t: nat, r: nat)
    requires Enabled(s, step) && t < |s.pcs| && r < |s.known|
    ensures var s' := Apply(s, step);
      && t < |s'.pcs| && s.now <= s'.now && |s.known| <= |s'.known|
      && (Seen(s'.pcs[t]).Some? && s'.pcs[t].r == r ==>
            || (Seen(s.pcs[t]).Some? && s.pcs[t].r == r)
            || s.known[r].answer.None? || s.now < s.known[r].answer.value.at + 500_000_000)
  {
  }

  /**
   What is handed on is what the run came to: from the moment a `run` ends, in every run, its read holds nothing
   else, and whoever leaves with it leaves with that, or, if it unwound, with word that it did not finish.
   */
  lemma AnswersAreWhatTheRunCameTo(threads: nat, s: State, u: nat, r: nat, out: Outcome, steps: seq<Step>, t: nat)
    requires Reached(threads, s) && u < |s.pcs| && s.pcs[u] == Running(r) && Legal(Apply(s, End(u, out)), steps)
    requires var s' := Run(Apply(s, End(u, out)), steps); t < |s'.pcs| && s'.pcs[t].Answered? && s'.pcs[t].r == r
    ensures var s' := Run(Apply(s, End(u, out)), steps);
      s'.pcs[t].answer == if out.Returned? then out.answer else Err("the status read did not finish")
  {
    ReachedKeepsInv(threads, s);
    assert ThreadOk(s, u);
    var s1 := Apply(s, End(u, out));
    StepKeepsInv(s, End(u, out));
    assert OutcomeOf(s1, u, r).Some? && Registered(s1, u, r);
    RunKeepsStamp(s1, steps, u, r);
    assert ThreadOk(Run(s1, steps), t);
  }

  /** A forget takes nothing from a checkout the path is not in. */
  lemma OtherCheckoutsAreKept(s: State, u: nat, path: Path, key: Key)
    requires u < |s.pcs| && s.pcs[u] == HoldForget(path)
    ensures key in Apply(s, DropAround(u)).registered <==> key in s.registered && !(key.root <= path)
    ensures key in Apply(s, DropAround(u)).registered ==> Apply(s, DropAround(u)).registered[key] == s.registered[key]
  {
  }

  // ----- A forget, and whoever looks up after it -----

  /** Whatever `t` has been handed, it looked up when `n` forgets had happened, or registered past `frontier`. */
  predicate LookedUpSince(pc: Pc, n: nat, frontier: nat) {
    (Seen(pc).Some? ==> n <= Seen(pc).value.forgets) && (Own(pc).Some? ==> frontier <= Own(pc).value)
  }

  lemma StepLooksUpSince(s: State, step: Step, t: nat, n: nat, frontier: nat)
    requires Enabled(s, step) && t < |s.pcs| && n <= |s.forgets| && frontier <= |s.known|
    requires LookedUpSince(s.pcs[t], n, frontier)
    ensures var s' := Apply(s, step);
      && s.forgets <= s'.forgets && |s.known| <= |s'.known| && |s'.pcs| == |s.pcs|
      && LookedUpSince(s'.pcs[t], n, frontier)
  {
  }

  lemma {:induction false} RunLooksUpSince(s: State, steps: seq<Step>, t: nat, n: nat, frontier: nat)
    requires Legal(s, steps) && t < |s.pcs| && n <= |s.forgets| && frontier <= |s.known|
    requires LookedUpSince(s.pcs[t], n, frontier)
    ensures var s' := Run(s, steps);
      s.forgets <= s'.forgets && |s'.pcs| == |s.pcs| && LookedUpSince(s'.pcs[t], n, frontier)
    decreases |steps|
  {
    if steps != [] {
      StepLooksUpSince(s, steps[0], t, n, frontier);
      RunLooksUpSince(Apply(s, steps[0]), steps[1..], t, n, frontier);
    }
  }

  /**
   After `forget_statuses_around(path)`, whoever has yet to look a key up never leaves with a read of
   a root containing `path` that was registered before that forget.
   */
  lemma NoAnswerFromBeforeAForget(threads: nat, s: State, u: nat, path: Path, steps: seq<Step>, t: nat)
    requires Reached(threads, s) && u < |s.pcs| && s.pcs[u] == HoldForget(path)
    requires Legal(Apply(s, DropAround(u)), steps)
    requires t < |s.pcs| && (s.pcs[t].Idle? || s.pcs[t].WantMap? || s.pcs[t].WantForget? || t == u)
    ensures var s' := Run(Apply(s, DropAround(u)), steps);
      && t < |s'.pcs|
      && (s'.pcs[t].Answered? || s'.pcs[t].Ran? ==>
            s'.pcs[t].r < |s'.known| && (s'.known[s'.pcs[t].r].key.root <= path ==> |s.known| <= s'.pcs[t].r))
  {
    ReachedKeepsInv(threads, s);
    var s1 := Apply(s, DropAround(u));
    var n := |s.forgets| + 1;
    StepKeepsInv(s, DropAround(u));
    RunLooksUpSince(s1, steps, t, n, |s.known|);
    RunKeepsInv(s1, steps);
    var s' := Run(s1, steps);
    assert ThreadOk(s', t);
    assert s'.forgets[n - 1] == Forget(path, |s.known|);
  }

  // ----- Nobody is left waiting -----

  /** The steps a thread inside a request takes by itself; `End` is a `run` returning or unwinding. */
  predicate Progress(step: Step) {
    !(step.Tick? || step.Ask? || step.AskForget? || step.WakeUp? || step.Leave?)
  }

  predicate Busy(pc: Pc) {
    !(pc.Idle? || pc.Answered? || pc.Ran?)
  }

  lemma HolderMoves(s: State, r: nat) returns (step: Step)
    requires Inv(s) && r < |s.known| && s.known[r].lock.Some?
    ensures Progress(step) && Enabled(s, step)
  {
    assert ReadOk(s, r);
    var u := s.known[r].lock.value;
    step := match s.pcs[u] case HoldBoth(_, _) => Judge(u) case Storing(_, _, _) => Store(u) case _ => Look(u);
  }

  lemma RunnerMoves(s: State, t: nat) returns (step: Step)
    requires Inv(s) && t < |s.pcs|
    requires s.pcs[t].Running? || s.pcs[t].Settling? || s.pcs[t].Stamped? || s.pcs[t].Storing? || s.pcs[t].Notifying?
    ensures Progress(step) && Enabled(s, step)
  {
    assert ThreadOk(s, t);
    match s.pcs[t]
    case Running(_) => step := End(t, Unwound);
    case Settling(_, _) => step := Stamp(t);
    case Stamped(r, _, _) => if s.known[r].lock.None? { step := LockStore(t); } else { step := HolderMoves(s, r); }
    case Storing(_, _, _) => step := Store(t);
    case Notifying(_, _) => step := Notify(t);
  }

  lemma MapHolderMoves(s: State, t: nat) returns (step: Step)
    requires Inv(s) && t < |s.pcs| && HasMap(s.pcs[t])
    ensures Progress(step) && Enabled(s, step)
  {
    assert ThreadOk(s, t);
    match s.pcs[t]
    case HoldMap(key) =>
      assert key in s.registered ==> KeyOk(s, key);
      if key in s.registered && s.known[s.registered[key]].lock.Some? {
        step := HolderMoves(s, s.registered[key]);
      } else {
        step := LookUp(t);
      }
    case HoldBoth(_, _) => step := Judge(t);
    case Sharing(_, _) => step := Share(t);
    case Missing(_) => step := Register(t);
    case HoldForget(_) => step := DropAround(t);
  }

  /** No lock cycle and no lost wake-up: while anybody is inside a request, somebody inside one can move. */
  lemma SomebodyMoves(s: State, t: nat) returns (step: Step)
    requires Inv(s) && t < |s.pcs| && Busy(s.pcs[t])
    ensures Progress(step) && Enabled(s, step)
  {
    assert ThreadOk(s, t);
    var pc := s.pcs[t];
    if HasMap(pc) {
      step := MapHolderMoves(s, t);
    } else if pc.WantMap? || pc.WantForget? {
      if s.mapLock.None? { step := LockMap(t); } else { step := MapHolderMoves(s, s.mapLock.value); }
    } else if pc.Want? {
      if s.known[pc.r].lock.None? { step := LockAnswer(t); } else { step := HolderMoves(s, pc.r); }
    } else if pc.Hold? {
      step := Look(t);
    } else if pc.Parked? {
      assert ReadOk(s, pc.r);
      step := RunnerMoves(s, s.known[pc.r].runner);
    } else {
      step := RunnerMoves(s, t);
    }
  }

  /** How many more steps thread `t` may take in its request: an upper bound that each of them lowers. */
  ghost function Weight(s: State, t: nat): nat
    requires t < |s.pcs|
  {
    match s.pcs[t]
    case Idle => 0
    case WantMap(_) => 14
    case HoldMap(_) => 13
    case HoldBoth(_, _) => 12
    case Sharing(_, _) => 11
    case Missing(_) => 11
    case Running(_) => 6
    case Settling(_, _) => 5
    case Stamped(_, _, _) => 4
    case Storing(_, _, _) => 3
    case Notifying(_, _) => 2
    case Want(r, _) => if r < |s.known| && s.known[r].answer.Some? then 2 else 5
    case Hold(r, _) => if r < |s.known| && s.known[r].answer.Some? then 1 else 4
    case Parked(_, _) => 3
    case Answered(_, _, _) => 0
    case Ran(_, _) => 0
    case WantForget(_) => 2
    case HoldForget(_) => 1
  }

  /** What a step that is not progress adds: a new request, or a waiter woken for nothing. */
  function Allowance(step: Step): nat {
    match step
    case Ask(_, _) => 14
    case AskForget(_, _) => 2
    case WakeUp(_) => 2
    case _ => 0
  }

  ghost function Total(s: State, n: nat): nat
    requires n <= |s.pcs|
  {
    if n == 0 then 0 else Total(s, n - 1) + Weight(s, n - 1)
  }

  lemma {:induction false} TotalMoves(s: State, s': State, t: nat, less: nat, more: nat, n: nat)
    requires |s.pcs| == |s'.pcs| && n <= |s.pcs|
    requires forall u {:trigger Weight(s', u)} :: 0 <= u < n && u != t ==> Weight(s', u) <= Weight(s, u)
    requires t < n ==> Weight(s', t) + less <= Weight(s, t) + more
    ensures t < n ==> Total(s', n) + less <= Total(s, n) + more
    ensures n <= t ==> Total(s', n) <= Total(s, n)
  {
    if n > 0 {
      assert n - 1 != t ==> Weight(s', n - 1) <= Weight(s, n - 1);
      TotalMoves(s, s', t, less, more, n - 1);
    }
  }

  lemma MoverPays(s: State, step: Step)
    requires Inv(s) && Enabled(s, step) && !step.Tick?
    ensures |Apply(s, step).pcs| == |s.pcs|
    ensures Weight(Apply(s, step), step.t) + (if Progress(step) then 1 else 0) <= Weight(s, step.t) + Allowance(step)
  {
    hide SingleFlight, KeyOk, ReadOk;
    assert ThreadOk(s, step.t);
  }

  lemma LeftAloneWeighsNoMore(s: State, s': State, u: nat)
    requires u < |s.pcs| == |s'.pcs| && Leaves(s, s', u)
    ensures Weight(s', u) <= Weight(s, u)
  {
    if s'.pcs[u] == s.pcs[u] {
      var pc := s.pcs[u];
      if (pc.Want? || pc.Hold?) && pc.r < |s.known| { assert s'.known[pc.r].key == s.known[pc.r].key; }
    }
  }

  lemma BystanderPaysNothing(s: State, step: Step, u: nat)
    requires Inv(s) && Enabled(s, step) && u < |s.pcs| && (step.Tick? || step.t != u)
    ensures |Apply(s, step).pcs| == |s.pcs|
    ensures Weight(Apply(s, step), u) <= Weight(s, u)
  {
    assert !step.Tick? ==> step.t < |s.pcs| && ThreadOk(s, step.t);
    hide Inv, Apply, ThreadOk, Enabled, Weight, Leaves;
    LengthsKeep(s, step);
    OthersLeave(s, step, u);
    LeftAloneWeighsNoMore(s, Apply(s, step), u);
  }

  lemma StepPays(s: State, step: Step)
    requires Inv(s) && Enabled(s, step)
    ensures var s' := Apply(s, step);
      && |s'.pcs| == |s.pcs|
      && Total(s', |s'.pcs|) + (if Progress(step) then 1 else 0) <= Total(s, |s.pcs|) + Allowance(step)
  {
    var s' := Apply(s, step);
    var t := if step.Tick? then |s.pcs| else step.t;
    forall u | 0 <= u < |s.pcs| && u != t ensures |s'.pcs| == |s.pcs| && Weight(s', u) <= Weight(s, u) {
      BystanderPaysNothing(s, step, u);
    }
    if !step.Tick? { MoverPays(s, step); }
    TotalMoves(s, s', t, if Progress(step) then 1 else 0, Allowance(step), |s.pcs|);
  }

  function ProgressIn(steps: seq<Step>): nat {
    if steps == [] then 0 else (if Progress(steps[0]) then 1 else 0) + ProgressIn(steps[1..])
  }

  function AllowanceOf(steps: seq<Step>): nat {
    if steps == [] then 0 else Allowance(steps[0]) + AllowanceOf(steps[1..])
  }

  lemma {:induction false} ProgressIsBounded(s: State, steps: seq<Step>)
    requires Inv(s) && Legal(s, steps)
    ensures |Run(s, steps).pcs| == |s.pcs|
    ensures ProgressIn(steps) + Total(Run(s, steps), |s.pcs|) <= Total(s, |s.pcs|) + AllowanceOf(steps)
    decreases |steps|
  {
    if steps != [] {
      StepPays(s, steps[0]);
      StepKeepsInv(s, steps[0]);
      ProgressIsBounded(Apply(s, steps[0]), steps[1..]);
    }
  }

  lemma {:induction false} IdleWeighsNothing(threads: nat, n: nat)
    requires n <= threads
    ensures Total(Init(threads), n) == 0
  {
    if n > 0 { IdleWeighsNothing(threads, n - 1); }
  }

  /**
   Every schedule: the steps taken inside requests are at most 14 for each `status` asked, 2 for each
   forget and 2 for each spurious wake-up, and when none of them can be taken any more (every `run`
   having ended), every asker has been answered.
   */
  lemma EveryAskerIsAnswered(threads: nat, steps: seq<Step>)
    requires Legal(Init(threads), steps)
    ensures ProgressIn(steps) <= AllowanceOf(steps)
    ensures var s := Run(Init(threads), steps);
      (forall step: Step :: Progress(step) ==> !Enabled(s, step)) ==>
      forall t :: 0 <= t < |s.pcs| ==> s.pcs[t].Idle? || s.pcs[t].Answered? || s.pcs[t].Ran?
  {
    var s := Run(Init(threads), steps);
    InitKeepsInv(threads);
    RunKeepsInv(Init(threads), steps);
    ProgressIsBounded(Init(threads), steps);
    IdleWeighsNothing(threads, threads);
    if forall step: Step :: Progress(step) ==> !Enabled(s, step) {
      forall t | 0 <= t < |s.pcs| ensures !Busy(s.pcs[t]) {
        if Busy(s.pcs[t]) { var step := SomebodyMoves(s, t); }
      }
    }
  }
}
