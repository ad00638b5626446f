/**
 Who owns an agent's identity: `run`, `owned_identity` and `exec_or_die` in src/shim.rs, over the processes that
 inherit what a pane's launch in crates/uze-terminal/src/runtime.rs put in their environment.
 */
module ShimIdentity {
  import opened Outcomes

  type Pid = nat

  /** UZE_AGENT, UZE_SHIM_NAME and UZE_SHIM_PID, and every other variable. A pid is spelled one way only. */
  datatype Environment = Environment(agent: Option<string>, name: Option<string>, owner: Option<Pid>,
                                     others: map<string, string>)

  // ----- One run of the shim -----

  /** What an integration adds to a launch, and the session arguments its continuity plan gives an identity. */
  datatype Integration = Integration(extraArgs: seq<string>, extraEnv: map<string, string>,
                                     session: string -> seq<string>)

  function OwnedIdentity(env: Environment, own: Pid): Option<string> {
    if env.agent.None? || env.agent.value == "" then None
    else if env.owner.None? || env.owner.value == own then env.agent
    else None
  }

  predicate Bypassed(env: Environment) {
    "UZE_BYPASS" in env.others && env.others["UZE_BYPASS"] != "0"
  }

  /** The identity whose session this run resumes, if it resumes one. */
  function Resumed(env: Environment, own: Pid, original: seq<string>, integration: Option<Integration>)
    : Option<string>
  {
    if Bypassed(env) || original != [] || integration.None? then None else OwnedIdentity(env, own)
  }

  /**
   A session is resumed exactly if nothing was typed, nothing is bypassed, an integration is there, and an agent's name
   is in the environment under no stamp or under this process's own.
   */
  lemma ASessionIsResumedExactlyWhen(env: Environment, own: Pid, original: seq<string>,
                                     integration: Option<Integration>)
    ensures Resumed(env, own, original, integration) ==
      if original == [] && integration != None && (env.owner == None || env.owner == Some(own))
         && env.agent != None && env.agent != Some("")
         && ("UZE_BYPASS" !in env.others || env.others["UZE_BYPASS"] == "0")
      then env.agent else None
  {
  }

  /** A process about to become another program. */
  class Command {
    var args: seq<string>
    var env: Environment

    constructor (inherited: Environment)
      ensures args == [] && env == inherited
    {
      args, env := [], inherited;
    }

    method Args(more: seq<string>)
      modifies this
      ensures args == old(args) + more && env == old(env)
    {
      args := args + more;
    }

    method Stamp(name: string, own: Pid)
      modifies this
      ensures env == old(env).(name := Some(name), owner := Some(own)) && args == old(args)
    {
      env := env.(name := Some(name), owner := Some(own));
    }

    method Set(more: map<string, string>)
      modifies this
      ensures env == old(env).(others := old(env).others + more) && args == old(args)
    {
      env := env.(others := env.others + more);
    }
  }

  method ExecOrDie(env: Environment, own: Pid, name: string, original: seq<string>,
                   extraArgs: seq<string>, extraEnv: map<string, string>) returns (command: Command)
    ensures fresh(command) && command.args == extraArgs + original
    ensures command.env == Environment(env.agent, Some(name), Some(own), env.others + extraEnv)
  {
    command := new Command(env);
    command.Args(extraArgs);
    command.Args(original);
    command.Stamp(name, own);
    command.Set(extraEnv);
  }

  /**
   The arguments typed always come last and untouched. A session comes before everything, and only where
   nothing was typed, an integration is there to resume it, nothing is bypassed, and this process owns the
   identity; the stamp is set whatever else is.
   */
  method Run(env: Environment, own: Pid, name: string, original: seq<string>, integration: Option<Integration>)
    returns (command: Command)
    ensures fresh(command)
    ensures command.env.agent == env.agent && command.env.name == Some(name) && command.env.owner == Some(own)
    ensures var added := if integration.Some? && !Bypassed(env) then integration.value.extraEnv else map[];
      command.env.others == env.others + added
    ensures var resumed := Resumed(env, own, original, integration);
      var session := if resumed.Some? then integration.value.session(resumed.value) else [];
      var extra := if integration.Some? && !Bypassed(env) then integration.value.extraArgs else [];
      command.args == session + extra + original
  {
    if Bypassed(env) {
      command := ExecOrDie(env, own, name, original, [], map[]);
      return;
    }
    var extraArgs: seq<string>, extraEnv: map<string, string> := [], map[];
    if integration.Some? { extraArgs, extraEnv := integration.value.extraArgs, integration.value.extraEnv; }
    if original == [] && integration.Some? {
      var id := OwnedIdentity(env, own);
      if id.Some? { extraArgs := integration.value.session(id.value) + extraArgs; }
    }
    command := ExecOrDie(env, own, name, original, extraArgs, extraEnv);
  }

  // ----- The processes -----

  /**
   `parent` is the place of the process that spawned this one; `below` says that that process had run a shim by
   then, `stamped` that this one has since.
   */
  datatype Process = Process(pid: Pid, env: Environment, parent: Option<nat>, below: bool, stamped: bool)

  /** Every process there has been, oldest first. */
  type Forest = seq<Process>

  datatype Step =
    | Launch(pid: Pid, agent: Option<string>, others: map<string, string>)
    | Spawn(pid: Pid, parent: nat, others: map<string, string>)
    | Shim(at: nat, name: string, others: map<string, string>)

  ghost predicate Can(f: Forest, step: Step) {
    match step
    case Launch(pid, _, _) => forall i :: 0 <= i < |f| ==> f[i].pid != pid
    case Spawn(pid, parent, _) => parent < |f| && forall i :: 0 <= i < |f| ==> f[i].pid != pid
    case Shim(at, _, _) => at < |f|
  }

  /** A pane is launched with the identity it is given and nobody's stamp; a child is spawned with its parent's. */
  function Next(f: Forest, step: Step): Forest {
    match step
    case Launch(pid, agent, others) => f + [Process(pid, Environment(agent, None, None, others), None, false, false)]
    case Spawn(pid, parent, others) =>
      if parent < |f| then
        f + [Process(pid, f[parent].env.(others := others), Some(parent), f[parent].stamped, false)]
      else f
    case Shim(at, name, others) =>
      if at < |f| then
        var p := f[at];
        f[at := p.(env := Environment(p.env.agent, Some(name), Some(p.pid), others), stamped := true)]
      else f
  }

  ghost predicate Reached(steps: seq<Step>) {
    steps == [] || (Reached(steps[..|steps| - 1]) && Can(After(steps[..|steps| - 1]), steps[|steps| - 1]))
  }

  function After(steps: seq<Step>): Forest {
    if steps == [] then [] else Next(After(steps[..|steps| - 1]), steps[|steps| - 1])
  }

  /** The nearest proper ancestor that had run a shim when the line down to this process left it. */
  function Encloser(f: Forest, i: nat): Option<nat>
    requires i < |f|
    ensures Encloser(f, i).Some? ==> Encloser(f, i).value < i
  {
    if f[i].parent.None? || f[i].parent.value >= i then None
    else if f[i].below then f[i].parent
    else Encloser(f, f[i].parent.value)
  }

  /** The launch this process descends from. */
  function Root(f: Forest, i: nat): (root: nat)
    requires i < |f|
    ensures root < |f|
  {
    if f[i].parent.None? || f[i].parent.value >= i then i else Root(f, f[i].parent.value)
  }

  /** What holds of one process: its identity is its launch's, its stamp its own or its encloser's. */
  ghost predicate InvAt(f: Forest, i: nat)
    requires i < |f|
  {
    var p := f[i];
    && (p.parent.Some? ==> p.parent.value < i)
    && (p.below ==> p.parent.Some? && f[p.parent.value].stamped)
    && p.env.agent == f[Root(f, i)].env.agent
    && p.env.owner == Stamped(f, i)
  }

  function Stamped(f: Forest, i: nat): Option<Pid>
    requires i < |f|
  {
    if f[i].stamped then Some(f[i].pid)
    else if Encloser(f, i).Some? then Some(f[Encloser(f, i).value].pid)
    else None
  }

  ghost predicate Inv(f: Forest) {
    && (forall i, j :: 0 <= i < j < |f| ==> f[i].pid != f[j].pid)
    && (forall i :: 0 <= i < |f| ==> InvAt(f, i))
  }

  /** Only what the line above a process holds bears on who encloses it. */
  lemma {:induction false} LineIsKept(f: Forest, g: Forest, i: nat)
    requires i < |f| <= |g|
    requires forall j :: 0 <= j < |f| ==> g[j].parent == f[j].parent && g[j].below == f[j].below
    ensures Encloser(g, i) == Encloser(f, i) && Root(g, i) == Root(f, i)
    decreases i
  {
    if f[i].parent.Some? && f[i].parent.value < i { LineIsKept(f, g, f[i].parent.value); }
  }

  lemma LinesAreKept(f: Forest, g: Forest)
    requires |f| <= |g|
    requires forall j :: 0 <= j < |f| ==> g[j].parent == f[j].parent && g[j].below == f[j].below
    ensures forall i :: 0 <= i < |f| ==> Encloser(g, i) == Encloser(f, i) && Root(g, i) == Root(f, i)
  {
    forall i | 0 <= i < |f| ensures Encloser(g, i) == Encloser(f, i) && Root(g, i) == Root(f, i) {
      LineIsKept(f, g, i);
    }
  }

  lemma LaunchKeepsInv(f: Forest, pid: Pid, agent: Option<string>, others: map<string, string>)
    requires Inv(f) && Can(f, Launch(pid, agent, others))
    ensures Inv(Next(f, Launch(pid, agent, others)))
  {
    hide Encloser, Root;
    var g := Next(f, Launch(pid, agent, others));
    LinesAreKept(f, g);
    NewLine(g, |f|);
    forall i | 0 <= i < |g| ensures InvAt(g, i) { assert i < |f| ==> InvAt(f, i); }
  }

  lemma SpawnKeepsInv(f: Forest, pid: Pid, parent: nat, others: map<string, string>)
    requires Inv(f) && Can(f, Spawn(pid, parent, others))
    ensures Inv(Next(f, Spawn(pid, parent, others)))
  {
    hide Encloser, Root;
    var g := Next(f, Spawn(pid, parent, others));
    LinesAreKept(f, g);
    NewLine(g, |f|);
    assert InvAt(f, parent);
    forall i | 0 <= i < |g| ensures InvAt(g, i) { assert i < |f| ==> InvAt(f, i); }
  }

  lemma ShimKeepsInv(f: Forest, at: nat, name: string, others: map<string, string>)
    requires Inv(f) && Can(f, Shim(at, name, others))
    ensures Inv(Next(f, Shim(at, name, others)))
  {
    hide Encloser, Root;
    var g := Next(f, Shim(at, name, others));
    LinesAreKept(f, g);
    forall i | 0 <= i < |g| ensures InvAt(g, i) { assert InvAt(f, i); }
  }

  lemma StepKeepsInv(f: Forest, step: Step)
    requires Inv(f) && Can(f, step)
    ensures Inv(Next(f, step))
  {
    hide Inv, Next;
    match step
    case Launch(pid, agent, others) => LaunchKeepsInv(f, pid, agent, others);
    case Spawn(pid, parent, others) => SpawnKeepsInv(f, pid, parent, others);
    case Shim(at, name, others) => ShimKeepsInv(f, at, name, others);
  }

  /** One step down a line. */
  lemma NewLine(f: Forest, i: nat)
    requires i < |f|
    ensures f[i].parent.None? ==> Encloser(f, i) == None && Root(f, i) == i
    ensures f[i].parent.Some? && f[i].parent.value < i ==>
      Root(f, i) == Root(f, f[i].parent.value)
    ensures f[i].parent.Some? && f[i].parent.value < i ==>
      Encloser(f, i) == if f[i].below then f[i].parent else Encloser(f, f[i].parent.value)
  {
  }

  lemma {:induction false} EveryForestKeepsInv(steps: seq<Step>)
    requires Reached(steps)
    ensures Inv(After(steps))
  {
    if steps != [] {
      EveryForestKeepsInv(steps[..|steps| - 1]);
      StepKeepsInv(After(steps[..|steps| - 1]), steps[|steps| - 1]);
    }
  }

  /**
   In every forest, a process owns the identity it was launched into exactly when it has itself run a shim
   before, or no proper ancestor had run one by the time the line down to it was spawned.
   */
  lemma OwnsExactlyWhen(steps: seq<Step>, i: nat)
    requires Reached(steps) && i < |After(steps)|
    ensures var f := After(steps); var p := f[i]; var id := f[Root(f, i)].env.agent;
      OwnedIdentity(p.env, p.pid) ==
        if id.Some? && id.value != "" && (p.stamped || Encloser(f, i).None?) then id else None
  {
    hide Encloser, Root;
    var f := After(steps);
    EveryForestKeepsInv(steps);
    assert InvAt(f, i);
    if Encloser(f, i).Some? { assert f[Encloser(f, i).value].pid != f[i].pid; }
  }

  /** A harness started inside another's launch never resumes it: not on the first shim its own process runs. */
  lemma AFirstShimInsideALaunchOwnsNothing(steps: seq<Step>, ancestor: nat, i: nat)
    requires Reached(steps) && i < |After(steps)|
    requires !After(steps)[i].stamped && LeftBelow(After(steps), ancestor, i)
    ensures OwnedIdentity(After(steps)[i].env, After(steps)[i].pid) == None
  {
    OwnsExactlyWhen(steps, i);
    EveryForestKeepsInv(steps);
    BelowIsEnclosed(After(steps), ancestor, i);
  }

  /** `ancestor` had run a shim when the line down to `i` left it. */
  predicate LeftBelow(f: Forest, ancestor: nat, i: nat)
    requires i < |f|
    decreases i
  {
    && f[i].parent.Some? && f[i].parent.value < i
    && (if f[i].parent.value == ancestor then f[i].below else LeftBelow(f, ancestor, f[i].parent.value))
  }

  lemma {:induction false} BelowIsEnclosed(f: Forest, ancestor: nat, i: nat)
    requires i < |f| && LeftBelow(f, ancestor, i)
    ensures Encloser(f, i).Some?
    decreases i
  {
    if f[i].parent.value != ancestor && !f[i].below { BelowIsEnclosed(f, ancestor, f[i].parent.value); }
  }

  /** And whoever encloses a process is such an ancestor, with the stamp to show for it. */
  lemma {:induction false} TheEncloserIsBelow(f: Forest, i: nat)
    requires i < |f| && Encloser(f, i).Some?
    ensures LeftBelow(f, Encloser(f, i).value, i)
    decreases i
  {
    if !f[i].below { TheEncloserIsBelow(f, f[i].parent.value); }
  }

  lemma {:induction false} TheEncloserIsOfTheLaunch(f: Forest, i: nat)
    requires Inv(f) && i < |f| && Encloser(f, i).Some?
    ensures var e := Encloser(f, i).value; f[e].stamped && Root(f, e) == Root(f, i)
    decreases i
  {
    hide Encloser, Root, Stamped;
    assert InvAt(f, i);
    NewLine(f, i);
    if !f[i].below { TheEncloserIsOfTheLaunch(f, f[i].parent.value); }
  }

  /** As long as none of a launch's processes has run a shim, each of them owns its identity. */
  lemma TheFirstShimOfALaunchOwnsIt(steps: seq<Step>, i: nat)
    requires Reached(steps) && i < |After(steps)|
    requires forall j :: 0 <= j < |After(steps)| && Root(After(steps), j) == Root(After(steps), i) ==>
      !After(steps)[j].stamped
    ensures var f := After(steps); var id := f[Root(f, i)].env.agent;
      OwnedIdentity(f[i].env, f[i].pid) == if id.Some? && id.value != "" then id else None
  {
    hide Encloser, Root, After, Reached, Inv;
    EveryForestKeepsInv(steps);
    OwnsExactlyWhen(steps, i);
    if Encloser(After(steps), i).Some? { TheEncloserIsOfTheLaunch(After(steps), i); }
  }

  // ----- Where an enclosing agent's identity is owned all the same -----

  const LAUNCHED := [Launch(1, Some("agent"), map[])]
  const ONCE := LAUNCHED + [Shim(0, "claude", map[])] + [Spawn(2, 0, map[])]
  const AGAIN := ONCE + [Shim(1, "claude", map[])]
  const EARLIER := LAUNCHED + [Spawn(2, 0, map[])] + [Shim(0, "claude", map[])]

  lemma Also(steps: seq<Step>, step: Step)
    requires Reached(steps) && Can(After(steps), step)
    ensures Reached(steps + [step]) && After(steps + [step]) == Next(After(steps), step)
  {
    assert (steps + [step])[..|steps|] == steps;
  }

  lemma Opening()
    ensures Reached(LAUNCHED)
    ensures After(LAUNCHED) == [Process(1, Environment(Some("agent"), None, None, map[]), None, false, false)]
  {
    assert LAUNCHED == [] + LAUNCHED && After([]) == [];
    Also([], LAUNCHED[0]);
  }

  /** The identity process `i` owns after these steps. */
  function OwnedAfter(steps: seq<Step>, i: nat): Option<string> {
    if i < |After(steps)| then OwnedIdentity(After(steps)[i].env, After(steps)[i].pid) else None
  }

  /** The harness of the launch starts another, which owns nothing; once more in the same process, and it does. */
  lemma AReExecOwnsTheEnclosingIdentity()
    ensures Reached(AGAIN) && ONCE < AGAIN
    ensures |After(ONCE)| == 2 && LeftBelow(After(ONCE), 0, 1) && OwnedAfter(ONCE, 1) == None
    ensures |After(AGAIN)| == 2 && LeftBelow(After(AGAIN), 0, 1) && OwnedAfter(AGAIN, 1) == Some("agent")
  {
    hide After, Reached;
    Opening();
    Also(LAUNCHED, Shim(0, "claude", map[]));
    Also(LAUNCHED + [Shim(0, "claude", map[])], Spawn(2, 0, map[]));
    Also(ONCE, Shim(1, "claude", map[]));
  }

  /** A child from before the stamp, and the process that spawned it, both own what they were launched into. */
  lemma AnEarlierChildOwnsItToo()
    ensures Reached(EARLIER) && |After(EARLIER)| == 2
    ensures After(EARLIER)[0].stamped && After(EARLIER)[1].parent == Some(0)
    ensures OwnedAfter(EARLIER, 0) == OwnedAfter(EARLIER, 1) == Some("agent")
  {
    hide After, Reached;
    Opening();
    Also(LAUNCHED, Spawn(2, 0, map[]));
    Also(LAUNCHED + [Spawn(2, 0, map[])], Shim(0, "claude", map[]));
  }
}
