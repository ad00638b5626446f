/**
 Passes and upgrades of src/self_update.rs in flight beside one another: each holds a copy of the ledger it read
 when it began, and what it writes, it writes in steps (`pass`, `install_over` and `upgrade_with`), between any of
 which another process may amend the ledger or store an acknowledgement. One amend is one step.
 */
module Passes {
  import opened Outcomes
  import opened Updater
  import opened Versions

  datatype Kind = Background(policy: Policy, ask: bool) | ByHand

  datatype Flight = Flight(p: Process, kind: Kind, releases: Releases, now: nat)

  datatype Stage = Began | Asked | Owning | Placing | Recording | Deciding

  /** `mine` is the copy; `began` is how many acknowledgements had been stored when it was read: history. */
  datatype Pc =
    | Idle
    | Aloft(stage: Stage, f: Flight, mine: Ledger, began: nat, owned: Option<Receipt>)
    | Landed(f: Flight, began: nat, owned: Option<Receipt>, notice: Option<string>)

  datatype State = State(
    ledger: Ledger,
    receipt: Option<Receipt>,
    files: map<Path, string>,
    pcs: seq<Pc>,
    first: Option<string>,  // the acknowledgement there was to begin with
    acks: seq<string>)      // those stored since

  datatype Step =
    | Begin(t: nat, f: Flight)
    | Go(t: nat)
    | Leave(t: nat)
    | Acknowledging(version: string)
    | Claiming(at: nat)
    | Telling(version: string)

  function Init(w: World, processes: nat): State {
    State(w.ledger, w.receipt, w.files, seq(processes, _ => Idle), w.ledger.acknowledged, [])
  }

  predicate Enabled(s: State, step: Step) {
    match step
    case Begin(t, _) => t < |s.pcs| && s.pcs[t].Idle?
    case Go(t) => t < |s.pcs| && s.pcs[t].Aloft?
    case Leave(t) => t < |s.pcs| && s.pcs[t].Landed?
    case _ => true
  }

  predicate Questions(f: Flight, mine: Ledger) { f.kind.ByHand? || f.kind.ask || Stale(mine, f.now) }

  predicate Installs(f: Flight, mine: Ledger, owned: Option<Receipt>) {
    && owned.Some? && mine.latest.Some? && (f.kind.ByHand? || f.kind.policy.Install?)
    && Newer(mine.latest.value, owned.value.version) && f.releases.install.Ok?
  }

  /** What a pass says, going by its copy; an upgrade says nothing of the kind. */
  function Announced(f: Flight, owned: Option<Receipt>, acknowledged: Option<string>): Option<string> {
    if f.kind.ByHand? || owned.None? then None
    else if Newer(owned.value.version, f.p.running) && acknowledged != Some(owned.value.version)
    then Some(owned.value.version) else None
  }

  /** One step of a pass or an upgrade: of the shared state, no more than one amend, one file or the receipt. */
  function Advance(s: State, t: nat): State
    requires t < |s.pcs| && s.pcs[t].Aloft?
  {
    var pc := s.pcs[t];
    match pc.stage
    case Began =>
      if pc.f.kind.ByHand? && pc.f.releases.latest.None? then s.(pcs := s.pcs[t := Landed(pc.f, pc.began, None, None)])
      else if Questions(pc.f, pc.mine) then
        var latest := OrElse(pc.f.releases.latest, if pc.f.kind.ByHand? then None else pc.mine.latest);
        var amend := Checked(pc.f.now, latest);
        s.(ledger := Amended(s.ledger, amend), pcs := s.pcs[t := pc.(stage := Asked, mine := Amended(pc.mine, amend))])
      else s.(pcs := s.pcs[t := pc.(stage := Asked)])
    case Asked =>
      var owned := if s.receipt.Some? && SameFile(pc.f.p, s.receipt.value.binary) then s.receipt else None;
      s.(pcs := s.pcs[t := pc.(stage := Owning, owned := owned)])
    case Owning =>
      if Installs(pc.f, pc.mine, pc.owned) then
        s.(files := s.files[pc.owned.value.binary := pc.mine.latest.value], pcs := s.pcs[t := pc.(stage := Placing)])
      else s.(pcs := s.pcs[t := pc.(stage := Deciding)])
    case Placing =>
      var now :=
        if pc.owned.Some? && pc.mine.latest.Some? then Some(Receipt(pc.owned.value.binary, pc.mine.latest.value))
        else pc.owned;
      s.(receipt := now, pcs := s.pcs[t := pc.(stage := Recording, owned := now)])
    case Recording =>
      var amend := Installed(if pc.owned.Some? then pc.owned.value.version else "");
      s.(ledger := Amended(s.ledger, amend), pcs := s.pcs[t := pc.(stage := Deciding, mine := Amended(pc.mine, amend))])
    case Deciding =>
      var notice := if pc.f.kind.ByHand? then None
        else Decide(pc.f.p.running, if pc.owned.Some? then Some(pc.owned.value.version) else None, pc.mine);
      s.(pcs := s.pcs[t := Landed(pc.f, pc.began, pc.owned, notice)])
  }

  function Apply(s: State, step: Step): State
    requires Enabled(s, step)
  {
    match step
    case Begin(t, f) => s.(pcs := s.pcs[t := Aloft(Began, f, s.ledger, |s.acks|, None)])
    case Go(t) => Advance(s, t)
    case Leave(t) => s.(pcs := s.pcs[t := Idle])
    case Acknowledging(version) =>
      s.(ledger := Amended(s.ledger, Acknowledged(version)), acks := s.acks + [version])
    case Claiming(at) => s.(ledger := Amended(s.ledger, Claimed(at)))
    case Telling(version) => s.(ledger := Amended(s.ledger, Told(version)))
  }

  ghost predicate Legal(s: State, steps: seq<Step>)
    decreases |steps|
  {
    steps == [] || (Enabled(s, steps[0]) && Legal(Apply(s, steps[0]), steps[1..]))
  }

  ghost function Run(s: State, steps: seq<Step>): State
    requires Legal(s, steps)
    decreases |steps|
  {
    if steps == [] then s else Run(Apply(s, steps[0]), steps[1..])
  }

  // ----- Alone, it is one step -----

  /** Process 0 going on until it lands. */
  function Through(s: State, rounds: nat): State
    decreases rounds
  {
    if rounds > 0 && s.pcs != [] && s.pcs[0].Aloft? then Through(Advance(s, 0), rounds - 1) else s
  }

  function Shared(s: State): World { World(s.ledger, s.receipt, s.files) }

  function Start(w: World, f: Flight): State { Apply(Init(w, 1), Begin(0, f)) }

  /** The ledger a pass or an upgrade goes by once it has asked. */
  function AfterAsking(w: World, f: Flight): World {
    if f.kind.Background? then Updater.Asked(w, f.releases, f.now, f.kind.ask)
    else w.(ledger := Amended(w.ledger, Checked(f.now, f.releases.latest)))
  }

  /** Having asked and read the receipt. */
  function Aboard(w: World, f: Flight): State {
    var ledger := AfterAsking(w, f).ledger;
    State(ledger, w.receipt, w.files, [Aloft(Owning, f, ledger, 0, if Owns(w, f.p) then w.receipt else None)],
          w.ledger.acknowledged, [])
  }

  lemma Boarding(w: World, f: Flight)
    requires f.kind.ByHand? ==> f.releases.latest.Some?
    ensures Through(Start(w, f), 6) == Through(Aboard(w, f), 4)
  {
    hide SameFile, Stale, Newer;
    assert Advance(Advance(Start(w, f), 0), 0) == Aboard(w, f);
    assert Through(Advance(Start(w, f), 0), 5) == Through(Aboard(w, f), 4);
  }

  /** From there on: placed and recorded, or not, and then decided. */
  lemma Landing(s: State, f: Flight, owned: Option<Receipt>)
    requires s.pcs == [Aloft(Owning, f, s.ledger, 0, owned)]
    ensures var s' := Through(s, 4); var installs := Installs(f, s.ledger, owned);
      var now := if installs then Some(Receipt(owned.value.binary, s.ledger.latest.value)) else owned;
      && |s'.pcs| == 1 && s'.pcs[0].Landed?
      && s'.receipt == (if installs then now else s.receipt)
      && s'.files == (if installs then s.files[owned.value.binary := s.ledger.latest.value] else s.files)
      && s'.ledger == (if installs then Amended(s.ledger, Installed(s.ledger.latest.value)) else s.ledger)
      && s'.pcs[0].notice == if f.kind.ByHand? then None
         else Decide(f.p.running, if now.Some? then Some(now.value.version) else None, s'.ledger)
  {
    hide Decide, Newer;
    var s3 := Advance(s, 0);
    if s3.pcs[0].stage == Placing {
      assert Through(s, 4) == Through(Advance(Advance(s3, 0), 0), 1);
    } else {
      assert Through(s, 4) == Through(Advance(s3, 0), 2);
    }
  }

  /** Nobody between its steps, a pass comes to what `Pass` does in one. */
  lemma AloneAPassIsOneStep(w: World, f: Flight)
    requires f.kind.Background?
    ensures var s := Through(Start(w, f), 6); var k := f.kind;
      && Shared(s) == AfterPass(w, k.policy, f.p, f.releases, f.now, k.ask)
      && |s.pcs| == 1 && s.pcs[0].Landed?
      && s.pcs[0].notice == NoticeOfPass(w, k.policy, f.p, f.releases, f.now, k.ask)
  {
    hide Newer, SameFile, Stale, Through, Decide, Updater.Asked, Start;
    Boarding(w, f);
    var asked := AfterAsking(w, f);
    var owned := if Owns(w, f.p) then w.receipt else None;
    Landing(Aboard(w, f), f, owned);
    AskingTouchesTheLedger(w, f);
    assert Installs(f, asked.ledger, owned) <==>
      f.kind.policy.Install? && Owns(asked, f.p) && Behind(asked, asked.ledger.latest) && f.releases.install.Ok?;
    AnnouncesByTheOldLedger(w, f, owned);
  }

  lemma AskingTouchesTheLedger(w: World, f: Flight)
    ensures AfterAsking(w, f).receipt == w.receipt && AfterAsking(w, f).files == w.files
    ensures AfterAsking(w, f).ledger.acknowledged == w.ledger.acknowledged
  {
    hide Stale;
  }

  /** Of the ledger, a decision goes by the acknowledgement alone. */
  lemma AnnouncesByTheOldLedger(w: World, f: Flight, owned: Option<Receipt>)
    ensures forall onDisk: Option<string>, l: Ledger :: l.acknowledged == w.ledger.acknowledged ==>
      Decide(f.p.running, onDisk, l) == Decide(f.p.running, onDisk, w.ledger)
  {
    hide Newer;
  }

  /** And an upgrade to what `UpgradeWith` does. */
  lemma AloneAnUpgradeIsOneStep(w: World, f: Flight)
    requires f.kind.ByHand?
    ensures Shared(Through(Start(w, f), 6)) == AfterUpgrade(w, f.p, f.releases, f.now)
  {
    if f.releases.latest.None? {
      assert Through(Start(w, f), 6) == Through(Advance(Start(w, f), 0), 5);
    } else {
      hide Newer, SameFile, Stale, Through, Start;
      Boarding(w, f);
      Landing(Aboard(w, f), f, if Owns(w, f.p) then w.receipt else None);
    }
  }

  // ----- What every interleaving keeps -----

  /** The acknowledgement that stands once the first `n` have been stored. */
  function Standing(s: State, n: nat): Option<string> {
    if 0 < n <= |s.acks| then Some(s.acks[n - 1]) else s.first
  }

  ghost predicate PcOk(s: State, pc: Pc) {
    match pc
    case Idle => true
    case Aloft(_, _, mine, began, _) => began <= |s.acks| && mine.acknowledged == Standing(s, began)
    case Landed(f, began, owned, notice) => began <= |s.acks| && notice == Announced(f, owned, Standing(s, began))
  }

  ghost predicate Inv(s: State) {
    && s.ledger.acknowledged == Standing(s, |s.acks|)
    && forall t :: 0 <= t < |s.pcs| ==> PcOk(s, s.pcs[t])
  }

  lemma AdvanceKeepsInv(s: State, t: nat)
    requires Inv(s) && t < |s.pcs| && s.pcs[t].Aloft?
    ensures Inv(Advance(s, t))
    ensures Advance(s, t).acks == s.acks && Advance(s, t).first == s.first
  {
    hide Newer, SameFile, Stale;
    var s' := Advance(s, t);
    assert PcOk(s, s.pcs[t]);
    assert PcOk(s', s'.pcs[t]);
    forall u | 0 <= u < |s'.pcs| ensures PcOk(s', s'.pcs[u]) {
      assert u != t ==> s'.pcs[u] == s.pcs[u] && PcOk(s, s.pcs[u]);
    }
  }

  lemma StepKeepsInv(s: State, step: Step)
    requires Inv(s) && Enabled(s, step)
    ensures Inv(Apply(s, step)) && Apply(s, step).first == s.first
    ensures Apply(s, step).acks == s.acks + if step.Acknowledging? then [step.version] else []
  {
    hide Advance, Announced;
    if step.Go? { AdvanceKeepsInv(s, step.t); }
    var s' := Apply(s, step);
    if !step.Go? {
      forall u | 0 <= u < |s'.pcs| ensures PcOk(s', s'.pcs[u]) { assert PcOk(s, s.pcs[u]); }
    }
  }

  /** The versions a run stores acknowledgements of, in order. */
  function AcksIn(steps: seq<Step>): seq<string> {
    if steps == [] then [] else (if steps[0].Acknowledging? then [steps[0].version] else []) + AcksIn(steps[1..])
  }

  lemma {:induction false} RunKeepsInv(s: State, steps: seq<Step>)
    requires Inv(s) && Legal(s, steps)
    ensures Inv(Run(s, steps)) && Run(s, steps).acks == s.acks + AcksIn(steps) && Run(s, steps).first == s.first
    decreases |steps|
  {
    hide Inv, Apply, Enabled;
    if steps != [] {
      StepKeepsInv(s, steps[0]);
      RunKeepsInv(Apply(s, steps[0]), steps[1..]);
    }
  }

  lemma InitKeepsInv(w: World, processes: nat)
    ensures Inv(Init(w, processes))
  {
  }

  /**
   However passes, upgrades and commands interleave with acknowledgements, the acknowledgement that stands is the
   last one stored: nothing that a pass holds from before, across whatever download, is written over it.
   */
  lemma AcknowledgementsSurvivePassesInFlight(w: World, processes: nat, steps: seq<Step>)
    requires Legal(Init(w, processes), steps)
    ensures Run(Init(w, processes), steps).ledger.acknowledged ==
      if AcksIn(steps) == [] then w.ledger.acknowledged else Some(AcksIn(steps)[|AcksIn(steps)| - 1])
  {
    InitKeepsInv(w, processes);
    RunKeepsInv(Init(w, processes), steps);
  }

  /** What a pass returns goes by the acknowledgement that stood when it read the ledger, and by no later one. */
  lemma NoticesGoByTheStart(w: World, processes: nat, steps: seq<Step>, t: nat)
    requires Legal(Init(w, processes), steps)
    requires t < |Run(Init(w, processes), steps).pcs| && Run(Init(w, processes), steps).pcs[t].Landed?
    ensures var s := Run(Init(w, processes), steps); var Landed(f, began, owned, notice) := s.pcs[t];
      && began <= |AcksIn(steps)| && s.acks == AcksIn(steps)
      && (notice.Some? <==> f.kind.Background? && owned.Some? && Newer(owned.value.version, f.p.running)
                            && Standing(s, began) != Some(owned.value.version))
      && (notice.Some? ==> notice == Some(owned.value.version))
  {
    InitKeepsInv(w, processes);
    RunKeepsInv(Init(w, processes), steps);
    hide Run, AcksIn, Newer;
    assert PcOk(Run(Init(w, processes), steps), Run(Init(w, processes), steps).pcs[t]);
  }

  // ----- In flight when it is stored -----

  lemma RunOn(s: State, steps: seq<Step>, step: Step)
    requires Legal(s, steps) && Enabled(Run(s, steps), step)
    ensures Legal(s, steps + [step]) && Run(s, steps + [step]) == Apply(Run(s, steps), step)
    decreases |steps|
  {
    hide Enabled, Apply;
    if steps == [] {
      assert [step][1..] == [] && steps + [step] == [step];
    } else {
      assert (steps + [step])[1..] == steps[1..] + [step];
      RunOn(Apply(s, steps[0]), steps[1..], step);
    }
  }

  /**
   A pass in flight when an acknowledgement is stored may still announce that release; the acknowledgement is there
   all the same, for every pass that begins afterwards.
   */
  lemma APassInFlightMayStillSayIt(w: World, f: Flight, version: string)
    requires w.receipt == Some(Receipt("uze", version)) && Newer(version, f.p.running) && w.ledger.acknowledged == None
    requires f.kind == Background(Notify, false) && !Stale(w.ledger, f.now) && SameFile(f.p, "uze")
    ensures var steps := [Begin(0, f)] + [Acknowledging(version)] + [Go(0)] + [Go(0)] + [Go(0)] + [Go(0)];
      && Legal(Init(w, 1), steps)
      && Run(Init(w, 1), steps).pcs == [Landed(f, 0, w.receipt, Some(version))]
      && Run(Init(w, 1), steps).ledger.acknowledged == Some(version)
  {
    hide Newer, SameFile, Stale, Legal, Run;
    var s := Init(w, 1);
    NothingRuns(s);
    RunOn(s, [], Begin(0, f));
    assert [] + [Begin(0, f)] == [Begin(0, f)];
    RunOn(s, [Begin(0, f)], Acknowledging(version));
    var two := [Begin(0, f)] + [Acknowledging(version)];
    RunOn(s, two, Go(0));
    RunOn(s, two + [Go(0)], Go(0));
    RunOn(s, two + [Go(0)] + [Go(0)], Go(0));
    RunOn(s, two + [Go(0)] + [Go(0)] + [Go(0)], Go(0));
  }

  lemma NothingRuns(s: State)
    ensures Legal(s, []) && Run(s, []) == s
  {
  }

  // ----- The latest release known -----

  /** A step that puts the question of the latest release. */
  predicate PutsQuestion(s: State, step: Step) {
    && step.Go? && step.t < |s.pcs| && s.pcs[step.t].Aloft? && s.pcs[step.t].stage == Began
    && Questions(s.pcs[step.t].f, s.pcs[step.t].mine)
  }

  predicate Answered(s: State, step: Step) {
    PutsQuestion(s, step) && s.pcs[step.t].f.releases.latest.Some?
  }

  /** An unanswered question of a pass whose copy does not know what the ledger knows. */
  predicate Reverts(s: State, step: Step) {
    && PutsQuestion(s, step) && s.pcs[step.t].f.kind.Background? && s.pcs[step.t].f.releases.latest.None?
    && s.pcs[step.t].mine.latest != s.ledger.latest
  }

  /**
   A question that goes unanswered stores the release its copy knows of, or none: what the ledger knows changes by
   a step exactly when a question is answered with something else, or is not answered and its copy knows otherwise.
   */
  lemma TheLatestMovesExactlyWhen(s: State, step: Step)
    requires Enabled(s, step)
    ensures Apply(s, step).ledger.latest != s.ledger.latest <==>
      Reverts(s, step) || (Answered(s, step) && s.pcs[step.t].f.releases.latest != s.ledger.latest)
    ensures Answered(s, step) ==> Apply(s, step).ledger.latest == s.pcs[step.t].f.releases.latest
    ensures Reverts(s, step) ==> Apply(s, step).ledger.latest == s.pcs[step.t].mine.latest
  {
    hide Newer, SameFile, Stale, Announced, Decide;
  }

  ghost predicate NothingReverts(s: State, steps: seq<Step>)
    requires Legal(s, steps)
    decreases |steps|
  {
    steps == [] || (!Reverts(s, steps[0]) && NothingReverts(Apply(s, steps[0]), steps[1..]))
  }

  /** What the last answered question was answered with, or `before`. */
  ghost function LastAnswer(s: State, steps: seq<Step>, before: Option<string>): Option<string>
    requires Legal(s, steps)
    decreases |steps|
  {
    if steps == [] then before
    else
      LastAnswer(Apply(s, steps[0]), steps[1..],
                 if Answered(s, steps[0]) then s.pcs[steps[0].t].f.releases.latest else before)
  }

  /** However passes interleave, the release learnt last stands unless such a question comes in between. */
  lemma {:induction false} LearntReleasesStand(s: State, steps: seq<Step>)
    requires Legal(s, steps) && NothingReverts(s, steps)
    ensures Run(s, steps).ledger.latest == LastAnswer(s, steps, s.ledger.latest)
    decreases |steps|
  {
    hide Apply, Enabled, PutsQuestion;
    if steps != [] {
      TheLatestMovesExactlyWhen(s, steps[0]);
      LearntReleasesStand(Apply(s, steps[0]), steps[1..]);
    }
  }

  predicate ByOthers(steps: seq<Step>, t: nat) {
    forall i :: 0 <= i < |steps| ==> match steps[i]
      case Begin(u, _) => u != t
      case Go(u) => u != t
      case Leave(u) => u != t
      case _ => true
  }

  /** A step that puts a release in place. */
  predicate PutsInPlace(s: State, step: Step) {
    && step.Go? && step.t < |s.pcs| && s.pcs[step.t].Aloft? && s.pcs[step.t].stage == Owning
    && Installs(s.pcs[step.t].f, s.pcs[step.t].mine, s.pcs[step.t].owned)
  }

  lemma OthersLeaveMe(s: State, step: Step, t: nat)
    requires Enabled(s, step) && t < |s.pcs| && ByOthers([step], t)
    ensures t < |Apply(s, step).pcs| && Apply(s, step).pcs[t] == s.pcs[t]
    ensures !PutsInPlace(s, step) ==> Apply(s, step).files == s.files
  {
    hide Newer, SameFile, Stale, Decide;
    assert [step][0] == step;
  }

  ghost predicate NothingPlaced(s: State, steps: seq<Step>)
    requires Legal(s, steps)
    decreases |steps|
  {
    steps == [] || (!PutsInPlace(s, steps[0]) && NothingPlaced(Apply(s, steps[0]), steps[1..]))
  }

  lemma {:induction false} MeanwhileIAmLeft(s: State, steps: seq<Step>, t: nat)
    requires Legal(s, steps) && t < |s.pcs| && ByOthers(steps, t)
    ensures t < |Run(s, steps).pcs| && Run(s, steps).pcs[t] == s.pcs[t]
    ensures NothingPlaced(s, steps) ==> Run(s, steps).files == s.files
    decreases |steps|
  {
    hide Apply, Enabled, PutsInPlace;
    if steps != [] {
      assert ByOthers([steps[0]], t) && ByOthers(steps[1..], t);
      OthersLeaveMe(s, steps[0], t);
      MeanwhileIAmLeft(Apply(s, steps[0]), steps[1..], t);
    }
  }

  /** Such a question takes another to have moved the latest release since the pass began. */
  lemma OnlyOverlapsRevert(s: State, t: nat, f: Flight, steps: seq<Step>)
    requires Enabled(s, Begin(t, f)) && Legal(Apply(s, Begin(t, f)), steps) && ByOthers(steps, t)
    ensures var s' := Run(Apply(s, Begin(t, f)), steps);
      Reverts(s', Go(t)) ==> s'.ledger.latest != s.ledger.latest
  {
    MeanwhileIAmLeft(Apply(s, Begin(t, f)), steps, t);
  }

  // ----- What is placed -----

  /** A release put in place is later than the one that is there exactly when the copy's is. */
  lemma APlacementAdvancesExactlyWhen(s: State, t: nat)
    requires t < |s.pcs| && PutsInPlace(s, Go(t)) && s.pcs[t].owned.value.binary in s.files
    ensures var path := s.pcs[t].owned.value.binary; var s' := Apply(s, Go(t));
      && path in s'.files && s'.files == s.files[path := s'.files[path]]
      && (Newer(s'.files[path], s.files[path]) <==> Newer(s.pcs[t].mine.latest.value, s.files[path]))
  {
    hide Newer;
  }

  /** And so it is whenever the receipt told the truth as it was read and nobody has placed anything since. */
  lemma UndisturbedPlacementsAdvance(s: State, t: nat, steps: seq<Step>)
    requires t < |s.pcs| && s.pcs[t].Aloft? && s.pcs[t].stage == Asked && Truthful(Shared(s))
    requires Legal(Advance(s, t), steps) && ByOthers(steps, t) && NothingPlaced(Advance(s, t), steps)
    requires t < |Run(Advance(s, t), steps).pcs| && PutsInPlace(Run(Advance(s, t), steps), Go(t))
    ensures var s' := Run(Advance(s, t), steps); var path := s'.pcs[t].owned.value.binary;
      path in s'.files && Newer(Apply(s', Go(t)).files[path], s'.files[path])
  {
    hide Newer, SameFile;
    MeanwhileIAmLeft(Advance(s, t), steps, t);
    APlacementAdvancesExactlyWhen(Run(Advance(s, t), steps), t);
  }

  // ----- Two at once -----

  /** Releases, later and later. */
  function V(n: nat): string { Print(Precedence(n, 0, 0, [])) }

  lemma LaterReleases(m: nat, n: nat)
    requires m < n < TWO64
    ensures Newer(V(n), V(m)) && V(m) != V(n)
  {
    hide Parse, Print;
    var p, q := Precedence(m, 0, 0, []), Precedence(n, 0, 0, []);
    ParseInvertsPrint(p, "", "", "");
    ParseInvertsPrint(q, "", "", "");
    assert "" + "" + Print(p) + "" == Print(p) && "" + "" + Print(q) + "" == Print(q);
  }

  function Installation(latest: Option<string>): World {
    World(Ledger(0, latest, None, None, None), Some(Receipt("uze", V(1))), map["uze" := V(1)])
  }

  /** A pass of the installed binary, and what the release page answers it. */
  function APass(answer: Option<string>): Flight {
    Flight(Process(V(1), Some("uze"), path => Some(path)), Background(Install, true), Releases(answer, Ok(())), 0)
  }

  const OVERLAPPING := [Begin(0, APass(None))] + [Begin(1, APass(Some(V(3))))] + [Go(1)]

  /** A pass learns of a release while another, whose question goes unanswered, is in flight: it is unlearnt. */
  lemma ALearntReleaseIsUnlearnt(known: Option<string>)
    requires known != Some(V(3))
    ensures var s := Init(Installation(known), 2);
      && Legal(s, OVERLAPPING) && Run(s, OVERLAPPING).ledger.latest == Some(V(3))
      && Legal(s, OVERLAPPING + [Go(0)]) && Run(s, OVERLAPPING + [Go(0)]).ledger.latest == known
  {
    hide Newer, SameFile, Stale, Legal, Run, V;
    var s := Init(Installation(known), 2);
    var f, g := APass(None), APass(Some(V(3)));
    NothingRuns(s);
    RunOn(s, [], Begin(0, f));
    assert [] + [Begin(0, f)] == [Begin(0, f)];
    RunOn(s, [Begin(0, f)], Begin(1, g));
    RunOn(s, [Begin(0, f)] + [Begin(1, g)], Go(1));
    RunOn(s, OVERLAPPING, Go(0));
  }

  /** To none, where the copy knew of none. */
  lemma ACopyOfNoneUnlearnsIt()
    ensures var s := Init(Installation(None), 2);
      && Legal(s, OVERLAPPING) && Legal(s, OVERLAPPING + [Go(0)]) && Run(s, OVERLAPPING).ledger.latest == Some(V(3))
      && Run(s, OVERLAPPING + [Go(0)]).ledger.latest == None
  {
    ALearntReleaseIsUnlearnt(None);
  }

  /** And to the earlier one, where the copy knew of that. */
  lemma AnOlderCopyPutsItBack()
    ensures var s := Init(Installation(Some(V(2))), 2);
      && Legal(s, OVERLAPPING) && Legal(s, OVERLAPPING + [Go(0)]) && Run(s, OVERLAPPING).ledger.latest == Some(V(3))
      && Run(s, OVERLAPPING + [Go(0)]).ledger.latest == Some(V(2)) && Newer(V(3), V(2))
  {
    LaterReleases(2, 3);
    ALearntReleaseIsUnlearnt(Some(V(2)));
  }

  const BOTH_OWNING :=
    [Begin(0, APass(Some(V(2))))] + [Go(0)] + [Go(0)] + [Begin(1, APass(Some(V(3))))] + [Go(1)] + [Go(1)]

  /** Two passes read the receipt; one places a release, and then the other an earlier one over it. */
  lemma AnEarlierReleaseIsPlacedOver()
    ensures var s := Init(Installation(None), 2);
      && Legal(s, BOTH_OWNING + [Go(1)]) && Legal(s, BOTH_OWNING + [Go(1)] + [Go(0)])
      && Run(s, BOTH_OWNING + [Go(1)]).files == map["uze" := V(3)]
      && Run(s, BOTH_OWNING + [Go(1)] + [Go(0)]).files == map["uze" := V(2)] && Newer(V(3), V(2))
  {
    hide Newer, Stale, Legal, Run, V;
    LaterReleases(1, 2);
    LaterReleases(1, 3);
    LaterReleases(2, 3);
    var s := Init(Installation(None), 2);
    var f, g := APass(Some(V(2))), APass(Some(V(3)));
    NothingRuns(s);
    RunOn(s, [], Begin(0, f));
    assert [] + [Begin(0, f)] == [Begin(0, f)];
    RunOn(s, [Begin(0, f)], Go(0));
    RunOn(s, [Begin(0, f)] + [Go(0)], Go(0));
    RunOn(s, [Begin(0, f)] + [Go(0)] + [Go(0)], Begin(1, g));
    RunOn(s, [Begin(0, f)] + [Go(0)] + [Go(0)] + [Begin(1, g)], Go(1));
    RunOn(s, [Begin(0, f)] + [Go(0)] + [Go(0)] + [Begin(1, g)] + [Go(1)], Go(1));
    RunOn(s, BOTH_OWNING, Go(1));
    RunOn(s, BOTH_OWNING + [Go(1)], Go(0));
  }
}
