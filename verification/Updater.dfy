/**
 The self-updater's shared state in src/self_update.rs (the installer's receipt, the ledger and the
 files on disk) under background passes, `uze upgrade`, finishing commands and acknowledgements.

 The class does what the code does, in place; the functions are each operation as one step on the whole
 state, and the lemmas are about any sequence of those steps. Where releases come from (`Releases`), the
 clock and path canonicalisation are what each step is given. JSON writes land.
 */
module Updater {
  import opened Outcomes
  import opened Versions

  type Path = string

  const CHECK_EVERY: nat := 3600

  datatype Policy = Off | Notify | Install

  datatype Receipt = Receipt(binary: Path, version: string)

  datatype Ledger = Ledger(
    checkedAt: nat,
    latest: Option<string>,
    installed: Option<string>,
    acknowledged: Option<string>,
    told: Option<string>)

  /** `files` says which release each file is. */
  datatype World = World(ledger: Ledger, receipt: Option<Receipt>, files: map<Path, string>)

  /** What the release page answers a step, and how an installation of what it names would end. */
  datatype Releases = Releases(latest: Option<string>, install: Result<(), string>)

  /** The running binary and what its paths canonicalise to. */
  datatype Process = Process(running: string, exe: Option<Path>, canonical: Path -> Option<Path>)

  datatype Upgraded =
    | Current(version: string)
    | Replaced(from: string, to: string)
    | NotInstalled(run: Option<Path>, placed: Option<Path>, latest: string)

  datatype Refusal = Unreachable | Failed(reason: string)

  predicate SameFile(p: Process, binary: Path) {
    p.exe.Some? && p.canonical(p.exe.value).Some? && p.canonical(p.exe.value) == p.canonical(binary)
  }

  /** The last question is an hour old; one stamped ahead of the clock is as good as new. */
  predicate Stale(ledger: Ledger, now: nat) {
    (if ledger.checkedAt <= now then now - ledger.checkedAt else 0) >= CHECK_EVERY
  }

  function OrElse(a: Option<string>, b: Option<string>): Option<string> {
    if a.Some? then a else b
  }

  function Decide(running: string, onDisk: Option<string>, ledger: Ledger): Option<string> {
    if onDisk.Some? && Newer(onDisk.value, running) && ledger.acknowledged != onDisk then onDisk else None
  }

  // ----- Amending the ledger -----

  /** The changes written back in one step each, by the field they are about. */
  datatype Amend =
    | Checked(at: nat, latest: Option<string>)
    | Claimed(at: nat)
    | Installed(version: string)
    | Acknowledged(version: string)
    | Told(version: string)

  function Amended(ledger: Ledger, amend: Amend): Ledger {
    match amend
    case Checked(at, latest) => ledger.(checkedAt := at, latest := latest)
    case Claimed(at) => ledger.(checkedAt := at)
    case Installed(version) => ledger.(installed := Some(version))
    case Acknowledged(version) => ledger.(acknowledged := Some(version))
    case Told(version) => ledger.(told := Some(version))
  }

  // ----- Each operation as one step -----

  /** The state once `latest` has been placed over the receipt's file. */
  function Placed(w: World, latest: string): World
    requires w.receipt.Some?
  {
    var binary := w.receipt.value.binary;
    World(Amended(w.ledger, Installed(latest)), Some(Receipt(binary, latest)), w.files[binary := latest])
  }

  predicate Asks(w: World, now: nat, ask: bool) {
    ask || Stale(w.ledger, now)
  }

  function Asked(w: World, releases: Releases, now: nat, ask: bool): World {
    if !Asks(w, now, ask) then w
    else w.(ledger := Amended(w.ledger, Checked(now, OrElse(releases.latest, w.ledger.latest))))
  }

  predicate Owns(w: World, p: Process) {
    w.receipt.Some? && SameFile(p, w.receipt.value.binary)
  }

  predicate Behind(w: World, latest: Option<string>) {
    w.receipt.Some? && latest.Some? && Newer(latest.value, w.receipt.value.version)
  }

  function AfterPass(w: World, policy: Policy, p: Process, releases: Releases, now: nat, ask: bool): World {
    var asked := Asked(w, releases, now, ask);
    if policy.Install? && Owns(asked, p) && Behind(asked, asked.ledger.latest) && releases.install.Ok?
    then Placed(asked, asked.ledger.latest.value) else asked
  }

  /** The acknowledgement a pass goes by is the one it read when it began. */
  function NoticeOfPass(w: World, policy: Policy, p: Process, releases: Releases, now: nat, ask: bool): Option<string> {
    var after := AfterPass(w, policy, p, releases, now, ask);
    Decide(p.running, if Owns(after, p) then Some(after.receipt.value.version) else None, w.ledger)
  }

  function AfterUpgrade(w: World, p: Process, releases: Releases, now: nat): World {
    if releases.latest.None? then w else
      var asked := w.(ledger := Amended(w.ledger, Checked(now, releases.latest)));
      if Owns(asked, p) && Behind(asked, releases.latest) && releases.install.Ok?
      then Placed(asked, releases.latest.value) else asked
  }

  predicate HandsOff(w: World, off: bool, now: nat) {
    !off && Stale(w.ledger, now)
  }

  predicate Says(w: World, p: Process, off: bool) {
    !off && w.ledger.installed == Some(p.running) && w.ledger.told != Some(p.running)
  }

  function AfterCommand(w: World, p: Process, off: bool, now: nat): World {
    var claimed := if HandsOff(w, off, now) then Amended(w.ledger, Claimed(now)) else w.ledger;
    w.(ledger := if Says(w, p, off) then Amended(claimed, Told(p.running)) else claimed)
  }

  /** What `uze upgrade` answers. */
  function Outcome(w: World, p: Process, releases: Releases): Result<Upgraded, Refusal> {
    if releases.latest.None? then Err(Unreachable)
    else if !Owns(w, p) then
      Ok(NotInstalled(p.exe, if w.receipt.Some? then Some(w.receipt.value.binary) else None, releases.latest.value))
    else if !Behind(w, releases.latest) then Ok(Current(w.receipt.value.version))
    else if releases.install.Err? then Err(Failed(releases.install.error))
    else Ok(Replaced(w.receipt.value.version, releases.latest.value))
  }

  /** An unprompted pass asks exactly when the last question is an hour old; asking stamps and may learn. */
  lemma PassStampsAndLearns(w: World, policy: Policy, p: Process, releases: Releases, now: nat, ask: bool)
    ensures var after := AfterPass(w, policy, p, releases, now, ask).ledger;
      if ask || w.ledger.checkedAt + 3600 <= now then
        && after.checkedAt == now
        && after.latest == if releases.latest.Some? then releases.latest else w.ledger.latest
      else after.checkedAt == w.ledger.checkedAt && after.latest == w.ledger.latest
  {
    hide Newer, SameFile;
  }

  // ----- The operations, in place -----

  class Home {
    var ledger: Ledger
    var receipt: Option<Receipt>
    var files: map<Path, string>

    function Now(): World
      reads this
    {
      World(ledger, receipt, files)
    }

    constructor (w: World)
      ensures Now() == w
    {
      ledger, receipt, files := w.ledger, w.receipt, w.files;
    }

    /** Read, changed and written back. */
    method AmendLedger(amend: Amend)
      modifies `ledger
      ensures ledger == Amended(old(ledger), amend)
    {
      ledger := Amended(ledger, amend);
    }

    /** `Releases::install`: Module Replacing says what placing a file does on the way. */
    method Place(releases: Releases, version: string, target: Path) returns (placed: Result<(), string>)
      modifies `files
      ensures placed == releases.install
      ensures files == if placed.Ok? then old(files)[target := version] else old(files)
    {
      placed := releases.install;
      if placed.Ok? { files := files[target := version]; }
    }

    method InstallOver(owned: Receipt, latest: string, releases: Releases)
      returns (moved: Result<Receipt, string>)
      requires receipt == Some(owned)
      modifies this
      ensures moved == if releases.install.Ok? then Ok(Receipt(owned.binary, latest)) else Err(releases.install.error)
      ensures Now() == if moved.Ok? then Placed(old(Now()), latest) else old(Now())
    {
      var placed := Place(releases, latest, owned.binary);
      if placed.Err? { return Err(placed.error); }
      var now := owned.(version := latest);
      receipt := Some(now);
      AmendLedger(Installed(latest));
      moved := Ok(now);
    }

    method Pass(policy: Policy, p: Process, releases: Releases, now: nat, ask: bool) returns (notice: Option<string>)
      modifies this
      ensures Now() == AfterPass(old(Now()), policy, p, releases, now, ask)
      ensures notice == NoticeOfPass(old(Now()), policy, p, releases, now, ask)
      ensures ask || old(ledger).checkedAt + 3600 <= now ==>
        && ledger.checkedAt == now
        && ledger.latest == if releases.latest.Some? then releases.latest else old(ledger).latest
      ensures !ask && now < old(ledger).checkedAt + 3600 ==>
        ledger.checkedAt == old(ledger).checkedAt && ledger.latest == old(ledger).latest
    {
      hide Newer, SameFile, Stale;
      PassStampsAndLearns(Now(), policy, p, releases, now, ask);
      var mine := ledger;
      if ask || Stale(mine, now) {
        var latest := OrElse(releases.latest, mine.latest);
        AmendLedger(Checked(now, latest));
        mine := mine.(checkedAt := now, latest := latest);
      }
      var owned := if receipt.Some? && SameFile(p, receipt.value.binary) then receipt else None;
      if owned.Some? && mine.latest.Some? && policy.Install? && Newer(mine.latest.value, owned.value.version) {
        var moved := InstallOver(owned.value, mine.latest.value, releases);
        if moved.Ok? {
          owned := Some(moved.value);
          mine := mine.(installed := mine.latest);
        }
      }
      notice := Decide(p.running, if owned.Some? then Some(owned.value.version) else None, mine);
    }

    method UpgradeWith(p: Process, releases: Releases, now: nat) returns (upgraded: Result<Upgraded, Refusal>)
      modifies this
      ensures Now() == AfterUpgrade(old(Now()), p, releases, now)
      ensures upgraded == Outcome(old(Now()), p, releases)
    {
      if releases.latest.None? { return Err(Unreachable); }
      var latest := releases.latest.value;
      AmendLedger(Checked(now, Some(latest)));
      if receipt.None? || !SameFile(p, receipt.value.binary) {
        return Ok(NotInstalled(p.exe, if receipt.Some? then Some(receipt.value.binary) else None, latest));
      }
      var owned := receipt.value;
      if !Newer(latest, owned.version) { return Ok(Current(owned.version)); }
      var moved := InstallOver(owned, latest, releases);
      if moved.Err? { return Err(Failed(moved.error)); }
      upgraded := Ok(Replaced(owned.version, latest));
    }

    method UpdatedLine(p: Process, mine: Ledger) returns (said: Option<string>)
      modifies `ledger
      ensures said ==
        if mine.installed == Some(p.running) && mine.told != Some(p.running) then Some(p.running) else None
      ensures ledger == if said.Some? then Amended(old(ledger), Told(p.running)) else old(ledger)
    {
      if mine.installed.None? || mine.installed.value != p.running { return None; }
      var version := mine.installed.value;
      if mine.told == Some(version) { return None; }
      AmendLedger(Told(version));
      said := Some(version);
    }

    /** What a command says on its way out, and whether it hands a check off. */
    method Finish(p: Process, off: bool, now: nat) returns (said: Option<string>, handedOff: bool)
      modifies this
      ensures Now() == AfterCommand(old(Now()), p, off, now)
      ensures said == if !off && old(ledger).installed == Some(p.running) && old(ledger).told != Some(p.running)
                      then Some(p.running) else None
      ensures handedOff <==> !off && old(ledger).checkedAt + 3600 <= now
      ensures handedOff ==> ledger.checkedAt == now
    {
      if off { return None, false; }
      var mine := ledger;
      handedOff := Stale(mine, now);
      if handedOff { AmendLedger(Claimed(now)); }
      said := UpdatedLine(p, mine);
    }
  }

  // ----- Runs -----

  datatype Step =
    | Pass(p: Process, policy: Policy, releases: Releases, now: nat, ask: bool)
    | Upgrade(p: Process, releases: Releases, now: nat)
    | Command(p: Process, off: bool, now: nat)
    | Acknowledge(version: string)

  function Do(w: World, step: Step): World {
    match step
    case Pass(p, policy, releases, now, ask) => AfterPass(w, policy, p, releases, now, ask)
    case Upgrade(p, releases, now) => AfterUpgrade(w, p, releases, now)
    case Command(p, off, now) => AfterCommand(w, p, off, now)
    case Acknowledge(version) => w.(ledger := Amended(w.ledger, Acknowledged(version)))
  }

  function Run(w: World, steps: seq<Step>): World {
    if steps == [] then w else Do(Run(w, steps[..|steps| - 1]), steps[|steps| - 1])
  }

  /** The state step `i` of a run finds. */
  function Before(w: World, steps: seq<Step>, i: nat): World
    requires i <= |steps|
  {
    Run(w, steps[..i])
  }

  lemma Onward(w: World, steps: seq<Step>, i: nat)
    requires i < |steps|
    ensures Before(w, steps, i + 1) == Do(Before(w, steps, i), steps[i])
  {
    assert steps[..i + 1][..i] == steps[..i];
  }

  // ----- What is placed -----

  /** The receipt tells the truth about its file. */
  predicate Truthful(w: World) {
    w.receipt.Some? ==> w.receipt.value.binary in w.files && w.files[w.receipt.value.binary] == w.receipt.value.version
  }

  /** Whether a step places a release: it owns the receipt's file, and has something later for it. */
  predicate Places(w: World, step: Step) {
    match step
    case Pass(p, policy, releases, now, ask) =>
      policy.Install? && Owns(w, p) && releases.install.Ok?
      && Behind(w, if Asks(w, now, ask) then OrElse(releases.latest, w.ledger.latest) else w.ledger.latest)
    case Upgrade(p, releases, now) => Owns(w, p) && releases.install.Ok? && Behind(w, releases.latest)
    case _ => false
  }

  /**
   A step either leaves receipt and files alone, or puts a later release over the receipt's file, and over
   no other, and has the receipt follow; a failed installation is the first, and so is every step of a
   process the file is not, every pass under another policy, every command and every acknowledgement.
   */
  lemma OneFileOneWay(w: World, step: Step)
    requires Truthful(w)
    ensures Truthful(Do(w, step))
    ensures var after := Do(w, step);
      if Places(w, step) then
        && after.receipt.Some? && after.receipt.value.binary == w.receipt.value.binary
        && Newer(after.receipt.value.version, w.receipt.value.version)
        && after.files == w.files[w.receipt.value.binary := after.receipt.value.version]
        && after.ledger.installed == Some(after.receipt.value.version)
      else after.receipt == w.receipt && after.files == w.files && after.ledger.installed == w.ledger.installed
  {
    hide Newer;
  }

  /** What an upgrade answers is what it did. */
  lemma AnUpgradeSaysWhatItDid(w: World, p: Process, releases: Releases, now: nat)
    ensures var step := Upgrade(p, releases, now); var after := Do(w, step); var answer := Outcome(w, p, releases);
      && (Places(w, step) <==> answer.Ok? && answer.value.Replaced?)
      && (Places(w, step) ==> answer.value == Replaced(w.receipt.value.version, after.receipt.value.version))
      && (!Places(w, step) ==> after.receipt == w.receipt && after.files == w.files)
      && (answer.Ok? && answer.value.Current? ==>
            Owns(w, p) && after.receipt.value.version == answer.value.version && !Behind(after, releases.latest))
      && (answer.Ok? && answer.value.NotInstalled? <==> releases.latest.Some? && !Owns(w, p))
      && (answer.Ok? && answer.value.NotInstalled? ==>
            && answer.value.run == p.exe && Some(answer.value.latest) == releases.latest
            && answer.value.placed == if w.receipt.Some? then Some(w.receipt.value.binary) else None)
      && (answer == Err(Unreachable) <==> after == w && releases.latest.None?)
  {
    hide Newer;
  }

  lemma {:induction false} RunsKeepTruth(w: World, steps: seq<Step>)
    requires Truthful(w)
    ensures Truthful(Run(w, steps))
  {
    if steps != [] {
      RunsKeepTruth(w, steps[..|steps| - 1]);
      OneFileOneWay(Run(w, steps[..|steps| - 1]), steps[|steps| - 1]);
    }
  }

  /** `b` is what `a` is, or a later release. */
  predicate NoEarlier(b: string, a: string) {
    b == a || Newer(b, a)
  }

  lemma NoEarlierIsTransitive(a: string, b: string, c: string)
    requires NoEarlier(c, b) && NoEarlier(b, a)
    ensures NoEarlier(c, a)
    ensures Newer(c, b) || Newer(b, a) ==> Newer(c, a)
  {
    NewerIsStrict(c, b, a);
  }

  lemma {:induction false} ReceiptsOnlyAdvance(w: World, steps: seq<Step>, i: nat, j: nat)
    requires Truthful(w) && i <= j <= |steps|
    ensures var was, now := Before(w, steps, i).receipt, Before(w, steps, j).receipt;
      (was.Some? <==> now.Some?) &&
      (was.Some? ==> now.value.binary == was.value.binary && NoEarlier(now.value.version, was.value.version))
    decreases j - i
  {
    if i < j {
      ReceiptsOnlyAdvance(w, steps, i, j - 1);
      RunsKeepTruth(w, steps[..j - 1]);
      Onward(w, steps, j - 1);
      OneFileOneWay(Before(w, steps, j - 1), steps[j - 1]);
      var was, last, now := Before(w, steps, i).receipt, Before(w, steps, j - 1).receipt, Before(w, steps, j).receipt;
      if was.Some? { NoEarlierIsTransitive(was.value.version, last.value.version, now.value.version); }
    }
  }

  /** Over any run, what is placed later is a later release, and it is placed over the same file. */
  lemma PlacementsStrictlyIncrease(w: World, steps: seq<Step>, i: nat, j: nat)
    requires Truthful(w) && i < j < |steps|
    requires Places(Before(w, steps, i), steps[i]) && Places(Before(w, steps, j), steps[j])
    ensures var first, second := Before(w, steps, i + 1).receipt, Before(w, steps, j + 1).receipt;
      first.Some? && second.Some? && first.value.binary == second.value.binary
      && Newer(second.value.version, first.value.version)
  {
    RunsKeepTruth(w, steps[..i]);
    RunsKeepTruth(w, steps[..j]);
    Onward(w, steps, i);
    Onward(w, steps, j);
    OneFileOneWay(Before(w, steps, i), steps[i]);
    OneFileOneWay(Before(w, steps, j), steps[j]);
    ReceiptsOnlyAdvance(w, steps, i + 1, j);
    NoEarlierIsTransitive(Before(w, steps, i + 1).receipt.value.version, Before(w, steps, j).receipt.value.version,
                          Before(w, steps, j + 1).receipt.value.version);
  }

  // ----- What is announced -----

  /** The release `steps` last acknowledged, or the one acknowledged before them. */
  function LastAcknowledgement(w: World, steps: seq<Step>): Option<string> {
    if steps == [] then w.ledger.acknowledged
    else if steps[|steps| - 1].Acknowledge? then Some(steps[|steps| - 1].version)
    else LastAcknowledgement(w, steps[..|steps| - 1])
  }

  lemma OnlyAcknowledgingAcknowledges(w: World, step: Step)
    ensures Do(w, step).ledger.acknowledged == if step.Acknowledge? then Some(step.version) else w.ledger.acknowledged
  {
    hide Newer, SameFile;
  }

  lemma {:induction false} LastAcknowledgementStands(w: World, steps: seq<Step>)
    ensures Run(w, steps).ledger.acknowledged == LastAcknowledgement(w, steps)
  {
    hide Do;
    if steps != [] {
      LastAcknowledgementStands(w, steps[..|steps| - 1]);
      OnlyAcknowledgingAcknowledges(Run(w, steps[..|steps| - 1]), steps[|steps| - 1]);
    }
  }

  function NoticeOf(w: World, step: Step): Option<string>
    requires step.Pass?
  {
    NoticeOfPass(w, step.policy, step.p, step.releases, step.now, step.ask)
  }

  /**
   A pass announces a release exactly when it is what the running binary's own file now holds, it is later
   than what is running, and the last acknowledgement stored before the pass began is not for it.
   */
  lemma AnnouncedUnlessLastAcknowledged(w: World, steps: seq<Step>, pass: Step, version: string)
    requires pass.Pass?
    ensures NoticeOf(Run(w, steps), pass) == Some(version) <==>
      var after := Do(Run(w, steps), pass);
      && Owns(after, pass.p) && after.receipt.value.version == version && Newer(version, pass.p.running)
      && LastAcknowledgement(w, steps) != Some(version)
  {
    hide Newer, Run;
    LastAcknowledgementStands(w, steps);
  }

  /** What a pass would announce if nothing had ever been acknowledged. */
  function News(w: World, pass: Step): Option<string>
    requires pass.Pass?
  {
    var after := Do(w, pass);
    if Owns(after, pass.p) && Newer(after.receipt.value.version, pass.p.running)
    then Some(after.receipt.value.version) else None
  }

  lemma NoticeIsUnacknowledgedNews(w: World, pass: Step, acknowledged: string)
    requires pass.Pass?
    ensures NoticeOf(w, pass) == if News(w, pass) == w.ledger.acknowledged then None else News(w, pass)
    ensures News(Do(w, Acknowledge(acknowledged)), pass) == News(w, pass)
  {
    hide Newer;
  }

  /** Acknowledgements are stored by threads of their own, so one for an older release can come last. */
  lemma ALateAcknowledgementRevives(w: World, pass: Step, older: string, version: string)
    requires pass.Pass? && NoticeOf(w, pass) == Some(version) && older != version
    ensures NoticeOf(Do(w, Acknowledge(version)), pass) == None
    ensures NoticeOf(Do(Do(w, Acknowledge(version)), Acknowledge(older)), pass) == Some(version)
  {
    hide NoticeOf, News;
    var once := Do(w, Acknowledge(version));
    NoticeIsUnacknowledgedNews(w, pass, version);
    NoticeIsUnacknowledgedNews(once, pass, older);
    NoticeIsUnacknowledgedNews(Do(once, Acknowledge(older)), pass, older);
  }

  predicate Settled(w: World, version: string) {
    || w.ledger.acknowledged == Some(version)
    || (w.receipt.Some? && Newer(w.receipt.value.version, version))
  }

  lemma SettledIsQuiet(w: World, pass: Step, version: string)
    requires Truthful(w) && pass.Pass? && Settled(w, version)
    ensures NoticeOf(w, pass) != Some(version)
  {
    hide NoticeOf, Newer;
    NoticeIsUnacknowledgedNews(w, pass, version);
    OneFileOneWay(w, pass);
    if w.receipt.Some? && Newer(w.receipt.value.version, version) {
      var later := Do(w, pass).receipt.value.version;
      NoEarlierIsTransitive(version, w.receipt.value.version, later);
      NewerIsStrict(later, later, later);
    }
  }

  /**
   So once `acknowledge(version)` is stored, no pass that begins later announces it, as long as another
   release is only acknowledged when something later than `version` is in place.
   */
  lemma {:induction false} AcknowledgedStaysQuiet(w: World, steps: seq<Step>, i: nat, j: nat, version: string)
    requires Truthful(w) && i < j <= |steps| && steps[i] == Acknowledge(version)
    requires forall k :: i < k < j && steps[k].Acknowledge? && steps[k].version != version ==>
      Before(w, steps, k).receipt.Some? && Newer(Before(w, steps, k).receipt.value.version, version)
    ensures Settled(Before(w, steps, j), version)
    ensures forall pass: Step :: pass.Pass? ==> NoticeOf(Before(w, steps, j), pass) != Some(version)
    decreases j
  {
    hide Newer, NoticeOf;
    var now := Before(w, steps, j);
    Onward(w, steps, j - 1);
    RunsKeepTruth(w, steps[..j]);
    if i < j - 1 {
      AcknowledgedStaysQuiet(w, steps, i, j - 1, version);
      StepKeepsSettled(w, steps, j - 1, version);
    }
    forall pass: Step | pass.Pass? ensures NoticeOf(now, pass) != Some(version) { SettledIsQuiet(now, pass, version); }
  }

  lemma StepKeepsSettled(w: World, steps: seq<Step>, k: nat, version: string)
    requires Truthful(w) && k < |steps| && Settled(Before(w, steps, k), version)
    requires steps[k].Acknowledge? && steps[k].version != version ==>
      Before(w, steps, k).receipt.Some? && Newer(Before(w, steps, k).receipt.value.version, version)
    ensures Settled(Before(w, steps, k + 1), version)
  {
    hide Newer, Run;
    Onward(w, steps, k);
    ReceiptsOnlyAdvance(w, steps, k, k + 1);
    var was, now := Before(w, steps, k).receipt, Before(w, steps, k + 1).receipt;
    if was.Some? && Newer(was.value.version, version) {
      NoEarlierIsTransitive(version, was.value.version, now.value.version);
    }
  }

  // ----- What a command says -----

  /** The updater's own record of what it installed is not ahead of the receipt. */
  predicate Ordered(w: World) {
    w.receipt.Some? && w.ledger.installed.Some? ==> NoEarlier(w.receipt.value.version, w.ledger.installed.value)
  }

  /** `version` has been said of, and either still is what was installed or is behind it for good. */
  predicate Said(w: World, version: string) {
    && Truthful(w) && Ordered(w) && w.ledger.installed.Some?
    && ((w.ledger.installed == Some(version) && w.ledger.told == Some(version))
        || Newer(w.ledger.installed.value, version))
  }

  lemma StepKeepsOrdered(w: World, step: Step)
    requires Truthful(w) && Ordered(w)
    ensures Ordered(Do(w, step))
  {
    OneFileOneWay(w, step);
  }

  lemma {:induction false} RunKeepsOrdered(w: World, steps: seq<Step>)
    requires Truthful(w) && Ordered(w)
    ensures Truthful(Run(w, steps)) && Ordered(Run(w, steps))
  {
    RunsKeepTruth(w, steps);
    if steps != [] {
      RunKeepsOrdered(w, steps[..|steps| - 1]);
      StepKeepsOrdered(Run(w, steps[..|steps| - 1]), steps[|steps| - 1]);
    }
  }

  lemma StepKeepsSaid(w: World, step: Step, version: string)
    requires Said(w, version)
    ensures Said(Do(w, step), version)
  {
    OneFileOneWay(w, step);
    if Places(w, step) {
      var installed, was, now := w.ledger.installed.value, w.receipt.value.version, Do(w, step).receipt.value.version;
      NoEarlierIsTransitive(installed, was, now);
      NoEarlierIsTransitive(version, installed, now);
    }
  }

  lemma {:induction false} SaidForGood(w: World, steps: seq<Step>, i: nat, j: nat, version: string)
    requires i <= j <= |steps| && Said(Before(w, steps, i), version)
    ensures Said(Before(w, steps, j), version)
    decreases j
  {
    if i < j {
      SaidForGood(w, steps, i, j - 1, version);
      Onward(w, steps, j - 1);
      StepKeepsSaid(Before(w, steps, j - 1), steps[j - 1], version);
    }
  }

  /** Over any run, a release is said to have been updated to at most once. */
  lemma EachReleaseIsSaidOnce(w: World, steps: seq<Step>, i: nat, j: nat)
    requires Truthful(w) && Ordered(w) && i < j < |steps| && steps[i].Command? && steps[j].Command?
    requires Says(Before(w, steps, i), steps[i].p, steps[i].off) && Says(Before(w, steps, j), steps[j].p, steps[j].off)
    ensures steps[i].p.running != steps[j].p.running
  {
    var version := steps[i].p.running;
    RunKeepsOrdered(w, steps[..i]);
    Onward(w, steps, i);
    SaidForGood(w, steps, i + 1, j, version);
    NewerIsStrict(version, version, version);
  }

  // ----- When it asks -----

  /** The moment a step stamps the ledger with, when it does. */
  function Stamped(w: World, step: Step): Option<nat> {
    match step
    case Pass(_, _, _, now, ask) => if Asks(w, now, ask) then Some(now) else None
    case Upgrade(_, releases, now) => if releases.latest.Some? then Some(now) else None
    case Command(_, off, now) => if HandsOff(w, off, now) then Some(now) else None
    case Acknowledge(_) => None
  }

  /** A question nobody asked for: a background pass's own, or a check handed off. */
  predicate Unprompted(w: World, step: Step) {
    match step
    case Pass(_, _, _, now, ask) => !ask && Asks(w, now, ask)
    case Command(_, off, now) => HandsOff(w, off, now)
    case _ => false
  }

  predicate Clocked(steps: seq<Step>) {
    forall i, j :: 0 <= i <= j < |steps| && !steps[i].Acknowledge? && !steps[j].Acknowledge? ==>
      steps[i].now <= steps[j].now
  }

  lemma {:induction false} StampsHold(w: World, steps: seq<Step>, i: nat, j: nat)
    requires Clocked(steps) && i < j <= |steps| && Stamped(Before(w, steps, i), steps[i]).Some?
    ensures Before(w, steps, j).ledger.checkedAt >= steps[i].now
    decreases j
  {
    hide Run, Newer;
    Onward(w, steps, j - 1);
    if i < j - 1 { StampsHold(w, steps, i, j - 1); }
  }

  /** With the clock never stepping back, an unprompted question comes at least an hour after any earlier stamp. */
  lemma QuestionsAreAnHourApart(w: World, steps: seq<Step>, i: nat, j: nat)
    requires Clocked(steps) && i < j < |steps|
    requires Stamped(Before(w, steps, i), steps[i]).Some? && Unprompted(Before(w, steps, j), steps[j])
    ensures steps[j].now >= steps[i].now + CHECK_EVERY
    ensures Stamped(Before(w, steps, j), steps[j]) == Some(steps[j].now)
  {
    StampsHold(w, steps, i, j);
  }

  /** The receipt's file is the running one exactly when both have a canonical path, and it is the same. */
  predicate RunsFrom(p: Process, binary: Path) {
    p.exe.Some? && p.canonical(p.exe.value).Some? && p.canonical(binary) == p.canonical(p.exe.value)
  }

  /** An hour after the last question, or when told to, a pass asks, takes the answer, and installs it if it may. */
  lemma AnHourLaterAPassAsks(w: World, policy: Policy, p: Process, releases: Releases, now: nat, ask: bool)
    requires ask || w.ledger.checkedAt + 3600 <= now
    ensures var after := AfterPass(w, policy, p, releases, now, ask); var latest := releases.latest;
      && after.ledger.checkedAt == now
      && after.ledger.latest == (if latest.Some? then latest else w.ledger.latest)
      && ((latest.Some? && w.receipt.Some? && RunsFrom(p, w.receipt.value.binary)
           && Newer(latest.value, w.receipt.value.version) && policy.Install? && releases.install.Ok?) ==>
            && after.receipt == Some(Receipt(w.receipt.value.binary, latest.value))
            && after.files == w.files[w.receipt.value.binary := latest.value]
            && after.ledger.installed == latest)
  {
    hide Newer;
  }

  /** And before that, unless it is told to, it asks nothing; what it knows already it may still install. */
  lemma WithinTheHourAPassWaits(w: World, policy: Policy, p: Process, releases: Releases, now: nat)
    requires now < w.ledger.checkedAt + 3600
    ensures var after := AfterPass(w, policy, p, releases, now, false); var latest := w.ledger.latest;
      && after.ledger.checkedAt == w.ledger.checkedAt && after.ledger.latest == latest
      && ((latest.Some? && w.receipt.Some? && RunsFrom(p, w.receipt.value.binary)
           && Newer(latest.value, w.receipt.value.version) && policy.Install? && releases.install.Ok?) ==>
            after.files == w.files[w.receipt.value.binary := latest.value])
  {
    hide Newer;
  }

  /** A command hands a check off exactly an hour or more after the last, and then claims it. */
  lemma ACommandHandsOffExactlyWhen(w: World, p: Process, off: bool, now: nat)
    ensures HandsOff(w, off, now) <==> !off && w.ledger.checkedAt + 3600 <= now
    ensures AfterCommand(w, p, off, now).ledger.checkedAt ==
      if !off && w.ledger.checkedAt + 3600 <= now then now else w.ledger.checkedAt
  {
  }

  /** A release newly in place is said by the next command of it, unless that is the release last said of. */
  lemma ANewReleaseIsSaid(w: World, step: Step, p: Process)
    requires Truthful(w) && Places(w, step)
    ensures var placed := Do(w, step).receipt.value.version;
      p.running == placed ==> (Says(Do(w, step), p, false) <==> w.ledger.told != Some(placed))
    ensures Says(Do(w, step), p, false) ==> AfterCommand(Do(w, step), p, false, 0).ledger.told == Some(p.running)
    ensures !Says(w, p, true)
  {
    hide Newer, SameFile, Stale;
    OneFileOneWay(w, step);
  }

  /** Over any run a latest release once known is never forgotten, and one that was learnt stays until another is. */
  lemma {:induction false} KnownReleasesAreKept(w: World, steps: seq<Step>, i: nat, j: nat)
    requires i <= j <= |steps| && Before(w, steps, i).ledger.latest.Some?
    ensures Before(w, steps, j).ledger.latest.Some?
    ensures (forall k :: i <= k < j && (steps[k].Pass? || steps[k].Upgrade?) ==> steps[k].releases.latest.None?) ==>
      Before(w, steps, j).ledger.latest == Before(w, steps, i).ledger.latest
    decreases j
  {
    hide Run, Do;
    if i < j {
      KnownReleasesAreKept(w, steps, i, j - 1);
      Onward(w, steps, j - 1);
      AStepKeepsTheLatest(Before(w, steps, j - 1), steps[j - 1]);
    }
  }

  lemma AStepKeepsTheLatest(w: World, step: Step)
    ensures w.ledger.latest.Some? ==> Do(w, step).ledger.latest.Some?
    ensures ((step.Pass? || step.Upgrade?) ==> step.releases.latest.None?) ==>
      Do(w, step).ledger.latest == w.ledger.latest
  {
    hide Newer, SameFile;
  }
}
