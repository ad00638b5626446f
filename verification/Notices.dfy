/**
 The notice and its revision in src/self_update.rs: `publish` and `since`, interleaved between any number
 of publishers and polling clients. A publisher writes under the lock and counts afterwards; a client
 loads the counter first and takes the notice afterwards.
 */
module Notices {
  import opened Outcomes

  type Notice = Option<string>

  datatype Publisher = Ready | Owing  // it has written, and the counter is yet to move

  /** `heldAt` is which of the notices ever written the client holds: history, never consulted. */
  datatype Client =
    | Drawing(seen: nat, held: Notice, heldAt: nat)
    | Loaded(seen: nat, held: Notice, heldAt: nat, revision: nat)

  datatype State = State(
    notice: Notice,
    revision: nat,
    publishers: seq<Publisher>,
    clients: seq<Client>,
    history: seq<Notice>)

  datatype Step = Write(i: nat, notice: Notice) | Count(i: nat) | Load(i: nat) | TakeNotice(i: nat)

  function Init(publishers: nat, clients: nat): State {
    State(None, 0, seq(publishers, _ => Ready), seq(clients, _ => Drawing(0, None, 0)), [None])
  }

  predicate Enabled(s: State, step: Step) {
    match step
    case Write(i, _) => i < |s.publishers| && s.publishers[i].Ready?
    case Count(i) => i < |s.publishers| && s.publishers[i].Owing?
    case Load(i) => i < |s.clients| && s.clients[i].Drawing?
    case TakeNotice(i) => i < |s.clients| && s.clients[i].Loaded? && s.history != []
  }

  function Apply(s: State, step: Step): State
    requires Enabled(s, step)
  {
    match step
    case Write(i, notice) =>
      if s.notice == notice then s
      else s.(notice := notice, history := s.history + [notice], publishers := s.publishers[i := Owing])
    case Count(i) => s.(revision := s.revision + 1, publishers := s.publishers[i := Ready])
    case Load(i) =>
      var c := s.clients[i];
      if s.revision == c.seen then s
      else s.(clients := s.clients[i := Loaded(c.seen, c.held, c.heldAt, s.revision)])
    case TakeNotice(i) =>
      s.(clients := s.clients[i := Drawing(s.clients[i].revision, s.notice, |s.history| - 1)])
  }

  function Owed(publishers: seq<Publisher>): nat {
    if publishers == [] then 0 else (if publishers[0].Owing? then 1 else 0) + Owed(publishers[1..])
  }

  lemma {:induction false} OwedMoves(publishers: seq<Publisher>, i: nat, p: Publisher)
    requires i < |publishers|
    ensures Owed(publishers[i := p]) + (if publishers[i].Owing? then 1 else 0) ==
      Owed(publishers) + if p.Owing? then 1 else 0
  {
    var after := publishers[i := p];
    if i == 0 {
      assert after[1..] == publishers[1..];
    } else {
      assert after[1..] == publishers[1..][i - 1 := p];
      OwedMoves(publishers[1..], i - 1, p);
    }
  }

  lemma {:induction false} NoneOwed(publishers: seq<Publisher>)
    ensures Owed(publishers) == 0 <==> forall i :: 0 <= i < |publishers| ==> publishers[i].Ready?
  {
    if publishers != [] { NoneOwed(publishers[1..]); }
  }

  ghost predicate ClientOk(s: State, c: Client) {
    && c.seen <= c.heldAt < |s.history| && c.held == s.history[c.heldAt]
    && (c.Loaded? ==> c.revision <= s.revision)
  }

  /** The counter and what is owed to it are the notices written; nobody has seen past what it holds. */
  ghost predicate Inv(s: State) {
    && s.history != [] && s.notice == s.history[|s.history| - 1]
    && s.revision + Owed(s.publishers) == |s.history| - 1
    && forall i :: 0 <= i < |s.clients| ==> ClientOk(s, s.clients[i])
  }

  lemma StepKeepsInv(s: State, step: Step)
    requires Inv(s) && Enabled(s, step)
    ensures Inv(Apply(s, step))
  {
    var s' := Apply(s, step);
    match step
    case Write(i, notice) => OwedMoves(s.publishers, i, Owing);
    case Count(i) => OwedMoves(s.publishers, i, Ready);
    case _ =>
    forall i | 0 <= i < |s'.clients| ensures ClientOk(s', s'.clients[i]) {
      assert ClientOk(s, s.clients[i]);
    }
  }

  ghost predicate Legal(s: State, steps: seq<Step>)
    decreases |steps|
  {
    steps == [] || (Enabled(s, steps[0]) && Legal(Apply(s, steps[0]), steps[1..]))
  }

  ghost function Run(s: State, steps: seq<Step>): State
    requires Legal(s, steps)
    decreases |steps|
  {
    if steps == [] then s else Run(Apply(s, steps[0]), steps[1..])
  }

  lemma {:induction false} RunKeepsInv(s: State, steps: seq<Step>)
    requires Inv(s) && Legal(s, steps)
    ensures Inv(Run(s, steps))
    decreases |steps|
  {
    if steps != [] {
      StepKeepsInv(s, steps[0]);
      RunKeepsInv(Apply(s, steps[0]), steps[1..]);
    }
  }

  /** With no publisher between its write and its count, a client that has seen the counter holds the notice. */
  lemma SeenIsCurrent(publishers: nat, clients: nat, steps: seq<Step>, i: nat)
    requires Legal(Init(publishers, clients), steps)
    requires var s := Run(Init(publishers, clients), steps);
      && i < |s.clients| && s.clients[i].seen == s.revision
      && forall p :: 0 <= p < |s.publishers| ==> s.publishers[p].Ready?
    ensures var s := Run(Init(publishers, clients), steps); s.clients[i].held == s.notice
  {
    var s := Run(Init(publishers, clients), steps);
    NoneOwed(seq(publishers, _ => Ready));
    RunKeepsInv(Init(publishers, clients), steps);
    NoneOwed(s.publishers);
    assert ClientOk(s, s.clients[i]);
  }

  /** With one in between, it may not: the notice has changed and the counter does not say so yet. */
  lemma AnOwedCountHidesTheNotice(notice: string)
    ensures var s := Apply(Init(1, 1), Write(0, Some(notice)));
      s.clients[0].seen == s.revision && s.clients[0].held != s.notice
  {
  }

  /** The number of times the counter moves over a run. */
  ghost function Moves(s: State, steps: seq<Step>): nat
    requires Legal(s, steps)
    decreases |steps|
  {
    if steps == [] then 0 else
      (if Apply(s, steps[0]).revision != s.revision then 1 else 0) + Moves(Apply(s, steps[0]), steps[1..])
  }

  /** The notices a run writes that differ from the one before them. */
  ghost function Changes(s: State, steps: seq<Step>): nat
    requires Legal(s, steps)
    decreases |steps|
  {
    if steps == [] then 0 else
      (if steps[0].Write? && steps[0].notice != s.notice then 1 else 0) + Changes(Apply(s, steps[0]), steps[1..])
  }

  /** The counter moves once for each change and never for a notice published again. */
  lemma {:induction false} OnlyChangesCount(s: State, steps: seq<Step>)
    requires Legal(s, steps)
    ensures Moves(s, steps) + Owed(Run(s, steps).publishers) == Changes(s, steps) + Owed(s.publishers)
    decreases |steps|
  {
    if steps != [] {
      match steps[0] {
        case Write(i, notice) => OwedMoves(s.publishers, i, Owing);
        case Count(i) => OwedMoves(s.publishers, i, Ready);
        case _ =>
      }
      OnlyChangesCount(Apply(s, steps[0]), steps[1..]);
    }
  }

  /** What a call that runs through comes to: a write and its count, or, for the notice there is, no count. */
  function PublishSteps(s: State, i: nat, next: Notice): seq<Step> {
    if s.notice == next then [Write(i, next)] else [Write(i, next), Count(i)]
  }

  function SinceSteps(s: State, i: nat): seq<Step> {
    if i < |s.clients| && s.revision == s.clients[i].seen then [Load(i)] else [Load(i), TakeNotice(i)]
  }

  lemma RunOfTwo(s: State, a: Step, b: Step)
    requires Enabled(s, a)
    ensures Legal(s, [a]) && Run(s, [a]) == Apply(s, a)
    ensures Enabled(Apply(s, a), b) ==> Legal(s, [a, b]) && Run(s, [a, b]) == Apply(Apply(s, a), b)
  {
    hide Enabled, Apply;
    assert [a, b][1..] == [b] && [a][1..] == [] && [b][1..] == [];
    var s1 := Apply(s, a);
    assert Legal(s1, []) && Run(s1, []) == s1;
    if Enabled(s1, b) {
      assert Legal(Apply(s1, b), []) && Run(Apply(s1, b), []) == Apply(s1, b);
      assert Legal(s1, [b]) && Run(s1, [b]) == Apply(s1, b);
    }
  }

  /** The two statics, and the calls on them as runs of the protocol. */
  class Board {
    var notice: Notice
    var revision: nat

    ghost predicate Represents(s: State)
      reads this
    {
      notice == s.notice && revision == s.revision
    }

    constructor (ghost publishers: nat, ghost clients: nat)
      ensures Represents(Init(publishers, clients))
    {
      notice, revision := None, 0;
    }

    method Publish(next: Notice, ghost s: State, ghost i: nat)
      requires Represents(s) && i < |s.publishers| && s.publishers[i].Ready?
      modifies this
      ensures Legal(s, PublishSteps(s, i, next)) && Represents(Run(s, PublishSteps(s, i, next)))
    {
      RunOfTwo(s, Write(i, next), Count(i));
      if notice == next { return; }
      notice := next;
      revision := revision + 1;
    }

    /** What a client is handed is what the protocol's client then holds. */
    method Since(seen: nat, ghost s: State, ghost i: nat) returns (news: Option<(nat, Notice)>)
      requires Represents(s) && Inv(s) && i < |s.clients| && s.clients[i].Drawing? && s.clients[i].seen == seen
      ensures Legal(s, SinceSteps(s, i)) && Represents(Run(s, SinceSteps(s, i)))
      ensures var c := Run(s, SinceSteps(s, i)).clients;
        && |c| == |s.clients|
        && (if news.None? then c == s.clients
            else c[i].seen == news.value.0 && c[i].held == news.value.1 && news.value.0 != seen)
    {
      RunOfTwo(s, Load(i), TakeNotice(i));
      var loaded := revision;
      news := None;
      if loaded != seen { news := Some((loaded, notice)); }
    }
  }
}
