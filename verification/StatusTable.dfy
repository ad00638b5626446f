/**
 The map of registered reads and the reads themselves as src/ui/extension_host.rs updates them in place: what a
 thread does under the map's lock, or under a read's, takes the steps of the protocol in `SharedStatus`.
 */
module StatusTable {
  import opened Outcomes
  import opened SharedStatus

  /** One `status`, shared by whoever holds a reference to it. */
  class StatusRead {
    var answer: Option<Settled>

    constructor ()
      ensures answer == None
    {
      answer := None;
    }

    predicate IsUsable(now: nat)
      reads this
    {
      answer.None? || now - answer.value.at < SHARED_FOR
    }

    method Settle(at: nat, value: Answer)
      modifies this
      ensures answer == Some(Settled(at, value))
    {
      answer := Some(Settled(at, value));
    }
  }

  predicate Joins(s: State, key: Key) {
    key in s.registered && s.registered[key] < |s.known| && Usable(s.known[s.registered[key]].answer, s.now)
  }

  /** The steps of a lookup, from holding the map to letting it go. */
  function Section(s: State, t: nat, key: Key): seq<Step> {
    if Joins(s, key) then [LookUp(t), Judge(t), Share(t)]
    else if key in s.registered then [LookUp(t), Judge(t), Register(t)]
    else [LookUp(t), Register(t)]
  }

  /** What a lookup leaves of the map, the reads and the thread. */
  ghost predicate Ended(s: State, t: nat, key: Key, s': State) {
    && |s'.pcs| == |s.pcs| && t < |s'.pcs| && s'.mapLock == None
    && (if Joins(s, key) then
          && s'.pcs[t].Want? && s'.pcs[t].r == s.registered[key] && s'.registered == s.registered
          && |s'.known| == |s.known|
        else
          && s'.pcs[t] == Running(|s.known|) && s'.registered == s.registered[key := |s.known|]
          && |s'.known| == |s.known| + 1 && s'.known[|s.known|] == Read(key, t, None, None, false))
    && forall r :: 0 <= r < |s.known| ==> s'.known[r].answer == s.known[r].answer
  }

  lemma Joining(s: State, t: nat, key: Key)
    requires t < |s.pcs| && s.pcs[t] == HoldMap(key) && Joins(s, key) && FreeLock(s, s.registered[key])
    ensures Enabled(s, LookUp(t)) && Enabled(Apply(s, LookUp(t)), Judge(t))
    ensures Enabled(Apply(Apply(s, LookUp(t)), Judge(t)), Share(t))
    ensures Ended(s, t, key, Apply(Apply(Apply(s, LookUp(t)), Judge(t)), Share(t)))
  {
  }

  lemma Replacing(s: State, t: nat, key: Key)
    requires t < |s.pcs| && s.pcs[t] == HoldMap(key) && !Joins(s, key)
    requires key in s.registered && FreeLock(s, s.registered[key])
    ensures Enabled(s, LookUp(t)) && Enabled(Apply(s, LookUp(t)), Judge(t))
    ensures Enabled(Apply(Apply(s, LookUp(t)), Judge(t)), Register(t))
    ensures Ended(s, t, key, Apply(Apply(Apply(s, LookUp(t)), Judge(t)), Register(t)))
  {
  }

  lemma Installing(s: State, t: nat, key: Key)
    requires t < |s.pcs| && s.pcs[t] == HoldMap(key) && key !in s.registered
    ensures Enabled(s, LookUp(t)) && Enabled(Apply(s, LookUp(t)), Register(t))
    ensures Ended(s, t, key, Apply(Apply(s, LookUp(t)), Register(t)))
  {
  }

  lemma RunOfTwo(s: State, a: Step, b: Step)
    requires Enabled(s, a) && Enabled(Apply(s, a), b)
    ensures Legal(s, [a, b]) && Run(s, [a, b]) == Apply(Apply(s, a), b)
  {
    hide Enabled, Apply;
    assert [a, b][1..] == [b] && [b][1..] == [];
    var s1 := Apply(s, a);
    assert Run(Apply(s1, b), []) == Apply(s1, b);
    assert Legal(s1, [b]) && Run(s1, [b]) == Apply(s1, b);
    assert Run(s, [a, b]) == Run(s1, [b]);
  }

  lemma RunOfThree(s: State, a: Step, b: Step, c: Step)
    requires Enabled(s, a) && Enabled(Apply(s, a), b) && Enabled(Apply(Apply(s, a), b), c)
    ensures Legal(s, [a, b, c]) && Run(s, [a, b, c]) == Apply(Apply(Apply(s, a), b), c)
  {
    hide Enabled, Apply;
    RunOfTwo(Apply(s, a), b, c);
    assert [a, b, c][1..] == [b, c];
  }

  lemma SectionRuns(s: State, t: nat, key: Key)
    requires t < |s.pcs| && s.pcs[t] == HoldMap(key)
    requires key in s.registered ==> FreeLock(s, s.registered[key])
    ensures Legal(s, Section(s, t, key)) && Ended(s, t, key, Run(s, Section(s, t, key)))
  {
    hide Run, Legal, Apply, Enabled, Ended;
    if Joins(s, key) {
      Joining(s, t, key);
      RunOfThree(s, LookUp(t), Judge(t), Share(t));
    } else if key in s.registered {
      Replacing(s, t, key);
      RunOfThree(s, LookUp(t), Judge(t), Register(t));
    } else {
      Installing(s, t, key);
      RunOfTwo(s, LookUp(t), Register(t));
    }
  }

  class Table {
    var registered: map<Key, StatusRead>
    ghost var known: seq<StatusRead>

    /** The objects are the reads of the protocol, in order of registration. */
    ghost predicate Represents(s: State)
      reads this, known
    {
      && |known| == |s.known|
      && (forall i, j :: 0 <= i < j < |known| ==> known[i] != known[j])
      && (forall i :: 0 <= i < |known| ==> known[i].answer == s.known[i].answer)
      && registered.Keys == s.registered.Keys
      && (forall key :: key in registered ==>
            s.registered[key] < |known| && registered[key] == known[s.registered[key]])
    }

    constructor (ghost threads: nat)
      ensures Represents(Init(threads))
    {
      registered, known := map[], [];
    }

    /** A registered read that is usable is joined; any other is replaced by one of the caller's own. */
    method LookUpOrRegister(key: Key, now: nat, ghost s: State, ghost t: nat) returns (read: StatusRead, ours: bool)
      requires Represents(s) && t < |s.pcs| && s.pcs[t] == HoldMap(key) && s.now == now
      requires key in s.registered ==> FreeLock(s, s.registered[key])
      modifies this
      ensures Legal(s, Section(s, t, key)) && Represents(Run(s, Section(s, t, key)))
      ensures var s' := Run(s, Section(s, t, key));
        && t < |s'.pcs| && (if ours then s'.pcs[t].Running? else s'.pcs[t].Want?)
        && s'.pcs[t].r < |known| && known[s'.pcs[t].r] == read
      ensures ours ==> known == old(known) + [read] && fresh(read)
      ensures !ours ==> known == old(known) && registered == old(registered)
    {
      hide Run, Legal, Section;
      SectionRuns(s, t, key);
      if key in registered && registered[key].IsUsable(now) {
        return registered[key], false;
      }
      read := new StatusRead();
      registered := registered[key := read];
      known := known + [read];
      ours := true;
    }

    /** The answer is stored under the read's lock by whoever ran it. */
    method Settle(read: StatusRead, at: nat, value: Answer, ghost s: State, ghost t: nat)
      requires Represents(s) && t < |s.pcs| && s.pcs[t].Storing? && s.pcs[t].r < |known| && known[s.pcs[t].r] == read
      requires at == s.pcs[t].at && value == Kept(s.pcs[t].out)
      modifies read
      ensures Represents(Apply(s, Store(t))) && known == old(known)
    {
      read.Settle(at, value);
    }

    /** `retain`: the reads of every root that holds `path` are dropped, and whoever has one keeps it. */
    method ForgetAround(path: Path, ghost s: State, ghost t: nat)
      requires Represents(s) && t < |s.pcs| && s.pcs[t] == HoldForget(path)
      modifies this
      ensures Represents(Apply(s, DropAround(t))) && known == old(known)
    {
      registered := map key | key in registered && !(key.root <= path) :: registered[key];
    }
  }
}
