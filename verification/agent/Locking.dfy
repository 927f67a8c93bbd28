// Concurrent calls of PreStartContainer: each plugin has one lock, taken around
// loading, changing and saving the record of a pod.
module Locking {
  import opened Storage
  import opened Devices
  import opened PreStart
  import opened Lifecycle

  /** How far a call has come. A call that fails under the lock goes straight to
      Returning; the lock is released when the call returns. */
  datatype Phase = Waiting | Locked | Loaded(pif: DeviceMap) | Returning | Finished

  datatype Call = Call(plugin: string, pod: Pod, container: string, device: Device, phase: Phase)

  /** The calls, the holder of each plugin's lock, the stored records, and, for
      the sake of the proof, the last device saved for each container. */
  datatype State = State(
    calls: seq<Call>,
    holder: map<string, nat>,
    records: Records,
    saved: map<(Pod, string), Device>)

  datatype Move = Lock | Load | Save(commits: bool) | Fail | Unlock

  /** Call i makes a move. */
  datatype Step = Step(i: nat, move: Move)

  predicate Enabled(s: State, step: Step)
  {
    step.i < |s.calls| &&
    var c := s.calls[step.i];
    match step.move
    case Lock => c.phase == Waiting && c.plugin !in s.holder
    case Load => c.phase == Locked
    case Save(_) => c.phase.Loaded?
    case Fail => c.phase == Locked
    case Unlock => c.phase == Returning
  }

  function To(s: State, i: nat, phase: Phase): (r: seq<Call>)
    requires i < |s.calls|
  {
    s.calls[i := s.calls[i].(phase := phase)]
  }

  function Next(s: State, step: Step): (r: State)
    requires Enabled(s, step)
  {
    var i, c := step.i, s.calls[step.i];
    match step.move
    case Lock => s.(calls := To(s, i, Locked), holder := s.holder[c.plugin := i])
    case Load => s.(calls := To(s, i, Loaded(RecordOf(s.records, c.pod))))
    case Save(commits) =>
      if commits then
        s.(calls := To(s, i, Returning),
           records := s.records[c.pod := c.phase.pif[c.container := c.device]],
           saved := s.saved[(c.pod, c.container) := c.device])
      else s.(calls := To(s, i, Returning))
    case Fail => s.(calls := To(s, i, Returning))
    case Unlock => s.(calls := To(s, i, Finished), holder := s.holder - {c.plugin})
  }

  predicate IsTrace(s: State, trace: seq<Step>)
    decreases |trace|
  {
    if trace == [] then true else Enabled(s, trace[0]) && IsTrace(Next(s, trace[0]), trace[1..])
  }

  function Run(s: State, trace: seq<Step>): (r: State)
    requires IsTrace(s, trace)
    decreases |trace|
  {
    if trace == [] then s else Run(Next(s, trace[0]), trace[1..])
  }

  /** Any number of calls, none of them under way yet. */
  ghost predicate Init(s: State)
  {
    (forall i :: 0 <= i < |s.calls| ==> s.calls[i].phase == Waiting) && s.holder == map[] && s.saved == map[]
  }

  predicate UnderLock(c: Call)
  {
    c.phase.Locked? || c.phase.Loaded? || c.phase.Returning?
  }

  /** A call is under its plugin's lock exactly when it holds it. */
  ghost predicate LocksHeld(s: State)
  {
    && (forall i :: 0 <= i < |s.calls| && UnderLock(s.calls[i]) ==>
          s.calls[i].plugin in s.holder && s.holder[s.calls[i].plugin] == i)
    && (forall p :: p in s.holder ==>
          s.holder[p] < |s.calls| && UnderLock(s.calls[s.holder[p]]) && s.calls[s.holder[p]].plugin == p)
  }

  /** At most one call of a plugin is between taking the lock and returning. */
  ghost predicate MutualExclusion(s: State)
  {
    forall i, j | 0 <= i < |s.calls| && 0 <= j < |s.calls| && UnderLock(s.calls[i]) && UnderLock(s.calls[j]) ::
      s.calls[i].plugin == s.calls[j].plugin ==> i == j
  }

  /** What has been saved last for a container is in its pod's record. */
  ghost predicate NothingLost(s: State)
  {
    forall pod, c :: (pod, c) in s.saved ==> Has(s.records, pod, c) && s.records[pod][c] == s.saved[(pod, c)]
  }

  /** Calls of two plugins for one pod are for one container. */
  predicate Separate(calls: seq<Call>)
  {
    forall i, j | 0 <= i < |calls| && 0 <= j < |calls| ::
      calls[i].plugin != calls[j].plugin && calls[i].pod == calls[j].pod ==> calls[i].container == calls[j].container
  }

  /** A record that a call has loaded has what has been saved for the other
      containers of its pod. */
  ghost predicate LoadedHasOthers(s: State)
  {
    forall i, c | 0 <= i < |s.calls| && s.calls[i].phase.Loaded? && (s.calls[i].pod, c) in s.saved ::
      c != s.calls[i].container ==> HasSaved(s, s.calls[i].phase.pif, s.calls[i].pod, c)
  }

  ghost predicate HasSaved(s: State, pif: DeviceMap, pod: Pod, c: string)
    requires (pod, c) in s.saved
  {
    c in pif && pif[c] == s.saved[(pod, c)]
  }

  lemma StepKeepsLocks(s: State, step: Step)
    requires LocksHeld(s) && Enabled(s, step)
    ensures LocksHeld(Next(s, step))
  {
    var n := Next(s, step);
    match step.move
    case Lock => LockKeepsLocks(s, n, step.i);
    case Unlock => UnlockKeepsLocks(s, n, step.i);
    case _ => StayKeepsLocks(s, n, step.i);
  }

  lemma StayKeepsLocks(s: State, n: State, i: nat)
    requires LocksHeld(s) && i < |s.calls| && UnderLock(s.calls[i])
    requires exists p :: n.calls == To(s, i, p) && UnderLock(n.calls[i])
    requires n.holder == s.holder
    ensures LocksHeld(n)
  {
  }

  lemma LockKeepsLocks(s: State, n: State, i: nat)
    requires LocksHeld(s) && i < |s.calls| && s.calls[i].plugin !in s.holder && n.calls == To(s, i, Locked)
    requires n.holder == s.holder[s.calls[i].plugin := i]
    ensures LocksHeld(n)
  {
  }

  lemma UnlockKeepsLocks(s: State, n: State, i: nat)
    requires LocksHeld(s) && i < |s.calls| && UnderLock(s.calls[i]) && n.calls == To(s, i, Finished)
    requires n.holder == s.holder - {s.calls[i].plugin}
    ensures LocksHeld(n)
  {
  }

  lemma HeldIsExclusive(s: State)
    requires LocksHeld(s)
    ensures MutualExclusion(s)
  {
  }

  /** A step changes no call but in its phase. */
  lemma StepKeepsCalls(s: State, step: Step)
    requires Enabled(s, step)
    ensures exists p :: Next(s, step).calls == To(s, step.i, p)
  {
    hide To;
    var calls, i := Next(s, step).calls, step.i;
    match step.move
    case Lock => assert calls == To(s, i, Locked);
    case Load => assert calls == To(s, i, Loaded(RecordOf(s.records, s.calls[i].pod)));
    case Save(_) => assert calls == To(s, i, Returning);
    case Fail => assert calls == To(s, i, Returning);
    case Unlock => assert calls == To(s, i, Finished);
  }

  lemma StaySeparate(s: State, step: Step)
    requires Separate(s.calls) && Enabled(s, step)
    ensures Separate(Next(s, step).calls)
  {
    hide Next;
    StepKeepsCalls(s, step);
  }

  /** If a step saves, the calls that have a record loaded are of other pods or
      for the same container. */
  lemma OthersAreApart(s: State, i: nat, j: nat)
    requires LocksHeld(s) && Separate(s.calls) && i < |s.calls| && j < |s.calls| && i != j
    requires UnderLock(s.calls[i]) && UnderLock(s.calls[j])
    ensures s.calls[i].pod == s.calls[j].pod ==> s.calls[i].container == s.calls[j].container
  {
    HeldIsExclusive(s);
  }

  /** The last device saved for each container survives a step. */
  lemma StepLosesNothing(s: State, step: Step)
    requires LocksHeld(s) && Separate(s.calls) && LoadedHasOthers(s) && NothingLost(s) && Enabled(s, step)
    ensures var n := Next(s, step); LoadedHasOthers(n) && NothingLost(n)
  {
    var n, i := Next(s, step), step.i;
    if step.move.Save? && step.move.commits {
      SaveLosesNothing(s, s.calls[i], n);
      forall j, c | 0 <= j < |n.calls| && n.calls[j].phase.Loaded? && (n.calls[j].pod, c) in n.saved &&
                    c != n.calls[j].container
        ensures HasSaved(n, n.calls[j].phase.pif, n.calls[j].pod, c)
      {
        OthersAreApart(s, i, j);
        assert HasSaved(s, s.calls[j].phase.pif, s.calls[j].pod, c);
      }
    } else if step.move.Load? {
      LoadHasOthers(s, i, n);
    } else {
      NothingNewLoaded(s, i, n);
    }
  }

  lemma SaveLosesNothing(s: State, c: Call, n: State)
    requires NothingLost(s) && LoadedHasOthers(s) && c in s.calls && c.phase.Loaded?
    requires n.records == s.records[c.pod := c.phase.pif[c.container := c.device]]
    requires n.saved == s.saved[(c.pod, c.container) := c.device]
    ensures NothingLost(n)
  {
    var i :| 0 <= i < |s.calls| && s.calls[i] == c;
    forall pod, container | (pod, container) in n.saved
      ensures Has(n.records, pod, container) && n.records[pod][container] == n.saved[(pod, container)]
    {
      if (pod, container) != (c.pod, c.container) {
        assert (pod, container) in s.saved;
        assert pod == c.pod ==> HasSaved(s, c.phase.pif, pod, container);
      }
    }
  }

  lemma LoadHasOthers(s: State, i: nat, n: State)
    requires NothingLost(s) && LoadedHasOthers(s) && i < |s.calls|
    requires n == s.(calls := To(s, i, Loaded(RecordOf(s.records, s.calls[i].pod))))
    ensures LoadedHasOthers(n) && NothingLost(n)
  {
    forall j, c | 0 <= j < |n.calls| && n.calls[j].phase.Loaded? && (n.calls[j].pod, c) in n.saved &&
                  c != n.calls[j].container
      ensures HasSaved(n, n.calls[j].phase.pif, n.calls[j].pod, c)
    {
      if j == i {
        assert Has(s.records, s.calls[i].pod, c);
      } else {
        assert HasSaved(s, s.calls[j].phase.pif, s.calls[j].pod, c);
      }
    }
  }

  lemma NothingNewLoaded(s: State, i: nat, n: State)
    requires NothingLost(s) && LoadedHasOthers(s) && i < |s.calls|
    requires n.records == s.records && n.saved == s.saved
    requires exists p: Phase :: !p.Loaded? && n.calls == To(s, i, p)
    ensures LoadedHasOthers(n) && NothingLost(n)
  {
    forall j, c | 0 <= j < |n.calls| && n.calls[j].phase.Loaded? && (n.calls[j].pod, c) in n.saved &&
                  c != n.calls[j].container
      ensures HasSaved(n, n.calls[j].phase.pif, n.calls[j].pod, c)
    {
      assert HasSaved(s, s.calls[j].phase.pif, s.calls[j].pod, c);
    }
  }

  /** Whatever the plugins and the interleaving, no two calls of one plugin are
      under its lock together. */
  lemma {:induction false} CallsExclude(s: State, trace: seq<Step>)
    requires LocksHeld(s) && IsTrace(s, trace)
    ensures LocksHeld(Run(s, trace)) && MutualExclusion(Run(s, trace))
    decreases |trace|
  {
    if trace == [] {
      HeldIsExclusive(s);
    } else {
      StepKeepsLocks(s, trace[0]);
      CallsExclude(Next(s, trace[0]), trace[1..]);
    }
  }

  lemma {:induction false} InvariantAlongTrace(s: State, trace: seq<Step>)
    requires LocksHeld(s) && Separate(s.calls) && LoadedHasOthers(s) && NothingLost(s) && IsTrace(s, trace)
    ensures NothingLost(Run(s, trace))
    decreases |trace|
  {
    if trace != [] {
      hide LocksHeld, LoadedHasOthers, NothingLost, Next, Enabled, Separate;
      StepKeepsLocks(s, trace[0]);
      StaySeparate(s, trace[0]);
      StepLosesNothing(s, trace[0]);
      InvariantAlongTrace(Next(s, trace[0]), trace[1..]);
    }
  }

  /** With the collector idle: if calls of two plugins for one pod are for one
      container, then over every interleaving of any number of calls, at every
      moment the last device saved for a container is in its pod's record. All
      calls of one plugin are such calls, and so are calls of any plugins for
      different pods. */
  lemma NoLostUpdates(s: State, trace: seq<Step>)
    requires Init(s) && Separate(s.calls) && IsTrace(s, trace)
    ensures NothingLost(Run(s, trace)) && MutualExclusion(Run(s, trace))
  {
    InvariantAlongTrace(s, trace);
    CallsExclude(s, trace);
  }

  /** No call is about to write what is in the record already. */
  ghost predicate AllNew(s: State)
  {
    forall i :: 0 <= i < |s.calls| ==>
      var c := s.calls[i];
      Has(s.records, c.pod, c.container) ==> s.records[c.pod][c.container] != c.device
  }

  /** No interleaving loses an update if and only if calls of two plugins for
      one pod are for one container. */
  lemma NoLostUpdatesIff(s: State)
    requires Init(s) && AllNew(s)
    ensures (forall trace | IsTrace(s, trace) :: NothingLost(Run(s, trace))) <==> Separate(s.calls)
  {
    hide IsTrace, Run, NothingLost;
    forall trace | Separate(s.calls) && IsTrace(s, trace) ensures NothingLost(Run(s, trace)) {
      NoLostUpdates(s, trace);
    }
    if !Separate(s.calls) {
      var i, j :| 0 <= i < |s.calls| && 0 <= j < |s.calls| && s.calls[i].plugin != s.calls[j].plugin &&
                  s.calls[i].pod == s.calls[j].pod && s.calls[i].container != s.calls[j].container;
      var trace := LosingTrace(s, i, j);
    }
  }

  lemma FirstStep(s: State, step: Step, rest: seq<Step>)
    requires Enabled(s, step) && IsTrace(Next(s, step), rest)
    ensures IsTrace(s, [step] + rest) && Run(s, [step] + rest) == Run(Next(s, step), rest)
  {
    assert ([step] + rest)[1..] == rest;
  }

  lemma NoStep(s: State)
    ensures IsTrace(s, []) && Run(s, []) == s
  {
  }

  /** Two plugins have two locks: both calls load the record before either saves
      it, and the second to save overwrites what the first has saved. */
  lemma LosingTrace(s: State, i: nat, j: nat) returns (trace: seq<Step>)
    requires Init(s) && AllNew(s) && i < |s.calls| && j < |s.calls|
    requires s.calls[i].plugin != s.calls[j].plugin
    requires s.calls[i].pod == s.calls[j].pod && s.calls[i].container != s.calls[j].container
    ensures IsTrace(s, trace) && !NothingLost(Run(s, trace))
  {
    hide Run, IsTrace, NothingLost, AllNew;
    var s2 := BothLock(s, i, j);
    var s4 := BothLoad(s2, i, j);
    var s6 := BothSave(s4, i, j);
    NoStep(s6);
    trace := [Step(j, Move.Save(true))] + [];
    FirstStep(Next(s4, Step(i, Move.Save(true))), Step(j, Move.Save(true)), []);
    FirstStep(s4, Step(i, Move.Save(true)), trace);
    trace := [Step(i, Move.Save(true))] + trace;
    FirstStep(Next(s2, Step(i, Load)), Step(j, Load), trace);
    trace := [Step(j, Load)] + trace;
    FirstStep(s2, Step(i, Load), trace);
    trace := [Step(i, Load)] + trace;
    FirstStep(Next(s, Step(i, Lock)), Step(j, Lock), trace);
    trace := [Step(j, Lock)] + trace;
    FirstStep(s, Step(i, Lock), trace);
    trace := [Step(i, Lock)] + trace;
    OverwrittenIsLost(s, s6, i, j);
  }

  /** Call i is as in s, but in this phase. */
  predicate Reached(s: State, t: State, i: nat, phase: Phase)
  {
    i < |s.calls| && i < |t.calls| && t.calls[i] == s.calls[i].(phase := phase)
  }

  lemma BothLock(s: State, i: nat, j: nat) returns (t: State)
    requires Init(s) && i < |s.calls| && j < |s.calls| && s.calls[i].plugin != s.calls[j].plugin
    ensures Enabled(s, Step(i, Lock)) && Enabled(Next(s, Step(i, Lock)), Step(j, Lock))
    ensures t == Next(Next(s, Step(i, Lock)), Step(j, Lock))
    ensures Reached(s, t, i, Locked) && Reached(s, t, j, Locked) && t.records == s.records && t.saved == s.saved
  {
    t := Next(Next(s, Step(i, Lock)), Step(j, Lock));
  }

  lemma BothLoad(s: State, i: nat, j: nat) returns (t: State)
    requires Reached(s, s, i, Locked) && Reached(s, s, j, Locked) && s.calls[i].pod == s.calls[j].pod && i != j
    ensures Enabled(s, Step(i, Load)) && Enabled(Next(s, Step(i, Load)), Step(j, Load))
    ensures t == Next(Next(s, Step(i, Load)), Step(j, Load))
    ensures var phase := Loaded(RecordOf(s.records, s.calls[i].pod));
            Reached(s, t, i, phase) && Reached(s, t, j, phase) && t.records == s.records && t.saved == s.saved
  {
    t := Next(Next(s, Step(i, Load)), Step(j, Load));
  }

  lemma BothSave(s: State, i: nat, j: nat) returns (t: State)
    requires i < |s.calls| && j < |s.calls| && i != j && s.calls[i].phase.Loaded? && s.calls[j].phase.Loaded?
    ensures Enabled(s, Step(i, Move.Save(true)))
    ensures Enabled(Next(s, Step(i, Move.Save(true))), Step(j, Move.Save(true)))
    ensures t == Next(Next(s, Step(i, Move.Save(true))), Step(j, Move.Save(true)))
    ensures var c, d := s.calls[i], s.calls[j];
            && t.saved == s.saved[(c.pod, c.container) := c.device][(d.pod, d.container) := d.device]
            && d.pod in t.records && t.records[d.pod] == d.phase.pif[d.container := d.device]
  {
    t := Next(Next(s, Step(i, Move.Save(true))), Step(j, Move.Save(true)));
  }

  lemma OverwrittenIsLost(s: State, t: State, i: nat, j: nat)
    requires AllNew(s) && i < |s.calls| && j < |s.calls|
    requires s.calls[i].pod == s.calls[j].pod && s.calls[i].container != s.calls[j].container
    requires var c, d := s.calls[i], s.calls[j];
             && (c.pod, c.container) in t.saved && t.saved[(c.pod, c.container)] == c.device
             && d.pod in t.records && t.records[d.pod] == RecordOf(s.records, d.pod)[d.container := d.device]
    ensures !NothingLost(t)
  {
    var c := s.calls[i];
    assert Has(t.records, c.pod, c.container) ==> Has(s.records, c.pod, c.container);
  }
}
