/**
 The dynamic API key as a protocol among any number of tasks: a compare-and-swap lock around the
 resolver, a second look after acquiring it, and a loop that waits for the first load. Every step
 is one access to shared state.
 */
module ApiKey {
  import opened Common

  type Task = nat
  type Key = Option<seq<char>>

  datatype Pc =
    | FirstCheck
    | Acquire
    | SecondCheck
    | Resolving
    | Writing(key: Key, stamp: int)
    | Release
    | Waiting
    | Reading
    | Done(result: Key)

  /** One completed load: the value the resolver gave, and the time stamped on it. */
  datatype Load = Load(key: Key, stamp: int)

  datatype World = World(
    tasks: map<Task, Pc>,
    loading: bool,
    apiKey: Key,
    lastLoadTime: Option<int>,
    now: int,
    loads: seq<Load>,
    resolverCalls: nat)

  ghost predicate Init(w: World) {
    w.tasks == map[] && !w.loading && w.apiKey == None && w.lastLoadTime == None && w.loads == [] && w.resolverCalls == 0
  }

  /** `should_load_api_key`: before the first load, or when the interval has passed. */
  predicate ShouldLoad(w: World, reloadInterval: Option<nat>) {
    match w.lastLoadTime
    case None => true
    case Some(last) => reloadInterval.Some? && w.now > last + reloadInterval.value
  }

  datatype Step =
    | Tick(elapsed: nat)
    | Call(task: Task)
    | Move(task: Task)
    | Resolved(task: Task, key: Key)

  predicate Enabled(w: World, s: Step) {
    match s
    case Tick(_) => true
    case Call(t) => t !in w.tasks || w.tasks[t].Done?
    case Move(t) => t in w.tasks && !w.tasks[t].Done? && !w.tasks[t].Resolving?
    case Resolved(t, _) => t in w.tasks && w.tasks[t].Resolving?
  }

  function Goto(w: World, t: Task, pc: Pc): World {
    w.(tasks := w.tasks[t := pc])
  }

  /** What one step of a task does. */
  function MoveTask(w: World, t: Task, reloadInterval: Option<nat>): World
    requires t in w.tasks
  {
    match w.tasks[t]
    case FirstCheck => Goto(w, t, if ShouldLoad(w, reloadInterval) then Acquire else Reading)
    case Acquire => if w.loading then Goto(w, t, Waiting) else Goto(w.(loading := true), t, SecondCheck)
    case SecondCheck =>
      if ShouldLoad(w, reloadInterval) then Goto(w.(resolverCalls := w.resolverCalls + 1), t, Resolving)
      else Goto(w, t, Release)
    case Writing(key, stamp) =>
      Goto(w.(apiKey := key, lastLoadTime := Some(stamp), loads := w.loads + [Load(key, stamp)]), t, Release)
    case Release => Goto(w.(loading := false), t, Reading)
    case Waiting => if w.lastLoadTime.None? then w else Goto(w, t, Reading)
    case Reading => Goto(w, t, Done(w.apiKey))
    case Resolving => w
    case Done(_) => w
  }

  function Next(w: World, s: Step, reloadInterval: Option<nat>): World
    requires Enabled(w, s)
  {
    match s
    case Tick(elapsed) => w.(now := w.now + elapsed)
    case Call(t) => Goto(w, t, FirstCheck)
    case Move(t) => MoveTask(w, t, reloadInterval)
    case Resolved(t, key) => Goto(w, t, Writing(key, w.now))
  }

  /** The tasks between the compare-and-swap and the store that frees the lock. */
  predicate Holds(pc: Pc) {
    pc.SecondCheck? || pc.Resolving? || pc.Writing? || pc.Release?
  }

  // ----- Invariant -----

  /** The lock is free and nobody is inside, or exactly one task is inside. */
  ghost predicate OneHolder(w: World) {
    && (forall t <- w.tasks :: Holds(w.tasks[t]) ==> w.loading)
    && (forall t <- w.tasks, u <- w.tasks :: Holds(w.tasks[t]) && Holds(w.tasks[u]) ==> t == u)
    && (w.loading ==> exists t :: t in w.tasks && Holds(w.tasks[t]))
  }

  ghost predicate InFlight(w: World) {
    exists t :: t in w.tasks && (w.tasks[t].Resolving? || w.tasks[t].Writing?)
  }

  /** The stored key is the last load; every resolver call has loaded or is in flight. */
  ghost predicate Recorded(w: World) {
    && (if w.loads == [] then w.lastLoadTime == None && w.apiKey == None
        else var last := w.loads[|w.loads| - 1]; w.lastLoadTime == Some(last.stamp) && w.apiKey == last.key)
    && w.resolverCalls == |w.loads| + (if InFlight(w) then 1 else 0)
  }

  /** Nobody gets past the waiting before the first load, and until then the lock stays taken. */
  ghost predicate NoEarlyExit(w: World) {
    && (forall t <- w.tasks :: w.tasks[t].Release? || w.tasks[t].Reading? || w.tasks[t].Done? ==> w.loads != [])
    && (forall t <- w.tasks :: w.tasks[t].Waiting? && w.loads == [] ==> w.loading)
  }

  /** Loads lie more than the interval apart, and without an interval there is one at most. */
  ghost predicate SpacedOut(w: World, reloadInterval: Option<nat>) {
    && (forall i | 0 <= i < |w.loads| :: w.loads[i].stamp <= w.now)
    && (forall i, j | 0 <= i < j < |w.loads| :: Overdue(w.loads[i], w.loads[j].stamp, reloadInterval))
    && (forall t <- w.tasks :: LoadIsDue(w, w.tasks[t], reloadInterval))
  }

  ghost predicate Overdue(earlier: Load, time: int, reloadInterval: Option<nat>) {
    reloadInterval.Some? && time > earlier.stamp + reloadInterval.value
  }

  /** A task that is loading began when the last load was overdue, and its stamp is no earlier. */
  ghost predicate LoadIsDue(w: World, pc: Pc, reloadInterval: Option<nat>) {
    var time := if pc.Writing? then pc.stamp else w.now;
    pc.Resolving? || pc.Writing? ==>
      time <= w.now && (w.loads != [] ==> Overdue(w.loads[|w.loads| - 1], time, reloadInterval))
  }

  /** What a task returned was the value of some completed load. */
  ghost predicate ResultsAreLoads(w: World) {
    forall t <- w.tasks :: w.tasks[t].Done? ==> exists i :: 0 <= i < |w.loads| && w.loads[i].key == w.tasks[t].result
  }

  ghost predicate Inv(w: World, reloadInterval: Option<nat>) {
    && OneHolder(w)
    && Recorded(w)
    && NoEarlyExit(w)
    && SpacedOut(w, reloadInterval)
    && ResultsAreLoads(w)
  }

  lemma StepKeepsOneHolder(w: World, s: Step, reloadInterval: Option<nat>)
    requires OneHolder(w) && Enabled(w, s)
    ensures OneHolder(Next(w, s, reloadInterval))
  {
    var v := Next(w, s, reloadInterval);
    if v.loading {
      if w.loading {
        var t :| t in w.tasks && Holds(w.tasks[t]);
        assert Holds(v.tasks[t]);
      } else {
        assert s.Move? && Holds(v.tasks[s.task]);
      }
    }
  }

  lemma StepKeepsRecorded(w: World, s: Step, reloadInterval: Option<nat>)
    requires OneHolder(w) && Recorded(w) && Enabled(w, s)
    ensures Recorded(Next(w, s, reloadInterval))
  {
    var v := Next(w, s, reloadInterval);
    if InFlight(w) {
      var t :| t in w.tasks && (w.tasks[t].Resolving? || w.tasks[t].Writing?);
      assert Holds(w.tasks[t]);
      if s.Move? && s.task == t {
        forall u | u in v.tasks ensures !v.tasks[u].Resolving? && !v.tasks[u].Writing? {
          assert u in w.tasks && (Holds(w.tasks[u]) ==> u == t);
        }
        assert !InFlight(v);
      } else {
        assert v.tasks[t].Resolving? || v.tasks[t].Writing?;
        assert InFlight(v);
      }
    } else if s.Move? && v.tasks[s.task].Resolving? {
      assert InFlight(v);
    } else {
      assert !InFlight(v);
    }
  }

  lemma StepKeepsOthers(w: World, s: Step, reloadInterval: Option<nat>)
    requires Inv(w, reloadInterval) && Enabled(w, s)
    ensures NoEarlyExit(Next(w, s, reloadInterval))
    ensures SpacedOut(Next(w, s, reloadInterval), reloadInterval)
    ensures ResultsAreLoads(Next(w, s, reloadInterval))
  {
    StepKeepsSpacing(w, s, reloadInterval);
    StepKeepsResults(w, s, reloadInterval);
  }

  lemma StepKeepsSpacing(w: World, s: Step, reloadInterval: Option<nat>)
    requires OneHolder(w) && Recorded(w) && SpacedOut(w, reloadInterval) && Enabled(w, s)
    ensures SpacedOut(Next(w, s, reloadInterval), reloadInterval)
  {
    hide Recorded;
    var v := Next(w, s, reloadInterval);
    forall t | t in v.tasks ensures LoadIsDue(v, v.tasks[t], reloadInterval) {
      if t in w.tasks {
        assert LoadIsDue(w, w.tasks[t], reloadInterval);
      }
      StoredIsLast(w);
    }
    if v.loads != w.loads {
      assert LoadIsDue(w, w.tasks[s.task], reloadInterval);
      var last := v.loads[|w.loads|];
      forall i | 0 <= i < |w.loads| ensures Overdue(w.loads[i], last.stamp, reloadInterval) {
        assert i < |w.loads| - 1 ==> Overdue(w.loads[i], w.loads[|w.loads| - 1].stamp, reloadInterval);
      }
    }
  }

  lemma StoredIsLast(w: World)
    requires Recorded(w)
    ensures w.loads == [] ==> w.lastLoadTime == None
    ensures w.loads != [] ==> w.lastLoadTime == Some(w.loads[|w.loads| - 1].stamp)
  {
  }

  lemma StepKeepsResults(w: World, s: Step, reloadInterval: Option<nat>)
    requires Recorded(w) && NoEarlyExit(w) && ResultsAreLoads(w) && Enabled(w, s)
    ensures ResultsAreLoads(Next(w, s, reloadInterval))
  {
    var v := Next(w, s, reloadInterval);
    assert forall i | 0 <= i < |w.loads| :: v.loads[i] == w.loads[i];
    forall t | t in v.tasks && v.tasks[t].Done?
      ensures exists i :: 0 <= i < |v.loads| && v.loads[i].key == v.tasks[t].result
    {
      if t in w.tasks && w.tasks[t].Done? && w.tasks[t] == v.tasks[t] {
        var i :| 0 <= i < |w.loads| && w.loads[i].key == w.tasks[t].result;
        assert v.loads[i].key == v.tasks[t].result;
      } else {
        assert w.tasks[t].Reading?;
        assert v.loads[|w.loads| - 1].key == v.tasks[t].result;
      }
    }
  }

  lemma StepKeepsInv(w: World, s: Step, reloadInterval: Option<nat>)
    requires Inv(w, reloadInterval) && Enabled(w, s)
    ensures Inv(Next(w, s, reloadInterval), reloadInterval)
  {
    StepKeepsOneHolder(w, s, reloadInterval);
    StepKeepsRecorded(w, s, reloadInterval);
    StepKeepsOthers(w, s, reloadInterval);
  }

  // ----- Every interleaving -----

  ghost predicate Run(worlds: seq<World>, steps: seq<Step>, reloadInterval: Option<nat>) {
    && |worlds| == |steps| + 1
    && Init(worlds[0])
    && (forall i | 0 <= i < |steps| :: Enabled(worlds[i], steps[i]) && worlds[i + 1] == Next(worlds[i], steps[i], reloadInterval))
  }

  lemma {:induction false} EveryRunKeepsInv(worlds: seq<World>, steps: seq<Step>, reloadInterval: Option<nat>, i: nat)
    requires Run(worlds, steps, reloadInterval) && i < |worlds|
    ensures Inv(worlds[i], reloadInterval)
  {
    if i > 0 {
      EveryRunKeepsInv(worlds, steps, reloadInterval, i - 1);
      StepKeepsInv(worlds[i - 1], steps[i - 1], reloadInterval);
    }
  }

  /** Never two resolver calls at once. */
  lemma AtMostOneResolver(worlds: seq<World>, steps: seq<Step>, reloadInterval: Option<nat>, i: nat, t: Task, u: Task)
    requires Run(worlds, steps, reloadInterval) && i < |worlds|
    requires t in worlds[i].tasks && worlds[i].tasks[t].Resolving?
    requires u in worlds[i].tasks && worlds[i].tasks[u].Resolving?
    ensures t == u
  {
    EveryRunKeepsInv(worlds, steps, reloadInterval, i);
    assert Holds(worlds[i].tasks[t]) && Holds(worlds[i].tasks[u]);
  }

  /** Whoever has returned, returned the value of a completed load. */
  lemma NoResultBeforeFirstLoad(worlds: seq<World>, steps: seq<Step>, reloadInterval: Option<nat>, i: nat, t: Task)
    requires Run(worlds, steps, reloadInterval) && i < |worlds|
    requires t in worlds[i].tasks && worlds[i].tasks[t].Done?
    ensures worlds[i].lastLoadTime.Some?
    ensures exists k :: 0 <= k < |worlds[i].loads| && worlds[i].loads[k].key == worlds[i].tasks[t].result
  {
    EveryRunKeepsInv(worlds, steps, reloadInterval, i);
  }

  /** If `t` has returned, it returned the value of the last of `n` loads or of a later one. */
  ghost predicate FreshSince(w: World, t: Task, n: nat) {
    && n <= |w.loads|
    && (t in w.tasks && w.tasks[t].Done? ==>
          exists k :: n <= k + 1 && 0 <= k < |w.loads| && w.loads[k].key == w.tasks[t].result)
  }

  lemma CallIsFresh(w: World, reloadInterval: Option<nat>, t: Task)
    requires Enabled(w, Call(t))
    ensures FreshSince(Next(w, Call(t), reloadInterval), t, |w.loads|)
  {
  }

  lemma StepKeepsFresh(w: World, s: Step, reloadInterval: Option<nat>, t: Task, n: nat)
    requires Inv(w, reloadInterval) && FreshSince(w, t, n) && Enabled(w, s)
    ensures FreshSince(Next(w, s, reloadInterval), t, n)
  {
    var v := Next(w, s, reloadInterval);
    assert |w.loads| <= |v.loads| && forall k | 0 <= k < |w.loads| :: v.loads[k] == w.loads[k];
    if t in v.tasks && v.tasks[t].Done? {
      if t in w.tasks && w.tasks[t].Done? {
        var k :| n <= k + 1 && 0 <= k < |w.loads| && w.loads[k].key == w.tasks[t].result;
        assert v.loads[k].key == v.tasks[t].result;
      } else {
        assert w.tasks[t].Reading?;
        assert v.loads[|w.loads| - 1].key == v.tasks[t].result;
      }
    }
  }

  /** A task called at step `j` never returns a load older than the last one completed by then. */
  lemma {:induction false} ResultIsFresh(worlds: seq<World>, steps: seq<Step>, reloadInterval: Option<nat>, j: nat, i: nat, t: Task)
    requires Run(worlds, steps, reloadInterval) && j < i < |worlds| && steps[j] == Call(t)
    ensures FreshSince(worlds[i], t, |worlds[j].loads|)
  {
    hide FreshSince, Inv, Next, Enabled;
    if i == j + 1 {
      CallIsFresh(worlds[j], reloadInterval, t);
    } else {
      EveryRunKeepsInv(worlds, steps, reloadInterval, i - 1);
      ResultIsFresh(worlds, steps, reloadInterval, j, i - 1, t);
      StepKeepsFresh(worlds[i - 1], steps[i - 1], reloadInterval, t, |worlds[j].loads|);
    }
  }

  // ----- An overdue key is loaded again -----

  /**
   Task `t` called for a key that was overdue after `n` loads: until the next load it is on its way to
   the resolver, and afterwards it can only return a newer key.
   */
  ghost predicate Reloading(w: World, t: Task, reloadInterval: Option<nat>, n: nat) {
    && t in w.tasks && n <= |w.loads|
    && var pc := w.tasks[t];
       if |w.loads| == n
       then ShouldLoad(w, reloadInterval) && (pc.FirstCheck? || pc.Acquire? || pc.SecondCheck? || pc.Resolving? || pc.Writing?)
       else pc.Done? ==> exists k :: n <= k < |w.loads| && w.loads[k].key == pc.result
  }

  ghost predicate OtherInside(w: World, t: Task) {
    exists u :: u in w.tasks && u != t && Holds(w.tasks[u])
  }

  lemma CallStartsReload(w: World, t: Task, reloadInterval: Option<nat>)
    requires Enabled(w, Call(t)) && ShouldLoad(w, reloadInterval)
    ensures Reloading(Next(w, Call(t), reloadInterval), t, reloadInterval, |w.loads|)
  {
  }

  lemma StepKeepsReloading(w: World, s: Step, reloadInterval: Option<nat>, t: Task, n: nat)
    requires Inv(w, reloadInterval) && Enabled(w, s) && s != Call(t)
    requires Reloading(w, t, reloadInterval, n)
    ensures Reloading(Next(w, s, reloadInterval), t, reloadInterval, n) || OtherInside(w, t)
  {
    var v := Next(w, s, reloadInterval);
    if !OtherInside(w, t) {
      OthersLoadNothing(w, s, reloadInterval, t);
      if s.Move? && s.task == t {
        OwnMoveKeepsReloading(w, reloadInterval, t, n);
      } else if |w.loads| > n && v.tasks[t].Done? {
        var k :| n <= k < |w.loads| && w.loads[k].key == w.tasks[t].result;
        assert v.loads[k].key == v.tasks[t].result;
      }
    }
  }

  /** With nobody else inside the lock, the loads change only by a step of the task itself. */
  lemma OthersLoadNothing(w: World, s: Step, reloadInterval: Option<nat>, t: Task)
    requires Enabled(w, s) && !OtherInside(w, t) && t in w.tasks && s != Call(t)
    ensures var v := Next(w, s, reloadInterval);
      && t in v.tasks
      && (!(s.Move? && s.task == t) ==>
            && v.loads == w.loads && v.lastLoadTime == w.lastLoadTime && v.now >= w.now
            && (v.tasks[t] == w.tasks[t] || (w.tasks[t].Resolving? && v.tasks[t].Writing?)))
  {
  }

  lemma OwnMoveKeepsReloading(w: World, reloadInterval: Option<nat>, t: Task, n: nat)
    requires OneHolder(w) && Recorded(w) && NoEarlyExit(w) && Enabled(w, Move(t)) && !OtherInside(w, t)
    requires Reloading(w, t, reloadInterval, n)
    ensures Reloading(Next(w, Move(t), reloadInterval), t, reloadInterval, n)
  {
    var v := Next(w, Move(t), reloadInterval);
    if |w.loads| == n {
      assert w.tasks[t].Acquire? ==> !w.loading;
    } else if v.tasks[t].Done? {
      assert v.loads[|w.loads| - 1].key == v.tasks[t].result;
    }
  }

  /**
   A task called while the stored key is overdue returns the value of a load completed after its call,
   unless some other task was inside the lock in the meantime.
   */
  lemma {:induction false} OverdueIsReloaded(worlds: seq<World>, steps: seq<Step>, reloadInterval: Option<nat>, j: nat, i: nat, t: Task)
    requires Run(worlds, steps, reloadInterval) && j < i < |worlds|
    requires steps[j] == Call(t) && ShouldLoad(worlds[j], reloadInterval)
    requires forall m | j < m < i :: steps[m] != Call(t)
    ensures Reloading(worlds[i], t, reloadInterval, |worlds[j].loads|) || exists m :: j < m < i && OtherInside(worlds[m], t)
  {
    hide Reloading, OtherInside, Inv, Next, Enabled, ShouldLoad;
    var n := |worlds[j].loads|;
    if i == j + 1 {
      CallStartsReload(worlds[j], t, reloadInterval);
    } else {
      OverdueIsReloaded(worlds, steps, reloadInterval, j, i - 1, t);
      EveryRunKeepsInv(worlds, steps, reloadInterval, i - 1);
      if Reloading(worlds[i - 1], t, reloadInterval, n) {
        StepKeepsReloading(worlds[i - 1], steps[i - 1], reloadInterval, t, n);
      }
    }
  }

  /** In plain terms, for a task that has returned. */
  lemma OverdueKeyIsNotReturned(worlds: seq<World>, steps: seq<Step>, interval: nat, j: nat, i: nat, t: Task)
    requires Run(worlds, steps, Some(interval)) && j < i < |worlds|
    requires steps[j] == Call(t) && forall m | j < m < i :: steps[m] != Call(t)
    requires worlds[j].lastLoadTime.Some? && worlds[j].lastLoadTime.value + interval < worlds[j].now
    requires t in worlds[i].tasks && worlds[i].tasks[t].Done?
    ensures
      || (exists k :: |worlds[j].loads| <= k < |worlds[i].loads| && worlds[i].loads[k].key == worlds[i].tasks[t].result)
      || exists m :: j < m < i && OtherInside(worlds[m], t)
  {
    OverdueIsReloaded(worlds, steps, Some(interval), j, i, t);
  }

  /** With a key that is not overdue, a caller neither takes the lock nor waits for it. */
  lemma FreshKeyNeedsNoLock(w: World, interval: nat, t: Task)
    requires t in w.tasks && w.tasks[t].FirstCheck?
    requires w.lastLoadTime.Some? && w.now <= w.lastLoadTime.value + interval
    ensures var v := Next(w, Move(t), Some(interval));
      v == w.(tasks := v.tasks) && v.tasks[t].Reading? && Next(v, Move(t), Some(interval)).tasks[t] == Done(w.apiKey)
  {
  }

  // ----- Every call comes to an end -----

  /** How many steps of its own a task still has before it. */
  function StepsLeft(pc: Pc): nat {
    match pc
    case FirstCheck => 7
    case Acquire => 6
    case SecondCheck => 5
    case Resolving => 4
    case Writing(_, _) => 3
    case Release => 2
    case Waiting => 2
    case Reading => 1
    case Done(_) => 0
  }

  /**
   A task returns after at most seven steps of its own. The one step that gets it no further is
   waiting for the first load, and nobody else's step takes it back.
   */
  lemma OwnStepsEnd(w: World, s: Step, reloadInterval: Option<nat>, t: Task)
    requires Enabled(w, s) && t in w.tasks && s != Call(t)
    ensures var v, own := Next(w, s, reloadInterval), (s.Move? || s.Resolved?) && s.task == t;
      && t in v.tasks
      && (if own && !(w.tasks[t].Waiting? && w.lastLoadTime == None)
          then StepsLeft(v.tasks[t]) < StepsLeft(w.tasks[t])
          else v.tasks[t] == w.tasks[t])
  {
  }

  /** Without a reload interval the resolver is called once at most, and everybody returns what it gave. */
  lemma LoadedOnce(worlds: seq<World>, steps: seq<Step>, i: nat)
    requires Run(worlds, steps, None) && i < |worlds|
    ensures worlds[i].resolverCalls <= 1
    ensures forall t <- worlds[i].tasks :: worlds[i].tasks[t].Done? ==>
      |worlds[i].loads| == 1 && worlds[i].tasks[t].result == worlds[i].loads[0].key
  {
    EveryRunKeepsInv(worlds, steps, None, i);
    var w := worlds[i];
    assert |w.loads| > 1 ==> Overdue(w.loads[0], w.loads[1].stamp, None);
    if InFlight(w) {
      var t :| t in w.tasks && (w.tasks[t].Resolving? || w.tasks[t].Writing?);
      assert LoadIsDue(w, w.tasks[t], None);
    }
  }

  /** With a reload interval, consecutive loads are more than the interval apart. */
  lemma LoadsAreSpaced(worlds: seq<World>, steps: seq<Step>, interval: nat, i: nat, k: nat)
    requires Run(worlds, steps, Some(interval)) && i < |worlds| && k + 1 < |worlds[i].loads|
    ensures worlds[i].loads[k + 1].stamp > worlds[i].loads[k].stamp + interval
  {
    EveryRunKeepsInv(worlds, steps, Some(interval), i);
    assert Overdue(worlds[i].loads[k], worlds[i].loads[k + 1].stamp, Some(interval));
  }

  /**
   A task that waits for the first load waits for somebody: one task is inside the lock and has yet
   to ask the resolver, is asking it, or is about to store what it got.
   */
  lemma WaitingForSomebody(worlds: seq<World>, steps: seq<Step>, reloadInterval: Option<nat>, i: nat, t: Task)
    requires Run(worlds, steps, reloadInterval) && i < |worlds|
    requires t in worlds[i].tasks && worlds[i].tasks[t].Waiting? && worlds[i].lastLoadTime == None
    ensures exists u ::
      u in worlds[i].tasks && (worlds[i].tasks[u].SecondCheck? || worlds[i].tasks[u].Resolving? || worlds[i].tasks[u].Writing?)
  {
    EveryRunKeepsInv(worlds, steps, reloadInterval, i);
    var w := worlds[i];
    assert w.loads == [] && w.loading;
    var u :| u in w.tasks && Holds(w.tasks[u]);
    assert !w.tasks[u].Release?;
  }
}
