/** The shutdown handshake of LeaderElection: the two leadership callbacks, the goroutine that waits for
    the parent context, and the children, interleaved in every possible way. The elector may invoke
    either callback at any time and any number of times. */
module LeaderElection {
  import opened Options

  datatype Role = OnStartedLeading | OnStoppedLeading | CancelGoroutine

  /** Where a thread is in its function. */
  datatype Pc =
    | AwaitContext       // blocked on <-ctx.Done()
    | AtLock             // blocked on childLock.Lock()
    | Holding            // has the lock, nothing done yet
    | Checked            // OnStartedLeading: saw that ctx is not canceled
    | Spawning(left: nat)
    | Canceled           // OnStoppedLeading: called childCancel
    | Waiting            // blocked on wg.Wait()
    | AtUnlock
    | AtLeaderCancel
    | Finished

  datatype Thread = Thread(role: Role, pc: Pc)

  /** Child contexts are numbered; one is canceled by its own cancel function or with the parent. */
  datatype State = State(
    ctxDone: bool,
    released: bool,               // the cancel goroutine canceled the leader context
    lock: Option<nat>,
    childCtx: Option<nat>,
    starts: nat,
    canceled: set<nat>,
    wg: int,
    spawned: nat,                 // goroutines that have not read childCtx yet
    running: seq<Option<nat>>,    // children inside run, and the context each one got
    threads: map<nat, Thread>)

  const CANCELER := 0

  function Start(): State {
    State(false, false, None, None, 0, {}, 0, 0, [], map[CANCELER := Thread(CancelGoroutine, AwaitContext)])
  }

  datatype Action =
    | ParentDone
    | Invoke(id: nat, role: Role)
    | Step(id: nat)
    | ChildStarts
    | ChildExits(index: nat)

  predicate Enabled(s: State, a: Action) {
    match a
    case ParentDone => true
    case Invoke(id, role) => id !in s.threads && role != CancelGoroutine
    case Step(id) => id in s.threads && CanStep(s, s.threads[id].pc)
    case ChildStarts => s.spawned > 0
    case ChildExits(index) => index < |s.running|
  }

  predicate CanStep(s: State, pc: Pc) {
    match pc
    case AwaitContext => s.ctxDone
    case AtLock => s.lock == None
    case Waiting => s.wg == 0
    case Finished => false
    case _ => true
  }

  /** `runs` is the number of functions to run as children. */
  function Next(s: State, a: Action, runs: nat): State
    requires Enabled(s, a)
  {
    match a
    case ParentDone => s.(ctxDone := true)
    case Invoke(id, role) => s.(threads := s.threads[id := Thread(role, AtLock)])
    case Step(id) => ThreadStep(s, id, runs)
    case ChildStarts => s.(spawned := s.spawned - 1, running := s.running + [s.childCtx])
    case ChildExits(index) => s.(running := s.running[..index] + s.running[index + 1..], wg := s.wg - 1)
  }

  function Goto(s: State, id: nat, pc: Pc): State
    requires id in s.threads
  {
    s.(threads := s.threads[id := s.threads[id].(pc := pc)])
  }

  function ThreadStep(s: State, id: nat, runs: nat): State
    requires Enabled(s, Step(id))
  {
    match s.threads[id].pc
    case AwaitContext => Goto(s, id, AtLock)
    case AtLock => Goto(s, id, Holding).(lock := Some(id))
    case Holding => Locked(s, id)
    case Checked => Goto(s, id, Spawning(runs)).(childCtx := Some(s.starts), starts := s.starts + 1, wg := s.wg + runs)
    case Spawning(left) => if left == 0 then Goto(s, id, AtUnlock) else Goto(s, id, Spawning(left - 1)).(spawned := s.spawned + 1)
    case Canceled => Goto(s, id, Waiting).(childCtx := None)
    case Waiting => Goto(s, id, AtUnlock)
    case AtUnlock => Goto(s, id, if s.threads[id].role == CancelGoroutine then AtLeaderCancel else Finished).(lock := None)
    case AtLeaderCancel => Goto(s, id, Finished).(released := true)
  }

  /** The first thing each function does under the lock. */
  function Locked(s: State, id: nat): State
    requires id in s.threads
  {
    match s.threads[id].role
    case OnStartedLeading => Goto(s, id, if s.ctxDone then AtUnlock else Checked)
    case OnStoppedLeading =>
      if s.childCtx == None then Goto(s, id, AtUnlock)
      else Goto(s, id, Canceled).(canceled := s.canceled + {s.childCtx.value})
    case CancelGoroutine =>
      if s.childCtx == None then Goto(s, id, AtUnlock)
      else Goto(s, id, Waiting).(canceled := s.canceled + {s.childCtx.value})
  }

  ghost predicate Legal(s: State, actions: seq<Action>, runs: nat)
    decreases |actions|
  {
    actions == [] || (Enabled(s, actions[0]) && Legal(Next(s, actions[0], runs), actions[1..], runs))
  }

  function Run(s: State, actions: seq<Action>, runs: nat): State
    requires Legal(s, actions, runs)
    decreases |actions|
  {
    if actions == [] then s else Run(Next(s, actions[0], runs), actions[1..], runs)
  }

  // ----- the invariant -----

  predicate Critical(pc: Pc) {
    !pc.AwaitContext? && !pc.AtLock? && !pc.AtLeaderCancel? && !pc.Finished?
  }

  predicate Suits(t: Thread) {
    && (t.pc.AwaitContext? || t.pc.AtLeaderCancel? ==> t.role == CancelGoroutine)
    && (t.pc.Checked? || t.pc.Spawning? ==> t.role == OnStartedLeading)
    && (t.pc.Canceled? ==> t.role == OnStoppedLeading)
    && (t.pc.Waiting? ==> t.role != OnStartedLeading)
  }

  ghost predicate Placed(id: nat, t: Thread, lock: Option<nat>) {
    && Suits(t)
    && (Critical(t.pc) <==> lock == Some(id))
    && (t.role == CancelGoroutine <==> id == CANCELER)
  }

  /** The lock is held by the thread in its critical section, and there is no other. */
  ghost predicate Exclusive(lock: Option<nat>, threads: map<nat, Thread>) {
    && CANCELER in threads
    && (lock.Some? ==> lock.value in threads)
    && forall id :: id in threads ==> Placed(id, threads[id], lock)
  }

  /** What the thread that holds the lock is doing. */
  function HolderPc(lock: Option<nat>, threads: map<nat, Thread>): Pc
    requires Exclusive(lock, threads)
  {
    if lock == None then Finished else threads[lock.value].pc
  }

  /** The wait group counts the children, with those about to be spawned. */
  ghost predicate Counts(s: State, holder: Pc) {
    && s.wg == s.spawned + |s.running| + (if holder.Spawning? then holder.left else 0)
    && (s.childCtx == None && !holder.Waiting? ==> s.wg == 0)
    && (holder.Spawning? || holder.Canceled? ==> s.childCtx.Some?)
  }

  /** How far the cancel goroutine is, and what that rules out. */
  ghost predicate Handshake(ctxDone: bool, released: bool, wg: int, canceler: Pc, holder: Pc) {
    && (released <==> canceler.Finished?)
    && (!canceler.AwaitContext? ==> ctxDone)
    && (canceler.AtUnlock? || Leaving(canceler) ==> wg == 0)
    && (Leaving(canceler) ==> !holder.Checked? && !holder.Spawning?)
  }

  predicate Leaving(pc: Pc) {
    pc.AtLeaderCancel? || pc.Finished?
  }

  /** The context of the last start is the current one, and who waits has canceled it. */
  ghost predicate Contexts(s: State, holder: Pc) {
    && (s.childCtx.Some? ==> s.childCtx.value == s.starts - 1)
    && (forall c :: c in s.running && c.Some? ==> c.value < s.starts)
    && (holder.Canceled? || holder.Waiting? ==> s.starts - 1 in s.canceled)
    && (holder.Waiting? ==> (s.childCtx.Some? <==> s.lock == Some(CANCELER)))
  }

  ghost predicate Inv(s: State) {
    && Exclusive(s.lock, s.threads)
    && var holder, canceler := HolderPc(s.lock, s.threads), s.threads[CANCELER].pc;
    && Counts(s, holder) && Handshake(s.ctxDone, s.released, s.wg, canceler, holder) && Contexts(s, holder)
  }

  /** One thread moves on, perhaps taking or releasing the lock. */
  lemma MoveKeeps(lock: Option<nat>, threads: map<nat, Thread>, id: nat, pc: Pc, lock': Option<nat>)
    requires Exclusive(lock, threads) && id in threads && Suits(threads[id].(pc := pc))
    requires if Critical(pc) then lock in {None, Some(id)} && lock' == Some(id)
             else lock' == if lock == Some(id) then None else lock
    ensures var threads' := threads[id := threads[id].(pc := pc)];
      && Exclusive(lock', threads')
      && HolderPc(lock', threads') == (if Critical(pc) then pc else if lock == Some(id) then Finished else HolderPc(lock, threads))
  {
  }

  lemma LockedKeeps(s: State, id: nat, runs: nat)
    requires Inv(s) && Enabled(s, Step(id)) && s.threads[id].pc.Holding?
    ensures Inv(ThreadStep(s, id, runs))
  {
    var t := ThreadStep(s, id, runs);
    assert Placed(id, s.threads[id], s.lock) && Placed(CANCELER, s.threads[CANCELER], s.lock);
    MoveKeeps(s.lock, s.threads, id, t.threads[id].pc, t.lock);
  }

  lemma CriticalKeeps(s: State, id: nat, runs: nat)
    requires Inv(s) && Enabled(s, Step(id)) && !s.threads[id].pc.Holding? && Critical(s.threads[id].pc)
    ensures Inv(ThreadStep(s, id, runs))
  {
    var t := ThreadStep(s, id, runs);
    assert Placed(id, s.threads[id], s.lock) && Placed(CANCELER, s.threads[CANCELER], s.lock);
    MoveKeeps(s.lock, s.threads, id, t.threads[id].pc, t.lock);
  }

  lemma OutsideKeeps(s: State, id: nat, runs: nat)
    requires Inv(s) && Enabled(s, Step(id)) && !Critical(s.threads[id].pc)
    ensures Inv(ThreadStep(s, id, runs))
  {
    var t := ThreadStep(s, id, runs);
    assert Placed(id, s.threads[id], s.lock) && Placed(CANCELER, s.threads[CANCELER], s.lock);
    MoveKeeps(s.lock, s.threads, id, t.threads[id].pc, t.lock);
  }

  lemma NextKeeps(s: State, a: Action, runs: nat)
    requires Inv(s) && Enabled(s, a)
    ensures Inv(Next(s, a, runs))
  {
    match a
    case ParentDone =>
    case Invoke(id, role) =>
    case Step(id) =>
      if s.threads[id].pc.Holding? {
        LockedKeeps(s, id, runs);
      } else if Critical(s.threads[id].pc) {
        CriticalKeeps(s, id, runs);
      } else {
        OutsideKeeps(s, id, runs);
      }
    case ChildStarts =>
    case ChildExits(index) =>
  }

  /** While the parent context is live, a child's context has been canceled only by an OnStoppedLeading
      that is still at it, and only if it is the last one. */
  ghost predicate Cancels(s: State, holder: Pc) {
    && (forall c :: c in s.canceled ==> c < s.starts)
    && (!s.ctxDone && s.childCtx.Some? && !holder.Canceled? ==> s.childCtx.value !in s.canceled)
    && (!s.ctxDone ==> forall c :: c in s.running && c.Some? && c.value in s.canceled ==>
          c.value == s.starts - 1 && (holder.Canceled? || holder.Waiting?))
  }

  ghost predicate CancelsKept(s: State) {
    Exclusive(s.lock, s.threads) && Cancels(s, HolderPc(s.lock, s.threads))
  }

  lemma LockedCancels(s: State, id: nat, runs: nat)
    requires Inv(s) && CancelsKept(s) && Enabled(s, Step(id)) && s.threads[id].pc.Holding?
    ensures CancelsKept(ThreadStep(s, id, runs))
  {
    var t := ThreadStep(s, id, runs);
    assert Placed(id, s.threads[id], s.lock) && Placed(CANCELER, s.threads[CANCELER], s.lock);
    MoveKeeps(s.lock, s.threads, id, t.threads[id].pc, t.lock);
  }

  lemma LaterCancels(s: State, id: nat, runs: nat)
    requires Inv(s) && CancelsKept(s) && Enabled(s, Step(id)) && !s.threads[id].pc.Holding?
    ensures CancelsKept(ThreadStep(s, id, runs))
  {
    var t := ThreadStep(s, id, runs);
    assert Placed(id, s.threads[id], s.lock) && Placed(CANCELER, s.threads[CANCELER], s.lock);
    MoveKeeps(s.lock, s.threads, id, t.threads[id].pc, t.lock);
  }

  lemma NextCancels(s: State, a: Action, runs: nat)
    requires Inv(s) && CancelsKept(s) && Enabled(s, a)
    ensures CancelsKept(Next(s, a, runs))
  {
    NextKeeps(s, a, runs);
    if a.Step? {
      if s.threads[a.id].pc.Holding? {
        LockedCancels(s, a.id, runs);
      } else {
        LaterCancels(s, a.id, runs);
      }
    }
  }

  lemma {:induction false} RunKeeps(s: State, actions: seq<Action>, runs: nat)
    requires Inv(s) && Legal(s, actions, runs)
    ensures Inv(Run(s, actions, runs))
    ensures CancelsKept(s) ==> CancelsKept(Run(s, actions, runs))
    decreases |actions|
  {
    if actions != [] {
      NextKeeps(s, actions[0], runs);
      if CancelsKept(s) {
        NextCancels(s, actions[0], runs);
      }
      RunKeeps(Next(s, actions[0], runs), actions[1..], runs);
    }
  }

  ghost predicate Reachable(s: State, runs: nat) {
    exists actions :: Legal(Start(), actions, runs) && Run(Start(), actions, runs) == s
  }

  lemma ReachableKeeps(s: State, runs: nat)
    requires Reachable(s, runs)
    ensures Inv(s) && CancelsKept(s)
  {
    var actions :| Legal(Start(), actions, runs) && Run(Start(), actions, runs) == s;
    RunKeeps(Start(), actions, runs);
  }

  // ----- what the handshake guarantees -----

  /** Once the cancel goroutine has canceled the leader context, no child is running, and none will. */
  lemma ReleaseIsSafe(s: State, more: seq<Action>, runs: nat)
    requires Reachable(s, runs) && s.released && Legal(s, more, runs)
    ensures s.ctxDone && s.spawned == 0 && s.running == []
    ensures Run(s, more, runs).spawned == 0 && Run(s, more, runs).running == []
  {
    ReachableKeeps(s, runs);
    ReleasedStays(s, more, runs);
  }

  lemma {:induction false} ReleasedStays(s: State, more: seq<Action>, runs: nat)
    requires Inv(s) && s.released && Legal(s, more, runs)
    ensures var t := Run(s, more, runs); Inv(t) && t.released && t.wg == 0
    decreases |more|
  {
    if more != [] {
      NextKeeps(s, more[0], runs);
      ReleasedStays(Next(s, more[0], runs), more[1..], runs);
    }
  }

  /** Whoever finds the lock free and no child context finds no child either: OnStoppedLeading waited. */
  lemma NoContextNoChild(s: State, runs: nat)
    requires Reachable(s, runs) && s.lock == None && s.childCtx == None
    ensures s.spawned == 0 && s.running == []
  {
    ReachableKeeps(s, runs);
  }

  /** An OnStoppedLeading about to release the lock leaves no child context behind. */
  ghost predicate StopsClean(s: State) {
    s.lock.Some? && s.lock.value in s.threads && s.threads[s.lock.value] == Thread(OnStoppedLeading, AtUnlock) ==>
      s.childCtx == None
  }

  lemma NextStopsClean(s: State, a: Action, runs: nat)
    requires Inv(s) && StopsClean(s) && Enabled(s, a)
    ensures StopsClean(Next(s, a, runs))
  {
    if a.Step? {
      assert Placed(a.id, s.threads[a.id], s.lock);
    }
  }

  lemma {:induction false} RunStopsClean(s: State, actions: seq<Action>, runs: nat)
    requires Inv(s) && StopsClean(s) && Legal(s, actions, runs)
    ensures StopsClean(Run(s, actions, runs))
    decreases |actions|
  {
    if actions != [] {
      NextKeeps(s, actions[0], runs);
      NextStopsClean(s, actions[0], runs);
      RunStopsClean(Next(s, actions[0], runs), actions[1..], runs);
    }
  }

  /** When an OnStoppedLeading is done, whatever way it took, no child runs and none is on its way. */
  lemma StoppedMeansStopped(s: State, id: nat, runs: nat)
    requires Reachable(s, runs) && id in s.threads && s.threads[id] == Thread(OnStoppedLeading, AtUnlock)
    ensures s.childCtx == None && s.spawned == 0 && s.running == []
  {
    ReachableKeeps(s, runs);
    var actions :| Legal(Start(), actions, runs) && Run(Start(), actions, runs) == s;
    RunStopsClean(Start(), actions, runs);
    assert Placed(id, s.threads[id], s.lock);
  }

  /** Nobody adds to the wait group while somebody waits on it, nor is it ever negative. */
  lemma AddNeverMeetsWait(s: State, adder: nat, waiter: nat, runs: nat)
    requires Reachable(s, runs) && adder in s.threads && waiter in s.threads
    ensures !(s.threads[adder].pc.Checked? && s.threads[waiter].pc.Waiting?)
    ensures s.wg >= s.spawned + |s.running|
  {
    ReachableKeeps(s, runs);
    assert Placed(adder, s.threads[adder], s.lock) && Placed(waiter, s.threads[waiter], s.lock);
  }

  /** The child has been asked to stop. */
  predicate Told(s: State, child: Option<nat>) {
    child.Some? && (s.ctxDone || child.value in s.canceled)
  }

  /** The cancel goroutine waits only for children that were asked to stop. While the parent context is
      live, OnStoppedLeading has asked exactly the children of the last start: an earlier start's cancel
      function was forgotten. A child that came too late to read its context cannot be asked. */
  lemma ToldExactlyWhen(s: State, waiter: nat, i: nat, runs: nat)
    requires Reachable(s, runs) && waiter in s.threads && s.threads[waiter].pc.Waiting?
    requires i < |s.running|
    ensures Told(s, s.running[i]) <==> s.running[i].Some? && (s.ctxDone || s.running[i].value == s.starts - 1)
    ensures waiter == CANCELER ==> s.ctxDone
  {
    ReachableKeeps(s, runs);
    assert Placed(waiter, s.threads[waiter], s.lock) && s.running[i] in s.running;
  }

  /** A child that is only now scheduled gets no context exactly while OnStoppedLeading waits. */
  lemma NilExactlyWhen(s: State, runs: nat)
    requires Reachable(s, runs) && Enabled(s, ChildStarts)
    ensures Next(s, ChildStarts, runs).running[|s.running|] == None <==>
      exists id :: id in s.threads && s.threads[id] == Thread(OnStoppedLeading, Waiting)
  {
    ReachableKeeps(s, runs);
    forall id | id in s.threads
      ensures Placed(id, s.threads[id], s.lock)
    {
    }
    if s.childCtx == None {
      assert s.threads[s.lock.value] == Thread(OnStoppedLeading, Waiting);
    }
  }

  // ----- every function is started -----

  /** The children that came to run in a stretch of a run. */
  function Begun(actions: seq<Action>): nat {
    if actions == [] then 0 else (if actions[0].ChildStarts? then 1 else 0) + Begun(actions[1..])
  }

  /** How often an OnStartedLeading that had seen a live context went on to start its children. */
  function Passed(s: State, actions: seq<Action>, runs: nat): nat
    requires Legal(s, actions, runs)
    decreases |actions|
  {
    if actions == [] then 0
    else (if PassesCheck(s, actions[0]) then 1 else 0) + Passed(Next(s, actions[0], runs), actions[1..], runs)
  }

  predicate PassesCheck(s: State, a: Action) {
    a.Step? && a.id in s.threads && s.threads[a.id].pc.Checked?
  }

  /** The children that the holder of the lock has yet to spawn. */
  function ToSpawn(s: State): nat
    requires Exclusive(s.lock, s.threads)
  {
    var holder := HolderPc(s.lock, s.threads);
    if holder.Spawning? then holder.left else 0
  }

  lemma StepOwes(s: State, id: nat, runs: nat)
    requires Inv(s) && Enabled(s, Step(id)) && Inv(ThreadStep(s, id, runs))
    ensures var t := ThreadStep(s, id, runs);
      t.spawned + ToSpawn(t) == s.spawned + ToSpawn(s) + if s.threads[id].pc.Checked? then runs else 0
  {
    var t := ThreadStep(s, id, runs);
    assert Placed(id, s.threads[id], s.lock);
    MoveKeeps(s.lock, s.threads, id, t.threads[id].pc, t.lock);
  }

  lemma NextOwes(s: State, a: Action, runs: nat)
    requires Inv(s) && Enabled(s, a)
    ensures Inv(Next(s, a, runs))
    ensures var t := Next(s, a, runs);
      (if a.ChildStarts? then 1 else 0) + t.spawned + ToSpawn(t) ==
      s.spawned + ToSpawn(s) + if PassesCheck(s, a) then runs else 0
  {
    NextKeeps(s, a, runs);
    match a
    case Step(id) => StepOwes(s, id, runs);
    case Invoke(id, role) =>
      assert s.lock.Some? ==> Next(s, a, runs).threads[s.lock.value] == s.threads[s.lock.value];
    case _ =>
  }

  lemma {:induction false} RunOwes(s: State, actions: seq<Action>, runs: nat)
    requires Inv(s) && Legal(s, actions, runs)
    ensures Inv(Run(s, actions, runs))
    ensures var t := Run(s, actions, runs);
      Begun(actions) + t.spawned + ToSpawn(t) == s.spawned + ToSpawn(s) + Passed(s, actions, runs) * runs
    decreases |actions|
  {
    if actions != [] {
      NextOwes(s, actions[0], runs);
      RunOwes(Next(s, actions[0], runs), actions[1..], runs);
      OneMoreTime(Passed(Next(s, actions[0], runs), actions[1..], runs), runs);
    }
  }

  lemma OneMoreTime(n: nat, runs: nat)
    ensures (1 + n) * runs == runs + n * runs
  {
  }

  /** Over every run, the children that came to run, those about to, and those the holder of the lock has yet
      to spawn are all the functions, once for each OnStartedLeading that saw a live context. */
  lemma EveryFunctionIsStarted(actions: seq<Action>, runs: nat)
    requires Legal(Start(), actions, runs)
    ensures var s := Run(Start(), actions, runs);
      && Exclusive(s.lock, s.threads)
      && Begun(actions) + s.spawned + ToSpawn(s) == Passed(Start(), actions, runs) * runs
  {
    RunOwes(Start(), actions, runs);
  }

  /** So between two moments with the lock free, exactly `runs` children were started for each that did. */
  lemma EachStartStartsAll(s: State, more: seq<Action>, runs: nat)
    requires Reachable(s, runs) && Legal(s, more, runs) && s.lock == None == Run(s, more, runs).lock
    ensures Begun(more) + Run(s, more, runs).spawned == s.spawned + Passed(s, more, runs) * runs
  {
    ReachableKeeps(s, runs);
    RunOwes(s, more, runs);
  }

  // ----- when an early return is final -----

  /** An OnStartedLeading that will start children when its turn comes. */
  predicate Pending(s: State, id: nat) {
    && id in s.threads && s.threads[id].role == OnStartedLeading
    && var pc := s.threads[id].pc;
    pc.Checked? || (pc.Spawning? && pc.left > 0) || (!s.ctxDone && (pc.AtLock? || pc.Holding?))
  }

  ghost predicate NoneInvoked(actions: seq<Action>) {
    forall a :: a in actions ==> !a.Invoke?
  }

  /** No child context, no child, and nobody who would start one. */
  ghost predicate Idle(s: State) {
    Inv(s) && s.childCtx == None && s.wg == 0 && forall id :: !Pending(s, id)
  }

  lemma IdleStays(s: State, a: Action, runs: nat)
    requires Idle(s) && Enabled(s, a) && (s.ctxDone || !a.Invoke?)
    ensures Idle(Next(s, a, runs)) && (s.ctxDone ==> Next(s, a, runs).ctxDone)
  {
    NextKeeps(s, a, runs);
    var t := Next(s, a, runs);
    if a.Step? {
      assert Placed(a.id, s.threads[a.id], s.lock) && !Pending(s, a.id);
    }
    forall id
      ensures !Pending(t, id)
    {
      assert !Pending(s, id);
    }
  }

  lemma {:induction false} IdleForGood(s: State, more: seq<Action>, runs: nat)
    requires Idle(s) && Legal(s, more, runs) && (s.ctxDone || NoneInvoked(more))
    ensures Idle(Run(s, more, runs))
    decreases |more|
  {
    if more != [] {
      IdleStays(s, more[0], runs);
      assert forall a :: a in more[1..] ==> a in more;
      IdleForGood(Next(s, more[0], runs), more[1..], runs);
    }
  }

  /** How far the first child is from running: the holder of the lock leaves it, then `id` goes through. */
  function StepsToChild(s: State, id: nat, runs: nat): nat
    requires Exclusive(s.lock, s.threads)
  {
    if s.spawned > 0 then 0
    else if s.lock == Some(id) then 1 + Steps(s.threads[id].pc, runs)
    else 3 * runs + 12 + Steps(HolderPc(s.lock, s.threads), runs)
  }

  /** The holder of the lock goes on, or else `id` takes it. */
  lemma PendingGoesOn(s: State, id: nat, runs: nat) returns (a: Action)
    requires Inv(s) && s.running == [] && s.spawned == 0 && Pending(s, id) && runs > 0
    ensures !a.Invoke? && Enabled(s, a)
    ensures var t := Next(s, a, runs);
      && Inv(t) && t.running == [] && (t.spawned > 0 || Pending(t, id))
      && StepsToChild(t, id, runs) < StepsToChild(s, id, runs)
  {
    assert Placed(id, s.threads[id], s.lock);
    var who := if s.lock.Some? then s.lock.value else id;
    assert Placed(who, s.threads[who], s.lock);
    a := Step(who);
    NextKeeps(s, a, runs);
  }

  lemma {:induction false} PendingStarts(s: State, id: nat, runs: nat) returns (more: seq<Action>)
    requires Inv(s) && s.running == [] && (s.spawned > 0 || Pending(s, id)) && runs > 0
    ensures Legal(s, more, runs) && NoneInvoked(more) && Run(s, more, runs).running != []
    decreases StepsToChild(s, id, runs)
  {
    if s.spawned > 0 {
      more := [ChildStarts];
      assert more[1..] == [];
    } else {
      var a := PendingGoesOn(s, id, runs);
      var rest := PendingStarts(Next(s, a, runs), id, runs);
      more := [a] + rest;
      assert more[1..] == rest;
    }
  }

  /** Where an OnStoppedLeading that found no child context leaves things, a child can still run without
      another callback exactly when some OnStartedLeading is on its way: it has seen a live parent
      context already, or has yet to look and the context is live. */
  lemma EarlyReturnFinalExactlyWhen(s: State, runs: nat)
    requires Reachable(s, runs) && s.childCtx == None && s.wg == 0 && runs > 0
    ensures (exists more :: Legal(s, more, runs) && NoneInvoked(more) && Run(s, more, runs).running != []) <==>
      exists id :: Pending(s, id)
  {
    ReachableKeeps(s, runs);
    if id :| Pending(s, id) {
      var more := PendingStarts(s, id, runs);
      assert Legal(s, more, runs) && NoneInvoked(more);
    } else {
      forall more | Legal(s, more, runs) && NoneInvoked(more)
        ensures Run(s, more, runs).running == []
      {
        IdleForGood(s, more, runs);
      }
    }
  }

  /** The same once the lock is free: the parent context has to be live, and a start waiting for the lock. */
  lemma FinalOnceUnlocked(s: State, runs: nat)
    requires Reachable(s, runs) && s.lock == None && s.childCtx == None && runs > 0
    ensures (exists more :: Legal(s, more, runs) && NoneInvoked(more) && Run(s, more, runs).running != []) <==>
      !s.ctxDone && exists id :: id in s.threads && s.threads[id] == Thread(OnStartedLeading, AtLock)
  {
    ReachableKeeps(s, runs);
    EarlyReturnFinalExactlyWhen(s, runs);
    forall id | id in s.threads
      ensures Pending(s, id) <==> !s.ctxDone && s.threads[id] == Thread(OnStartedLeading, AtLock)
    {
      assert Placed(id, s.threads[id], s.lock);
    }
  }

  /** With the parent context done, as the comment in the source has it, an early return is final
      whatever callbacks follow, unless a start has passed its check already. */
  lemma FinalOnceDone(s: State, more: seq<Action>, runs: nat)
    requires Reachable(s, runs) && s.ctxDone && s.childCtx == None && s.wg == 0 && Legal(s, more, runs)
    requires forall id :: id in s.threads ==> !s.threads[id].pc.Checked?
    ensures Run(s, more, runs).running == []
  {
    ReachableKeeps(s, runs);
    forall id
      ensures !Pending(s, id)
    {
      if id in s.threads {
        assert Placed(id, s.threads[id], s.lock);
      }
    }
    IdleForGood(s, more, runs);
  }

  // ----- the lease can always be released -----

  /** A bound on the steps the thread in the lock still has to take. */
  function Steps(pc: Pc, runs: nat): nat {
    match pc
    case Holding => 3 * runs + 10
    case Checked => 3 * runs + 8
    case Spawning(left) => 3 * left + 6
    case Canceled => 5
    case Waiting => 4
    case AtUnlock => 3
    case _ => 0
  }

  function CancelerSteps(pc: Pc): nat {
    match pc
    case AwaitContext => 6
    case AtLock => 5
    case Holding => 4
    case Waiting => 3
    case AtUnlock => 2
    case AtLeaderCancel => 1
    case _ => 0
  }

  function StepsLeft(s: State, runs: nat): nat
    requires Exclusive(s.lock, s.threads)
  {
    2 * s.spawned + |s.running| + CancelerSteps(s.threads[CANCELER].pc) +
    if s.lock == Some(CANCELER) then 0 else Steps(HolderPc(s.lock, s.threads), runs)
  }

  /** Let the children finish if they are waited for, else let the lock holder or the cancel goroutine go on. */
  function Helpful(s: State): Action
    requires Exclusive(s.lock, s.threads)
  {
    if HolderPc(s.lock, s.threads).Waiting? && s.wg != 0 then if s.spawned > 0 then ChildStarts else ChildExits(0)
    else if s.lock.Some? then Step(s.lock.value)
    else Step(CANCELER)
  }

  lemma HelpfulIsEnabled(s: State)
    requires Inv(s) && s.ctxDone && !s.released
    ensures Enabled(s, Helpful(s))
  {
  }

  lemma CancelerGoesOn(s: State, runs: nat)
    requires Inv(s) && Enabled(s, Step(CANCELER)) && s.lock in {None, Some(CANCELER)}
    requires Inv(ThreadStep(s, CANCELER, runs))
    ensures StepsLeft(ThreadStep(s, CANCELER, runs), runs) < StepsLeft(s, runs)
  {
  }

  /** The holder of the lock gets closer to leaving it, whatever it spawns on the way. */
  lemma StepsShrink(s: State, id: nat, runs: nat)
    requires Enabled(s, Step(id)) && Critical(s.threads[id].pc)
    ensures var t := ThreadStep(s, id, runs);
      && id in t.threads && t.spawned >= s.spawned
      && Steps(t.threads[id].pc, runs) + 2 * (t.spawned - s.spawned) < Steps(s.threads[id].pc, runs)
  {
  }

  lemma StepTouches(s: State, id: nat, runs: nat)
    requires Enabled(s, Step(id)) && Critical(s.threads[id].pc) && s.lock == Some(id)
    ensures var t := ThreadStep(s, id, runs);
      && t.threads == s.threads[id := s.threads[id].(pc := t.threads[id].pc)]
      && t.running == s.running && (t.lock == None || t.lock == Some(id))
  {
  }

  lemma HolderGoesOn(s: State, id: nat, runs: nat)
    requires Exclusive(s.lock, s.threads) && Enabled(s, Step(id)) && s.lock == Some(id) && id != CANCELER
    requires var t := ThreadStep(s, id, runs); Exclusive(t.lock, t.threads)
    ensures StepsLeft(ThreadStep(s, id, runs), runs) < StepsLeft(s, runs)
  {
    assert Placed(id, s.threads[id], s.lock);
    StepsShrink(s, id, runs);
    StepTouches(s, id, runs);
    assert ThreadStep(s, id, runs).threads[CANCELER] == s.threads[CANCELER];
  }

  lemma HelpfulHelps(s: State, runs: nat)
    requires Inv(s) && s.ctxDone && !s.released && Enabled(s, Helpful(s))
    ensures var t := Next(s, Helpful(s), runs); Inv(t) && t.ctxDone && StepsLeft(t, runs) < StepsLeft(s, runs)
  {
    NextKeeps(s, Helpful(s), runs);
    if Helpful(s) == Step(CANCELER) {
      CancelerGoesOn(s, runs);
    } else if Helpful(s).Step? {
      HolderGoesOn(s, s.lock.value, runs);
    }
  }

  /** From every reachable state in which the parent context is done, the lease can still be released:
      no interleaving deadlocks the handshake. */
  lemma {:induction false} CanAlwaysRelease(s: State, runs: nat) returns (more: seq<Action>)
    requires Inv(s) && s.ctxDone
    ensures Legal(s, more, runs) && Run(s, more, runs).released
    decreases StepsLeft(s, runs)
  {
    if s.released {
      more := [];
    } else {
      HelpfulIsEnabled(s);
      HelpfulHelps(s, runs);
      var rest := CanAlwaysRelease(Next(s, Helpful(s), runs), runs);
      more := [Helpful(s)] + rest;
      assert more[1..] == rest;
    }
  }

  // ----- what it does not -----

  lemma {:induction false} LegalOneMore(s: State, actions: seq<Action>, a: Action, runs: nat)
    requires Legal(s, actions, runs) && Enabled(Run(s, actions, runs), a)
    ensures Legal(s, actions + [a], runs) && Run(s, actions + [a], runs) == Next(Run(s, actions, runs), a, runs)
    decreases |actions|
  {
    if actions == [] {
      assert [a][1..] == [];
    } else {
      LegalOneMore(Next(s, actions[0], runs), actions[1..], a, runs);
      assert (actions + [a])[1..] == actions[1..] + [a];
    }
  }

  lemma ReachNext(s: State, a: Action, runs: nat) returns (t: State)
    requires Reachable(s, runs) && Enabled(s, a)
    ensures t == Next(s, a, runs) && Reachable(t, runs)
  {
    var actions :| Legal(Start(), actions, runs) && Run(Start(), actions, runs) == s;
    LegalOneMore(Start(), actions, a, runs);
    t := Next(s, a, runs);
  }

  lemma StartIsReachable(runs: nat)
    ensures Reachable(Start(), runs)
  {
    assert Legal(Start(), [], runs) && Run(Start(), [], runs) == Start();
  }

  /** OnStoppedLeading has come and gone before OnStartedLeading got the lock. */
  lemma StoppedBeforeStart() returns (s: State)
    ensures Reachable(s, 1)
    ensures s == State(false, false, None, None, 0, {}, 0, 0, [],
                       map[CANCELER := Thread(CancelGoroutine, AwaitContext), 1 := Thread(OnStartedLeading, AtLock),
                           2 := Thread(OnStoppedLeading, Finished)])
  {
    StartIsReachable(1);
    s := ReachNext(Start(), Invoke(1, OnStartedLeading), 1);
    s := ReachNext(s, Invoke(2, OnStoppedLeading), 1);
    s := ReachNext(s, Step(2), 1);
    s := ReachNext(s, Step(2), 1);
    s := ReachNext(s, Step(2), 1);
  }

  /** OnStoppedLeading may find no child context although the parent context is not canceled, and a
      child may run after it returned: OnStartedLeading just had not got the lock yet. */
  lemma EarlyReturnProvesNothing() returns (s: State)
    ensures Reachable(s, 1) && !s.ctxDone
    ensures 2 in s.threads && s.threads[2] == Thread(OnStoppedLeading, Finished) && s.canceled == {} && s.running == [Some(0)]
  {
    s := StoppedBeforeStart();
    s := ReachNext(s, Step(1), 1);
    s := ReachNext(s, Step(1), 1);
    s := ReachNext(s, Step(1), 1);
    s := ReachNext(s, Step(1), 1);
    s := ReachNext(s, ChildStarts, 1);
  }

  /** OnStartedLeading is invoked, gets the lock at once and sees a live parent context. */
  lemma StartChecks(s0: State, id: nat) returns (s: State)
    requires Reachable(s0, 1) && !s0.ctxDone && s0.lock == None && id !in s0.threads
    ensures Reachable(s, 1) && s == s0.(lock := Some(id), threads := s0.threads[id := Thread(OnStartedLeading, Checked)])
  {
    s := ReachNext(s0, Invoke(id, OnStartedLeading), 1);
    s := ReachNext(s, Step(id), 1);
    s := ReachNext(s, Step(id), 1);
  }

  /** It starts the one child and returns. */
  lemma StartSpawns(s0: State, id: nat) returns (s: State)
    requires Reachable(s0, 1) && s0.lock == Some(id) && id in s0.threads && s0.threads[id] == Thread(OnStartedLeading, Checked)
    ensures Reachable(s, 1)
    ensures s == s0.(lock := None, childCtx := Some(s0.starts), starts := s0.starts + 1, wg := s0.wg + 1,
                     spawned := s0.spawned + 1, threads := s0.threads[id := Thread(OnStartedLeading, Finished)])
  {
    s := ReachNext(s0, Step(id), 1);
    s := ReachNext(s, Step(id), 1);
    s := ReachNext(s, Step(id), 1);
    s := ReachNext(s, Step(id), 1);
  }

  /** Right after the first OnStartedLeading returned, with the child still to be scheduled. */
  lemma OneChildSpawned() returns (s: State)
    ensures Reachable(s, 1)
    ensures s == State(false, false, None, Some(0), 1, {}, 1, 1, [],
                       map[CANCELER := Thread(CancelGoroutine, AwaitContext), 1 := Thread(OnStartedLeading, Finished)])
  {
    StartIsReachable(1);
    s := StartChecks(Start(), 1);
    s := StartSpawns(s, 1);
  }

  /** A goroutine that is slow to start can find the child context cleared already, and run without one,
      while OnStoppedLeading waits for it. */
  lemma LateChildGetsNoContext() returns (s: State)
    ensures Reachable(s, 1) && s.running == [None]
    ensures 2 in s.threads && s.threads[2] == Thread(OnStoppedLeading, Waiting)
  {
    s := OneChildSpawned();
    s := ReachNext(s, Invoke(2, OnStoppedLeading), 1);
    s := ReachNext(s, Step(2), 1);
    s := ReachNext(s, Step(2), 1);
    s := ReachNext(s, Step(2), 1);
    s := ReachNext(s, ChildStarts, 1);
  }

  /** Two starts in a row, which one run of client-go's elector never makes: OnStoppedLeading waits for a
      child of the first, which nobody asked to stop. */
  lemma FirstStartIsForgotten() returns (s: State)
    ensures Reachable(s, 1) && !s.ctxDone && s.starts == 2 && s.running == [Some(0)] && !Told(s, s.running[0])
    ensures 3 in s.threads && s.threads[3] == Thread(OnStoppedLeading, Waiting)
  {
    s := OneChildSpawned();
    s := ReachNext(s, ChildStarts, 1);
    s := StartChecks(s, 2);
    s := StartSpawns(s, 2);
    s := StopAfterTwoStarts(s);
  }

  lemma StopAfterTwoStarts(s0: State) returns (s: State)
    requires Reachable(s0, 1) && !s0.ctxDone && s0.lock == None && s0.childCtx == Some(1) && s0.starts == 2
    requires s0.canceled == {} && s0.running == [Some(0)] && 3 !in s0.threads
    ensures Reachable(s, 1) && !s.ctxDone && s.starts == 2 && s.canceled == {1} && s.running == [Some(0)]
    ensures 3 in s.threads && s.threads[3] == Thread(OnStoppedLeading, Waiting)
  {
    s := ReachNext(s0, Invoke(3, OnStoppedLeading), 1);
    s := ReachNext(s, Step(3), 1);
    s := ReachNext(s, Step(3), 1);
    s := ReachNext(s, Step(3), 1);
  }
}
