/** The wake-up protocol between the methods that change an ipController and its run loop: a mutex, and a
    channel with room for one token. Every interleaving, with the loop stopped and started at any time. */
module Wakeups {
  import opened Options

  datatype Who = Loop | Mutator(id: nat)

  /** A mutator inside the lock owes a poke for the changes it has made. */
  datatype MutatorPc = AtLock | Holding(owesPoke: bool)

  datatype LoopPc = NotRunning | WantsLock | Reconciling | Resetting | Selecting | TookToken

  /** `changes` counts the changes made under the lock, `seen` those made when the last reconcile began. */
  datatype State = State(
    changes: nat,
    seen: nat,
    token: bool,
    ctxDone: bool,
    lock: Option<Who>,
    loop: LoopPc,
    mutators: map<nat, MutatorPc>)

  function Start(): State { State(0, 0, false, false, None, NotRunning, map[]) }

  datatype Action =
    | Call(id: nat)       // updateIPs, updateDNSSpec, EnableNodes or DisableNodes is called
    | Lock(id: nat)
    | Change(id: nat)
    | Poke(id: nat)
    | Unlock(id: nat)
    | LoopStep            // whatever the loop does next, other than in select
    | TakeToken
    | TimerFires
    | SeeDone
    | Stop
    | StartLoop

  predicate Held(s: State, id: nat) {
    id in s.mutators && s.mutators[id].Holding?
  }

  predicate Enabled(s: State, a: Action) {
    match a
    case Call(id) => id !in s.mutators
    case Lock(id) => id in s.mutators && s.mutators[id].AtLock? && s.lock == None
    case Change(id) => Held(s, id)
    case Poke(id) => Held(s, id)
    case Unlock(id) => Held(s, id) && !s.mutators[id].owesPoke
    case LoopStep => (match s.loop
      case WantsLock => s.lock == None
      case NotRunning => false
      case Selecting => false
      case _ => true)
    case TakeToken => s.loop.Selecting? && s.token
    case TimerFires => s.loop.Selecting?
    case SeeDone => s.loop.Selecting? && s.ctxDone
    case Stop => true
    case StartLoop => s.loop.NotRunning?
  }

  function Next(s: State, a: Action): State
    requires Enabled(s, a)
  {
    match a
    case Call(id) => s.(mutators := s.mutators[id := AtLock])
    case Lock(id) => s.(lock := Some(Mutator(id)), mutators := s.mutators[id := Holding(false)])
    case Change(id) => s.(changes := s.changes + 1, mutators := s.mutators[id := Holding(true)])
    case Poke(id) => s.(token := true, mutators := s.mutators[id := Holding(false)])
    case Unlock(id) => s.(lock := None, mutators := s.mutators - {id})
    case LoopStep => (match s.loop
      case WantsLock => s.(lock := Some(Loop), loop := Reconciling, seen := s.changes)
      case Reconciling => s.(lock := None, loop := Resetting)
      case Resetting => s.(loop := Selecting)
      case TookToken => s.(loop := WantsLock))
    case TakeToken => s.(token := false, loop := TookToken)
    case TimerFires => s.(loop := WantsLock)
    case SeeDone => s.(loop := NotRunning)
    case Stop => s.(ctxDone := true)
    case StartLoop => s.(ctxDone := false, loop := WantsLock)
  }

  ghost predicate Legal(s: State, actions: seq<Action>)
    decreases |actions|
  {
    actions == [] || (Enabled(s, actions[0]) && Legal(Next(s, actions[0]), actions[1..]))
  }

  function Run(s: State, actions: seq<Action>): State
    requires Legal(s, actions)
    decreases |actions|
  {
    if actions == [] then s else Run(Next(s, actions[0]), actions[1..])
  }

  // ----- the invariant -----

  predicate AboutToReconcile(loop: LoopPc) {
    loop.WantsLock? || loop.TookToken?
  }

  ghost predicate Exclusive(s: State) {
    && (s.lock == Some(Loop) <==> s.loop.Reconciling?)
    && (forall id :: id in s.mutators ==> (s.mutators[id].Holding? <==> s.lock == Some(Mutator(id))))
    && (s.lock.Some? && s.lock.value.Mutator? ==> s.lock.value.id in s.mutators)
  }

  predicate OwesPoke(s: State) {
    s.lock.Some? && s.lock.value.Mutator? && Held(s, s.lock.value.id) && s.mutators[s.lock.value.id].owesPoke
  }

  /** What every reachable state satisfies: an unseen change leaves a trace. */
  ghost predicate Inv(s: State) {
    && Exclusive(s)
    && s.seen <= s.changes
    && (s.loop.Reconciling? ==> s.seen == s.changes)
    && (s.seen < s.changes ==> s.token || AboutToReconcile(s.loop) || s.loop.NotRunning? || OwesPoke(s))
  }

  lemma NextKeeps(s: State, a: Action)
    requires Inv(s) && Enabled(s, a)
    ensures Inv(Next(s, a))
  {
  }

  lemma {:induction false} RunKeeps(s: State, actions: seq<Action>)
    requires Inv(s) && Legal(s, actions)
    ensures Inv(Run(s, actions))
    decreases |actions|
  {
    if actions != [] {
      NextKeeps(s, actions[0]);
      RunKeeps(Next(s, actions[0]), actions[1..]);
    }
  }

  /** No lost wake-up: after any run, if nobody is inside the lock and there are changes that the last
      reconcile did not see, then a token is waiting, or the loop is on its way to reconcile, or it is
      not running and will reconcile first when it is started. */
  lemma NoLostWakeup(actions: seq<Action>)
    requires Legal(Start(), actions)
    ensures var s := Run(Start(), actions);
      s.lock == None && s.seen < s.changes ==> s.token || AboutToReconcile(s.loop) || s.loop.NotRunning?
    ensures var s := Run(Start(), actions);
      s.loop.Selecting? && s.seen < s.changes && !OwesPoke(s) ==> Enabled(s, TakeToken)
  {
    RunKeeps(Start(), actions);
  }

  // ----- catching up -----

  function StepsLeft(s: State): nat {
    (if OwesPoke(s) then 2 else if s.lock.Some? && s.lock.value.Mutator? then 1 else 0) +
    match s.loop
    case Resetting => 4
    case Selecting => 3
    case TookToken => 2
    case WantsLock => 1
    case _ => 0
  }

  /** Let the mutator in the lock leave, then let the loop go on. */
  function Helpful(s: State): Action {
    if OwesPoke(s) then Poke(s.lock.value.id)
    else if s.lock.Some? && s.lock.value.Mutator? then Unlock(s.lock.value.id)
    else if s.loop.Selecting? then TakeToken
    else LoopStep
  }

  lemma HelpfulHelps(s: State)
    requires Inv(s) && !s.loop.NotRunning? && s.seen < s.changes
    ensures Enabled(s, Helpful(s)) && Inv(Next(s, Helpful(s)))
    ensures var t := Next(s, Helpful(s)); !t.loop.NotRunning? && t.changes == s.changes && StepsLeft(t) < StepsLeft(s)
  {
  }

  /** While the loop is running, the changes made so far can always be seen by a reconcile without the
      retry timer: no interleaving leaves the loop asleep with changes to see. */
  lemma {:induction false} CanAlwaysCatchUp(s: State) returns (more: seq<Action>)
    requires Inv(s) && !s.loop.NotRunning?
    ensures Legal(s, more) && TimerFires !in more
    ensures Run(s, more).seen == Run(s, more).changes == s.changes
    decreases StepsLeft(s)
  {
    if s.seen == s.changes {
      more := [];
    } else {
      HelpfulHelps(s);
      var rest := CanAlwaysCatchUp(Next(s, Helpful(s)));
      more := [Helpful(s)] + rest;
      assert more[1..] == rest;
    }
  }
}
