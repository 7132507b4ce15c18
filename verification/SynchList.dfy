/** threads/synchlist.cc over threads/synch.cc: a monitor with Mesa-style condition variables.
    Lock is a semaphore with value 1; Condition keeps one private semaphore per waiting thread. A step is a
    stretch of one thread's code inside which the source cannot be preempted, or less. */
module SynchLists {
  import opened Sequences
  import opened Semaphores
  import Locks

  type SemId = int

  /** What the lock is being acquired for. */
  datatype Purpose<T> = ForAppend(item: T) | ForRemove | Reacquire(sem: SemId)

  /** What follows the release of the lock. */
  datatype Next = Return | ThenWait(sem: SemId)

  datatype PC<T> =
    | Idle
    | Acquire(why: Purpose<T>)   // about to test the lock's semaphore
    | Queued(why: Purpose<T>)    // asleep in the lock's queue
    | Entered(why: Purpose<T>)   // past the lock's semaphore, lockHolder not set yet
    | Appending(item: T)   // Append: about to put the item on the list
    | Signalling              // Append: about to look at the condition's queue
    | Posting(sem: SemId)     // Signal: a waiter was taken off the queue, its V is to come
    | Posted(sem: SemId)      // Signal: the value is incremented and interrupts are on again, V has not returned
    | Checking(again: bool)   // RemoveFront: about to test for an empty list, again after a Wait
    | Taking(again: bool)     // RemoveFront: the list was not empty
    | Leaving(next: Next)     // about to call Release
    | Releasing(next: Next)   // lockHolder is NULL, the V on the lock's semaphore is to come
    | Waiting(sem: SemId)     // Wait: about to test the private semaphore
    | Sleeping(sem: SemId)    // Wait: asleep on the private semaphore

  datatype Waiter = Waiter(thread: Tid, value: nat)

  /** `owner` is the thread that passed the lock's semaphore last and has not posted it yet; `posts` counts the
      V operations on every private semaphore ever made; `appended` and `removed` are the items in order. */
  datatype State<T> = State(
    lock: Semaphore, holder: Option<Tid>, owner: Option<Tid>, pcs: map<Tid, PC<T>>,
    sems: map<SemId, Waiter>, posts: seq<nat>, waitQueue: seq<SemId>,
    list: seq<T>, appended: seq<T>, removed: seq<T>)
  {
    function At(t: Tid): (pc: PC<T>) {
      if t in pcs then pcs[t] else Idle
    }

    function Goto(t: Tid, pc: PC<T>): (s: State<T>)
      ensures s.At(t) == pc && forall u :: u != t ==> s.At(u) == At(u)
    {
      this.(pcs := pcs[t := pc])
    }
  }

  datatype Choice<T> = StartAppend(item: T) | StartRemove | Continue

  function Init<T>(): (s: State<T>) {
    State(Semaphore(1, []), None, None, map[], map[], [], [], [], [], [])
  }

  // ---------------------------------------------------------------- steps

  function Begin<T>(s: State<T>, t: Tid, c: Choice<T>): (s': State<T>) {
    match c
    case StartAppend(x) => s.Goto(t, Acquire(ForAppend(x)))
    case StartRemove => s.Goto(t, Acquire(ForRemove))
    case Continue => s
  }

  /** One pass through the loop of the lock's P. */
  function TakeLock<T>(s: State<T>, t: Tid, why: Purpose<T>): (s': State<T>) {
    var (lock, passed) := TryP(s.lock, t);
    if passed then s.(lock := lock, owner := Some(t)).Goto(t, Entered(why))
    else s.(lock := lock).Goto(t, Queued(why))
  }

  /** The end of Acquire; for a waiter also the end of Wait, which deletes its semaphore. */
  function Enter<T>(s: State<T>, t: Tid, why: Purpose<T>): (s': State<T>) {
    var s1 := s.(holder := Some(t));
    match why
    case ForAppend(x) => s1.Goto(t, Appending(x))
    case ForRemove => s1.Goto(t, Checking(false))
    case Reacquire(m) => s1.(sems := s.sems - {m}).Goto(t, Checking(true))
  }

  function PutItem<T>(s: State<T>, t: Tid, x: T): (s': State<T>) {
    s.(list := s.list + [x], appended := s.appended + [x]).Goto(t, Signalling)
  }

  function Signal<T>(s: State<T>, t: Tid): (s': State<T>) {
    if s.waitQueue == [] then s.Goto(t, Leaving(Return))
    else s.(waitQueue := s.waitQueue[1..]).Goto(t, Posting(s.waitQueue[0]))
  }

  /** V on a private semaphore, on which only its own thread can be asleep. From here on the waiter can run. */
  function Post<T>(s: State<T>, t: Tid, m: SemId): (s': State<T>) {
    if m !in s.sems || !(0 <= m < |s.posts|) then s else
    var w := s.sems[m];
    var s1 := s.(sems := s.sems[m := w.(value := w.value + 1)], posts := s.posts[m := s.posts[m] + 1]);
    var s2 := if s.At(w.thread) == Sleeping(m) then s1.Goto(w.thread, Waiting(m)) else s1;
    s2.Goto(t, Posted(m))
  }

  /** The test of RemoveFront's loop, and the first half of Wait. */
  function Check<T>(s: State<T>, t: Tid, again: bool): (s': State<T>) {
    if s.list != [] then s.Goto(t, Taking(again)) else
    var m := |s.posts|;
    s.(sems := s.sems[m := Waiter(t, 0)], posts := s.posts + [0], waitQueue := s.waitQueue + [m])
     .Goto(t, Leaving(ThenWait(m)))
  }

  function TakeItem<T>(s: State<T>, t: Tid): (s': State<T>) {
    if s.list == [] then s
    else s.(list := s.list[1..], removed := s.removed + [s.list[0]]).Goto(t, Leaving(Return))
  }

  function ReleaseLock<T>(s: State<T>, t: Tid, next: Next): (s': State<T>) {
    var (lock, front) := V(s.lock);
    var s1 := s.(lock := lock, owner := None);
    var s2 := if front.Some? && s.At(front.value).Queued?
      then s1.Goto(front.value, Acquire(s.At(front.value).why)) else s1;
    s2.Goto(t, if next.Return? then Idle else Waiting(next.sem))
  }

  /** One pass through the loop of the private semaphore's P. */
  function Await<T>(s: State<T>, t: Tid, m: SemId): (s': State<T>) {
    if m !in s.sems then s
    else if s.sems[m].value == 0 then s.Goto(t, Sleeping(m))
    else s.(sems := s.sems[m := s.sems[m].(value := s.sems[m].value - 1)]).Goto(t, Acquire(Reacquire(m)))
  }

  /** Thread `t` runs for one step; a thread that is asleep or has nothing to do stays put. */
  function Step<T>(s: State<T>, t: Tid, c: Choice<T>): (s': State<T>) {
    match s.At(t)
    case Idle => Begin(s, t, c)
    case Acquire(why) => TakeLock(s, t, why)
    case Queued(_) => s
    case Entered(why) => Enter(s, t, why)
    case Appending(x) => PutItem(s, t, x)
    case Signalling => Signal(s, t)
    case Posting(m) => Post(s, t, m)
    case Posted(_) => s.Goto(t, Leaving(Return))
    case Checking(again) => Check(s, t, again)
    case Taking(_) => TakeItem(s, t)
    case Leaving(next) => s.(holder := None).Goto(t, Releasing(next))
    case Releasing(next) => ReleaseLock(s, t, next)
    case Waiting(m) => Await(s, t, m)
    case Sleeping(_) => s
  }

  function Run<T>(schedule: seq<(Tid, Choice<T>)>): (s: State<T>) {
    if schedule == [] then Init()
    else
      var (t, c) := schedule[|schedule| - 1];
      Step(Run(schedule[..|schedule| - 1]), t, c)
  }

  /** What a step can do to the other threads: wake them. */
  ghost predicate OnlyWoken<T>(pc: PC<T>, pc': PC<T>) {
    pc' == pc || (pc.Queued? && pc' == Acquire(pc.why)) || (pc.Sleeping? && pc' == Waiting(pc.sem))
  }

  lemma PostWakes<T(!new)>(s: State<T>, t: Tid, m: SemId, u: Tid)
    requires u != t
    ensures OnlyWoken(s.At(u), Post(s, t, m).At(u))
  {
  }

  lemma ReleaseWakes<T(!new)>(s: State<T>, t: Tid, next: Next, u: Tid)
    requires u != t
    ensures OnlyWoken(s.At(u), ReleaseLock(s, t, next).At(u))
  {
  }

  lemma OthersStay<T(!new)>(s: State<T>, t: Tid, c: Choice<T>, u: Tid)
    requires u != t
    ensures OnlyWoken(s.At(u), Step(s, t, c).At(u))
  {
    hide Post, ReleaseLock;
    match s.At(t)
    case Posting(m) => PostWakes(s, t, m, u);
    case Releasing(next) => ReleaseWakes(s, t, next, u);
    case _ => assert Step(s, t, c).At(u) == s.At(u);
  }

  // ---------------------------------------------------------------- the lock

  function RoleOf<T>(pc: PC<T>): (r: Locks.Role) {
    match pc
    case Idle => Locks.Outside
    case Acquire(_) => Locks.Wanting
    case Queued(_) => Locks.Queued
    case Entered(_) => Locks.Entered
    case Releasing(_) => Locks.Releasing
    case Waiting(_) => Locks.Outside
    case Sleeping(_) => Locks.Outside
    case _ => Locks.Inside
  }

  /** Between passing the lock's semaphore and posting it. */
  predicate Critical<T>(pc: PC<T>) {
    Locks.Critical(RoleOf(pc))
  }

  /** Where the source asserts that the current thread holds the lock. */
  predicate Holding<T>(pc: PC<T>) {
    RoleOf(pc).Inside?
  }

  /** The lock without the list and the condition. */
  function LockOf<T>(s: State<T>): (l: Locks.Lock)
    ensures l.sem == s.lock && l.holder == s.holder && l.owner == s.owner && forall t :: l.At(t) == RoleOf(s.At(t))
  {
    Locks.Lock(s.lock, s.holder, s.owner, map t | t in s.pcs :: RoleOf(s.pcs[t]))
  }

  ghost predicate LockInv<T>(s: State<T>) {
    Locks.Inv(LockOf(s))
  }

  lemma GotoLock<T>(s: State<T>, t: Tid, pc: PC<T>)
    ensures LockOf(s.Goto(t, pc)) == LockOf(s).Goto(t, RoleOf(pc))
    ensures RoleOf(pc) == RoleOf(s.At(t)) && t in s.pcs ==> LockOf(s.Goto(t, pc)) == LockOf(s)
  {
  }

  lemma ReleaseLocks<T>(s: State<T>, t: Tid, next: Next)
    ensures LockOf(ReleaseLock(s, t, next)) == Locks.Post(LockOf(s), t)
  {
    var (lock, front) := V(s.lock);
    var s1, pc := s.(lock := lock, owner := None), if next.Return? then Idle else Waiting(next.sem);
    if front.Some? && s.At(front.value).Queued? {
      var woken := Acquire(s.At(front.value).why);
      GotoLock(s1, front.value, woken);
      GotoLock(s1.Goto(front.value, woken), t, pc);
    } else {
      GotoLock(s1, t, pc);
    }
  }

  lemma TakeLocks<T>(s: State<T>, t: Tid, why: Purpose<T>)
    ensures LockOf(TakeLock(s, t, why)) == Locks.Take(LockOf(s), t)
  {
    var (lock, passed) := TryP(s.lock, t);
    GotoLock(s.(lock := lock), t, Queued(why));
    GotoLock(s.(lock := lock, owner := Some(t)), t, Entered(why));
  }

  lemma PostLocks<T>(s: State<T>, t: Tid, m: SemId)
    requires s.At(t).Posting?
    ensures LockOf(Post(s, t, m)) == LockOf(s)
  {
  }

  lemma WaitLocks<T>(s: State<T>, t: Tid, m: SemId)
    requires s.At(t).Waiting?
    ensures LockOf(Await(s, t, m)) == Locks.Step(LockOf(s), t) || LockOf(Await(s, t, m)) == LockOf(s)
  {
  }

  lemma SameRoleSameLock<T>(s: State<T>, s': State<T>, t: Tid)
    requires t in s.pcs && t in s'.pcs && s'.pcs == s.pcs[t := s'.pcs[t]] && RoleOf(s'.pcs[t]) == RoleOf(s.pcs[t])
    requires s'.lock == s.lock && s'.holder == s.holder && s'.owner == s.owner
    ensures LockOf(s') == LockOf(s)
  {
  }

  /** Inside the monitor only Leaving moves in the lock protocol. */
  lemma InsideLocks<T>(s: State<T>, t: Tid, c: Choice<T>)
    requires Holding(s.At(t)) && !s.At(t).Posting? && !s.At(t).Leaving?
    ensures LockOf(Step(s, t, c)) == LockOf(s)
  {
    hide LockOf, Begin, TakeLock, Enter, Post, ReleaseLock, Await;
    SameRoleSameLock(s, Step(s, t, c), t);
  }

  lemma EdgeLocks<T>(s: State<T>, t: Tid, c: Choice<T>)
    requires s.At(t).Idle? || s.At(t).Entered? || s.At(t).Leaving?
    ensures LockOf(Step(s, t, c)) == Locks.Step(LockOf(s), t) || LockOf(Step(s, t, c)) == LockOf(s)
  {
    hide TakeLock, PutItem, Signal, Post, Check, TakeItem, ReleaseLock, Await, Locks.Take, Locks.Post;
    GotoLock(s.(holder := Some(t)), t, Step(s, t, c).At(t));
    GotoLock(s.(holder := None), t, Step(s, t, c).At(t));
  }

  /** As far as the lock is concerned, every step of a thread is a step of the lock protocol or none at all. */
  lemma StepLocks<T>(s: State<T>, t: Tid, c: Choice<T>)
    ensures LockOf(Step(s, t, c)) == Locks.Step(LockOf(s), t) || LockOf(Step(s, t, c)) == LockOf(s)
  {
    hide LockOf, TakeLock, ReleaseLock, Await, Post, PutItem, Signal, Check, TakeItem, Enter, Begin;
    hide Locks.Take, Locks.Post;
    match s.At(t)
    case Acquire(why) => TakeLocks(s, t, why);
    case Queued(_) =>
    case Posting(m) => PostLocks(s, t, m);
    case Releasing(next) => ReleaseLocks(s, t, next);
    case Waiting(m) => WaitLocks(s, t, m);
    case Sleeping(_) =>
    case Idle => EdgeLocks(s, t, c);
    case Entered(_) => EdgeLocks(s, t, c);
    case Leaving(_) => EdgeLocks(s, t, c);
    case _ => InsideLocks(s, t, c);
  }

  lemma StepLock<T>(s: State<T>, t: Tid, c: Choice<T>)
    requires LockInv(s)
    ensures LockInv(Step(s, t, c))
  {
    hide Locks.Inv, Locks.Step, Step, LockOf;
    StepLocks(s, t, c);
    Locks.StepKeepsInv(LockOf(s), t);
  }

  /** What the lock protocol says about the threads. */
  ghost predicate Exclusive<T>(s: State<T>) {
    && (s.lock.value > 0 ==> s.owner == None)
    && (forall t :: Critical(s.At(t)) <==> s.owner == Some(t))
    && (forall t :: Holding(s.At(t)) <==> s.holder == Some(t))
    && (forall t :: t in s.lock.queue <==> s.At(t).Queued?)
  }

  lemma LockExcludes<T>(s: State<T>)
    requires LockInv(s)
    ensures Exclusive(s)
  {
    hide Distinct;
    var l := LockOf(s);
    forall t
      ensures Critical(s.At(t)) <==> s.owner == Some(t)
      ensures Holding(s.At(t)) <==> s.holder == Some(t)
      ensures t in s.lock.queue <==> s.At(t).Queued?
    {
      assert (Locks.Critical(l.At(t)) <==> l.owner == Some(t)) && (l.At(t).Inside? <==> l.holder == Some(t));
      assert t in l.sem.queue <==> l.At(t).Queued?;
    }
  }

  // ---------------------------------------------------------------- the private semaphores

  /** The private semaphore a thread is using. */
  function SemOf<T>(pc: PC<T>): (m: Option<SemId>) {
    match pc
    case Acquire(Reacquire(m)) => Some(m)
    case Queued(Reacquire(m)) => Some(m)
    case Entered(Reacquire(m)) => Some(m)
    case Leaving(ThenWait(m)) => Some(m)
    case Releasing(ThenWait(m)) => Some(m)
    case Waiting(m) => Some(m)
    case Sleeping(m) => Some(m)
    case _ => None
  }

  /** Past its private semaphore, on the way back into the monitor. */
  predicate IsBack<T>(pc: PC<T>) {
    pc.Acquire? || pc.Queued? || pc.Entered?
  }

  /** The semaphore that has been taken off the condition's queue and not been posted yet. */
  function Pending<T>(s: State<T>): (m: Option<SemId>) {
    if s.owner.Some? && s.At(s.owner.value).Posting? then Some(s.At(s.owner.value).sem) else None
  }

  /** The three stages of a private semaphore: on the queue, taken off it, posted once. */
  predicate StageOk<T>(s: State<T>, m: SemId)
    requires m in s.sems && 0 <= m < |s.posts|
  {
    var pc := s.At(s.sems[m].thread);
    if m in s.waitQueue then Pending(s) != Some(m) && s.sems[m].value == 0 == s.posts[m] && !IsBack(pc)
    else if Pending(s) == Some(m) then s.sems[m].value == 0 == s.posts[m] && (pc.Waiting? || pc.Sleeping?)
    else s.posts[m] == 1 && ((s.sems[m].value == 1 && pc.Waiting?) || (s.sems[m].value == 0 && IsBack(pc)))
  }

  /** A thread's private semaphore exists and is its own. */
  predicate UseOk<T>(s: State<T>, t: Tid) {
    var m := SemOf(s.At(t));
    m.Some? ==> m.value in s.sems && s.sems[m.value].thread == t
  }

  ghost predicate SemInv<T(!new)>(s: State<T>) {
    && (forall m :: m in s.sems ==> 0 <= m < |s.posts| && SemOf(s.At(s.sems[m].thread)) == Some(m))
    && (forall t :: UseOk(s, t))
    && Distinct(s.waitQueue)
    && (forall m :: m in s.waitQueue ==> m in s.sems)
    && (Pending(s).Some? ==> Pending(s).value in s.sems)
    && (forall m :: m in s.sems ==> StageOk(s, m))
    && (forall m :: 0 <= m < |s.posts| && m !in s.sems ==> s.posts[m] == 1)
  }

  /** What a step must leave alone to leave the private semaphores alone. */
  ghost predicate SemQuiet<T(!new)>(s: State<T>, s': State<T>) {
    && s'.sems == s.sems && s'.posts == s.posts && s'.waitQueue == s.waitQueue && Pending(s') == Pending(s)
    && (forall u :: SemOf(s'.At(u)) == SemOf(s.At(u)))
    && (forall u :: SemOf(s.At(u)).Some? ==>
          && IsBack(s'.At(u)) == IsBack(s.At(u))
          && (s.At(u).Waiting? ==> s'.At(u).Waiting?)
          && (s.At(u).Sleeping? ==> s'.At(u).Sleeping?))
  }

  lemma QuietKeepsSems<T(!new)>(s: State<T>, s': State<T>)
    requires SemInv(s) && SemQuiet(s, s')
    ensures SemInv(s')
  {
    hide Distinct, SemOf, IsBack, Pending;
    forall u
      ensures UseOk(s', u)
    {
      assert UseOk(s, u);
    }
    forall m | m in s'.sems
      ensures StageOk(s', m)
    {
      assert StageOk(s, m);
    }
  }

  lemma QuietSteps<T(!new)>(s: State<T>, t: Tid, c: Choice<T>)
    requires Exclusive(s)
    requires match s.At(t) case Entered(_) | Signalling | Posting(_) | Checking(_) | Waiting(_) => false case _ => true
    ensures SemQuiet(s, Step(s, t, c))
  {
    hide Exclusive, SemQuiet, ReleaseLock, TakeLock;
    match s.At(t)
    case Releasing(_) => ReleaseQuiet(s, t);
    case Acquire(_) => TakeLockQuiet(s, t);
    case _ => OtherQuiet(s, t, c);
  }

  lemma ReleaseQuiet<T(!new)>(s: State<T>, t: Tid)
    requires Exclusive(s) && s.At(t).Releasing?
    ensures SemQuiet(s, ReleaseLock(s, t, s.At(t).next))
  {
    hide Holding;
    var s' := ReleaseLock(s, t, s.At(t).next);
    if s.lock.queue != [] {
      assert s.lock.queue[0] in s.lock.queue;
    }
    assert Pending(s) == None && Pending(s') == None;
  }

  lemma TakeLockQuiet<T(!new)>(s: State<T>, t: Tid)
    requires Exclusive(s) && s.At(t).Acquire?
    ensures SemQuiet(s, TakeLock(s, t, s.At(t).why))
  {
    hide Holding;
    var s' := TakeLock(s, t, s.At(t).why);
    assert forall u :: u != t ==> s'.At(u) == s.At(u);
    assert Pending(s') == Pending(s);
  }

  lemma OtherQuiet<T(!new)>(s: State<T>, t: Tid, c: Choice<T>)
    requires Exclusive(s)
    requires match s.At(t)
      case Idle | Queued(_) | Appending(_) | Posted(_) | Taking(_) | Leaving(_) | Sleeping(_) => true
      case _ => false
    ensures SemQuiet(s, Step(s, t, c))
  {
    hide Holding;
    var s' := Step(s, t, c);
    assert forall u :: u != t ==> s'.At(u) == s.At(u);
    assert SemOf(s'.At(t)) == SemOf(s.At(t));
  }

  lemma CriticalIsOwner<T(!new)>(s: State<T>, t: Tid)
    requires Exclusive(s)
    ensures Critical(s.At(t)) <==> s.owner == Some(t)
  {
  }

  lemma EnterKeepsSems<T(!new)>(s: State<T>, t: Tid)
    requires s.owner == Some(t) && SemInv(s) && s.At(t).Entered?
    ensures SemInv(Enter(s, t, s.At(t).why))
  {
    hide Distinct;
    var s' := Enter(s, t, s.At(t).why);
    assert UseOk(s, t);
    assert s.owner == Some(t) && Pending(s) == None && Pending(s') == None;
    if s.At(t).why.Reacquire? {
      assert StageOk(s, s.At(t).why.sem);
    }
    forall u
      ensures UseOk(s', u)
    {
      assert UseOk(s, u);
    }
    forall m | m in s'.sems
      ensures StageOk(s', m)
    {
      assert StageOk(s, m);
    }
  }

  lemma SignalKeepsSems<T(!new)>(s: State<T>, t: Tid)
    requires Exclusive(s) && SemInv(s) && s.At(t).Signalling?
    ensures SemInv(Signal(s, t))
  {
    var s' := Signal(s, t);
    assert s.owner == Some(t) && Pending(s) == None;
    if s.waitQueue != [] {
      assert s.waitQueue[0] in s.waitQueue;
      DistinctTail(s.waitQueue);
      assert Pending(s') == Some(s.waitQueue[0]);
    }
    forall u
      ensures UseOk(s', u)
    {
      assert UseOk(s, u);
    }
    forall m | m in s'.sems
      ensures StageOk(s', m)
    {
      assert StageOk(s, m);
    }
  }

  lemma PostKeepsUses<T(!new)>(s: State<T>, t: Tid)
    requires SemInv(s) && s.At(t).Posting?
    ensures forall u :: UseOk(Post(s, t, s.At(t).sem), u)
  {
    hide Distinct, IsBack, StageOk, Pending;
    var s' := Post(s, t, s.At(t).sem);
    forall u
      ensures UseOk(s', u)
    {
      assert UseOk(s, u);
    }
  }

  lemma PostKeepsStages<T(!new)>(s: State<T>, t: Tid, k: SemId)
    requires s.owner == Some(t) && SemInv(s) && s.At(t).Posting? && k in s.sems
    ensures StageOk(Post(s, t, s.At(t).sem), k)
  {
    hide Distinct, UseOk;
    var m := s.At(t).sem;
    assert Pending(s) == Some(m) && Pending(Post(s, t, m)) == None;
    assert StageOk(s, m) && StageOk(s, k);
  }

  lemma PostKeepsSems<T(!new)>(s: State<T>, t: Tid)
    requires s.owner == Some(t) && SemInv(s) && s.At(t).Posting?
    ensures SemInv(Post(s, t, s.At(t).sem))
  {
    hide Distinct, UseOk;
    var s' := Post(s, t, s.At(t).sem);
    assert Pending(s) == Some(s.At(t).sem) && Pending(s') == None;
    assert StageOk(s, s.At(t).sem);
    hide StageOk, IsBack, Pending;
    PostKeepsUses(s, t);
    forall k | k in s'.sems
      ensures StageOk(s', k)
    {
      PostKeepsStages(s, t, k);
    }
  }

  lemma CheckKeepsUses<T(!new)>(s: State<T>, t: Tid)
    requires SemInv(s) && s.At(t).Checking?
    ensures forall u :: UseOk(Check(s, t, s.At(t).again), u)
  {
    hide Distinct, IsBack, StageOk, Pending;
    var s' := Check(s, t, s.At(t).again);
    assert |s.posts| !in s.sems;
    forall u
      ensures UseOk(s', u)
    {
      assert UseOk(s, u);
    }
  }

  lemma CheckKeepsStages<T(!new)>(s: State<T>, t: Tid, k: SemId)
    requires s.owner == Some(t) && SemInv(s) && s.At(t).Checking? && k in s.sems
    ensures StageOk(Check(s, t, s.At(t).again), k)
  {
    hide Distinct, UseOk;
    var s' := Check(s, t, s.At(t).again);
    assert Pending(s) == None && Pending(s') == None;
    assert k != |s.posts| && StageOk(s, k);
  }

  lemma CheckKeepsSems<T(!new)>(s: State<T>, t: Tid)
    requires s.owner == Some(t) && SemInv(s) && s.At(t).Checking?
    ensures SemInv(Check(s, t, s.At(t).again))
  {
    hide IsBack, UseOk;
    var s' := Check(s, t, s.At(t).again);
    assert Pending(s') == None;
    var m := |s.posts|;
    assert m !in s.sems && m !in s.waitQueue;
    CheckKeepsUses(s, t);
    forall k | k in s'.sems
      ensures StageOk(s', k)
    {
      if k != m {
        CheckKeepsStages(s, t, k);
      } else {
        assert m in s'.waitQueue && !IsBack(s'.At(t)) by { assert s'.waitQueue[|s.waitQueue|] == m; NotBack(s'.At(t)); }
      }
    }
  }

  lemma NotBack<T(!new)>(pc: PC<T>)
    ensures IsBack(pc) <==> pc.Acquire? || pc.Queued? || pc.Entered?
  {
  }

  lemma AwaitKeepsUses<T(!new)>(s: State<T>, t: Tid)
    requires SemInv(s) && s.At(t).Waiting?
    ensures forall u :: UseOk(Await(s, t, s.At(t).sem), u)
  {
    hide Distinct, IsBack, StageOk, Pending;
    var s' := Await(s, t, s.At(t).sem);
    forall u
      ensures UseOk(s', u)
    {
      assert UseOk(s, u);
    }
  }

  lemma AwaitKeepsSems<T(!new)>(s: State<T>, t: Tid)
    requires s.owner != Some(t) && SemInv(s) && s.At(t).Waiting?
    ensures SemInv(Await(s, t, s.At(t).sem))
  {
    hide Distinct;
    var s' := Await(s, t, s.At(t).sem);
    assert UseOk(s, t);
    AwaitKeepsUses(s, t);
    hide UseOk;
    assert Pending(s') == Pending(s);
    hide Pending;
    assert StageOk(s, s.At(t).sem);
    forall k | k in s'.sems
      ensures StageOk(s', k)
    {
      assert StageOk(s, k);
    }
  }

  lemma StepSems<T(!new)>(s: State<T>, t: Tid, c: Choice<T>)
    requires LockInv(s) && SemInv(s)
    ensures SemInv(Step(s, t, c))
  {
    LockExcludes(s);
    hide LockInv, Exclusive, SemInv, SemQuiet, Enter, Signal, Post, Check, Await;
    CriticalIsOwner(s, t);
    match s.At(t)
    case Entered(_) => EnterKeepsSems(s, t);
    case Signalling => SignalKeepsSems(s, t);
    case Posting(_) => PostKeepsSems(s, t);
    case Checking(_) => CheckKeepsSems(s, t);
    case Waiting(_) => AwaitKeepsSems(s, t);
    case _ =>
      QuietSteps(s, t, c);
      QuietKeepsSems(s, Step(s, t, c));
  }
}
