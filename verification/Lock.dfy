/** threads/synch.cc, Lock: a semaphore with initial value 1, and the thread that holds the lock. Between the two halves
    of Acquire and of Release a thread can be preempted. */
module Locks {
  import opened Sequences
  import opened Semaphores

  /** How far a thread is with Acquire and Release. */
  datatype Role =
    | Outside
    | Wanting    // Acquire: about to test the semaphore
    | Queued     // Acquire: asleep in the semaphore's queue
    | Entered    // Acquire: past the semaphore, lockHolder not set yet
    | Inside     // between Acquire and Release
    | Releasing  // Release: lockHolder is NULL, the V is to come

  /** `owner` is the thread that passed the semaphore last and has not posted it yet. */
  datatype Lock = Lock(sem: Semaphore, holder: Option<Tid>, owner: Option<Tid>, roles: map<Tid, Role>)
  {
    function At(t: Tid): (r: Role) {
      if t in roles then roles[t] else Outside
    }

    function Goto(t: Tid, r: Role): (l: Lock)
      ensures l.At(t) == r && forall u :: u != t ==> l.At(u) == At(u)
    {
      this.(roles := roles[t := r])
    }
  }

  function Init(): (l: Lock) {
    Lock(Semaphore(1, []), None, None, map[])
  }

  /** One pass through the loop of P. */
  function Take(l: Lock, t: Tid): (l': Lock) {
    var (sem, passed) := TryP(l.sem, t);
    if passed then l.(sem := sem, owner := Some(t)).Goto(t, Entered) else l.(sem := sem).Goto(t, Queued)
  }

  function Post(l: Lock, t: Tid): (l': Lock) {
    var (sem, front) := V(l.sem);
    var l1 := l.(sem := sem, owner := None);
    (if front.Some? && l.At(front.value).Queued? then l1.Goto(front.value, Wanting) else l1).Goto(t, Outside)
  }

  /** What thread `t` does next with the lock. */
  function Step(l: Lock, t: Tid): (l': Lock) {
    match l.At(t)
    case Outside => l.Goto(t, Wanting)
    case Wanting => Take(l, t)
    case Queued => l
    case Entered => l.(holder := Some(t)).Goto(t, Inside)
    case Inside => l.(holder := None).Goto(t, Releasing)
    case Releasing => Post(l, t)
  }

  /** Between passing the semaphore and posting it. */
  predicate Critical(r: Role) {
    r.Entered? || r.Inside? || r.Releasing?
  }

  /** One thread at most is past the semaphore, lockHolder is the thread inside, the queue holds those that sleep, and
      when the lock is free a sleeper is never left alone: somebody is about to test the semaphore. */
  ghost predicate Inv(l: Lock) {
    && l.sem.value == (if l.owner == None then 1 else 0)
    && (forall t :: Critical(l.At(t)) <==> l.owner == Some(t))
    && (forall t :: l.At(t).Inside? <==> l.holder == Some(t))
    && Distinct(l.sem.queue)
    && (forall t :: t in l.sem.queue <==> l.At(t).Queued?)
    && (l.sem.queue != [] && l.sem.value > 0 ==> exists t :: l.At(t).Wanting?)
  }

  lemma TakeKeepsInv(l: Lock, t: Tid)
    requires Inv(l) && l.At(t).Wanting?
    ensures Inv(Take(l, t))
  {
    var l' := Take(l, t);
    if l.sem.value == 0 {
      assert l'.sem.queue == l.sem.queue + [t];
      assert t !in l.sem.queue;
    }
  }

  lemma PostKeepsInv(l: Lock, t: Tid)
    requires Inv(l) && l.At(t).Releasing?
    ensures Inv(Post(l, t))
  {
    if l.sem.queue != [] {
      var front := l.sem.queue[0];
      assert front in l.sem.queue;
      DistinctTail(l.sem.queue);
      assert Post(l, t).At(front).Wanting?;
    }
  }

  lemma StepKeepsInv(l: Lock, t: Tid)
    requires Inv(l)
    ensures Inv(Step(l, t))
  {
    match l.At(t)
    case Wanting =>
      hide Inv, Take;
      TakeKeepsInv(l, t);
    case Releasing =>
      hide Inv, Post;
      PostKeepsInv(l, t);
    case _ =>
      hide Distinct;
      assert l.At(t).Outside? ==> Step(l, t).At(t).Wanting?;
  }
}
