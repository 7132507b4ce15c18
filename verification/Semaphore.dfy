/** threads/synch.cc, Semaphore: P and V run with interrupts off, so each is one atomic step, except that P
    sleeps while the value is zero and tests again after it has been woken. Threads that have not queued may
    take the value first. */
module Semaphores {

  type Tid = int

  datatype Option<+T> = None | Some(value: T)

  datatype Semaphore = Semaphore(value: nat, queue: seq<Tid>)

  /** One pass through the loop of P: consume the value, or queue and go to sleep. */
  function TryP(s: Semaphore, t: Tid): (r: (Semaphore, bool)) {
    if s.value == 0 then (s.(queue := s.queue + [t]), false)
    else (s.(value := s.value - 1), true)
  }

  /** V: make the first sleeper ready, if there is one, and increment. */
  function V(s: Semaphore): (r: (Semaphore, Option<Tid>)) {
    if s.queue == [] then (s.(value := s.value + 1), None)
    else (Semaphore(s.value + 1, s.queue[1..]), Some(s.queue[0]))
  }
}
