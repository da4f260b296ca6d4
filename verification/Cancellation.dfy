/**
 The cancellation token (`CancellationToken`): `cancel` sets a flag and then wakes all registered
 waiters; `cancelled` registers before it looks at the flag again and goes to sleep.  No waiter
 sleeps through a cancel, whatever the interleaving and however many clones cancel.
 */
module Cancellation {

  /** A registered waiter remembers how many wake-ups there had been; later ones reach it. */
  datatype Waiter = Fresh | Unregistered | Registered(seen: nat) | Asleep(seen: nat) | Returned

  /** `begun` cancels have set the flag and not yet woken the waiters. */
  datatype Token = Token(flag: bool, begun: nat, wakeups: nat, waiters: map<nat, Waiter>)

  datatype Step = Store | Notify | Arrive(waiter: nat) | Move(waiter: nat)

  function Next(t: Token, step: Step): Token {
    match step
    case Store => t.(flag := true, begun := t.begun + 1)
    case Notify => if t.begun > 0 then t.(begun := t.begun - 1, wakeups := t.wakeups + 1) else t
    case Arrive(w) => if w in t.waiters then t else t.(waiters := t.waiters[w := Fresh])
    case Move(w) => if w !in t.waiters then t else t.(waiters := t.waiters[w := Moved(t, t.waiters[w])])
  }

  /** One step of `cancelled`: the first look, the registration, the second look, the waking up and the third look. */
  function Moved(t: Token, waiter: Waiter): Waiter {
    match waiter
    case Fresh => if t.flag then Returned else Unregistered
    case Unregistered => Registered(t.wakeups)
    case Registered(seen) => if t.flag then Returned else Asleep(seen)
    case Asleep(seen) => if t.wakeups == seen then waiter else if t.flag then Returned else Unregistered
    case Returned => Returned
  }

  function After(steps: seq<Step>, n: nat): Token
    requires n <= |steps|
  {
    if n == 0 then Token(false, 0, 0, map[]) else Next(After(steps, n - 1), steps[n - 1])
  }

  /** The flag is set before any wake-up, and whoever sleeps registered before all of them. */
  ghost predicate Good(t: Token) {
    && (t.flag <==> t.begun + t.wakeups > 0)
    && (forall w :: w in t.waiters && t.waiters[w].Registered? ==> t.waiters[w].seen <= t.wakeups)
    && (forall w :: w in t.waiters && t.waiters[w].Asleep? ==> t.waiters[w].seen == 0)
  }

  lemma {:induction false} AlwaysGood(steps: seq<Step>, n: nat)
    requires n <= |steps|
    ensures Good(After(steps, n))
  {
    if n > 0 {
      AlwaysGood(steps, n - 1);
    }
  }

  /** Takes `k` steps of one waiter. */
  function Moves(t: Token, w: nat, k: nat): Token
    decreases k
  {
    if k == 0 then t else Moves(Next(t, Move(w)), w, k - 1)
  }

  /**
   Once some `cancel` has returned, every waiter that arrived, asleep or not, returns within two
   steps of its own, and one that is asleep with its next step.
   */
  lemma {:induction false} NoWaiterStaysAsleep(steps: seq<Step>, n: nat, w: nat)
    requires n <= |steps| && After(steps, n).wakeups > 0 && w in After(steps, n).waiters
    ensures Moves(After(steps, n), w, 2).waiters[w] == Returned
    ensures After(steps, n).waiters[w].Asleep? ==> Next(After(steps, n), Move(w)).waiters[w] == Returned
  {
    AlwaysGood(steps, n);
    var t := After(steps, n);
    var t' := Next(t, Move(w));
    assert Moves(t, w, 2) == Moves(t', w, 1) == Moves(Next(t', Move(w)), w, 0);
  }

  /** A waiter returns only when the token is cancelled. */
  lemma {:induction false} ReturnedMeansCancelled(steps: seq<Step>, n: nat, w: nat)
    requires n <= |steps|
    ensures w in After(steps, n).waiters && After(steps, n).waiters[w].Returned? ==> After(steps, n).flag
  {
    if n > 0 {
      ReturnedMeansCancelled(steps, n - 1, w);
    }
  }
}
