/** Waiting for a submitted query: the status is read, and the wait ends on a terminal state
    or when the deadline passes. Time is counted in polls: with a 300-second timeout and a
    10-second pause after each non-terminal read, the deadline leaves room for `budget` reads.
    The engine is an oracle: `replies(n)` is what the n-th status read returns. */
module Poller {
  import opened Outcomes

  const TIMEOUT_SECONDS := 300
  const POLL_INTERVAL_SECONDS := 10
  const POLL_BUDGET := TIMEOUT_SECONDS / POLL_INTERVAL_SECONDS

  datatype QueryState = Queued | Running | Succeeded | Failed | Cancelled

  /** One `get_query_execution` call: the state it reports, or an exception. */
  datatype Reply = Status(state: QueryState) | Raises

  /** A reply after which the wait does not poll again. */
  predicate EndsWait(r: Reply)
  {
    r.Raises? || r.state in {Succeeded, Failed, Cancelled}
  }

  /** How the wait ends on a reply that ends it. */
  function Verdict(r: Reply): Call
    requires EndsWait(r)
  {
    match r
    case Raises => Raised
    case Status(s) => Returned(s == Succeeded)
  }

  /** The outcome of waiting, reading replies from index `n` on. */
  function AwaitFrom(replies: nat -> Reply, budget: nat, n: nat): Call
    decreases budget - n
  {
    if n >= budget then Returned(false)
    else if EndsWait(replies(n)) then Verdict(replies(n))
    else AwaitFrom(replies, budget, n + 1)
  }

  function Await(replies: nat -> Reply, budget: nat): Call
  {
    AwaitFrom(replies, budget, 0)
  }

  /** `n` is the first reply that ends the wait. */
  ghost predicate FirstEnd(replies: nat -> Reply, n: nat)
  {
    EndsWait(replies(n)) && forall j :: 0 <= j < n ==> !EndsWait(replies(j))
  }

  lemma {:induction false} AwaitFromFirstEnd(replies: nat -> Reply, budget: nat, m: nat, n: nat)
    requires m <= n < budget && FirstEnd(replies, n)
    ensures AwaitFrom(replies, budget, m) == Verdict(replies(n))
    decreases n - m
  {
    if m < n {
      AwaitFromFirstEnd(replies, budget, m + 1, n);
    }
  }

  lemma {:induction false} AwaitFromNoEnd(replies: nat -> Reply, budget: nat, m: nat)
    requires forall j :: m <= j < budget ==> !EndsWait(replies(j))
    ensures AwaitFrom(replies, budget, m) == Returned(false)
    decreases budget - m
  {
    if m < budget {
      AwaitFromNoEnd(replies, budget, m + 1);
    }
  }

  /** The wait ends the way the first terminal reply within the budget says. */
  lemma AwaitIsFirstEnd(replies: nat -> Reply, budget: nat, n: nat)
    requires n < budget && FirstEnd(replies, n)
    ensures Await(replies, budget) == Verdict(replies(n))
  {
    AwaitFromFirstEnd(replies, budget, 0, n);
  }

  /** If no reply within the budget is terminal, the wait gives false. */
  lemma AwaitTimesOut(replies: nat -> Reply, budget: nat)
    requires forall j :: 0 <= j < budget ==> !EndsWait(replies(j))
    ensures Await(replies, budget) == Returned(false)
  {
    AwaitFromNoEnd(replies, budget, 0);
  }

  /** The wait gives true exactly when SUCCEEDED is observed within the budget before any
      FAILED, CANCELLED or exception; it raises exactly when a status read raises first. */
  lemma AwaitOutcomes(replies: nat -> Reply, budget: nat)
    ensures Await(replies, budget) == Returned(true) <==>
      exists n: nat :: n < budget && FirstEnd(replies, n) && replies(n) == Status(Succeeded)
    ensures Await(replies, budget) == Raised <==>
      exists n: nat :: n < budget && FirstEnd(replies, n) && replies(n) == Raises
  {
    if n: nat :| n < budget && FirstEnd(replies, n) {
      AwaitIsFirstEnd(replies, budget, n);
      forall n': nat | n' < budget && FirstEnd(replies, n') ensures n' == n {
        if n' != n {
          assert false;
        }
      }
    } else {
      forall j | 0 <= j < budget ensures !EndsWait(replies(j)) {
        if EndsWait(replies(j)) {
          var k := FirstEndExists(replies, j);
          assert false;
        }
      }
      AwaitTimesOut(replies, budget);
    }
  }

  /** Some reply ends the wait, so a first one does. */
  lemma {:induction false} FirstEndExists(replies: nat -> Reply, j: nat) returns (k: nat)
    requires EndsWait(replies(j))
    ensures k <= j && FirstEnd(replies, k)
    decreases j
  {
    if i :| 0 <= i < j && EndsWait(replies(i)) {
      k := FirstEndExists(replies, i);
    } else {
      k := j;
    }
  }

  /** The poll loop of `wait_for_query_completion`, with the number of status reads made. */
  method WaitForQueryCompletion(replies: nat -> Reply, budget: nat) returns (r: Call, polls: nat)
    ensures r == Await(replies, budget)
    ensures polls <= budget
    ensures forall j :: 0 <= j < polls - 1 ==> !EndsWait(replies(j))
    ensures polls < budget ==> 0 < polls && EndsWait(replies(polls - 1)) && r == Verdict(replies(polls - 1))
  {
    polls := 0;
    while polls < budget
      invariant polls <= budget
      invariant forall j :: 0 <= j < polls ==> !EndsWait(replies(j))
      invariant AwaitFrom(replies, budget, polls) == Await(replies, budget)
      decreases budget - polls
    {
      var reply := replies(polls);
      polls := polls + 1;
      match reply {
        case Raises =>
          return Raised, polls;
        case Status(state) =>
          if state == Succeeded {
            return Returned(true), polls;
          } else if state == Failed || state == Cancelled {
            return Returned(false), polls;
          }
      }
    }
    return Returned(false), polls;
  }
}
