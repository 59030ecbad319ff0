/**
  What the host cannot decide itself: whether the cancellation flag is up when it looks,
  and whether a reservation is granted. Both are given for every look in advance, the flag
  never goes down again, and the host counts its looks, so every early end has its cause.
 */
module Hosts {

  ghost predicate Rising(raised: nat -> bool) {
    forall i: nat, j: nat :: i <= j && raised(i) ==> raised(j)
  }

  class Host {
    const raised: nat -> bool
    const granted: nat -> bool
    var loads: nat
    var requests: nat

    constructor (raised: nat -> bool, granted: nat -> bool)
      ensures this.raised == raised && this.granted == granted && loads == 0 && requests == 0
    {
      this.raised, this.granted := raised, granted;
      loads, requests := 0, 0;
    }

    /** One load of the cancellation flag. */
    method Load() returns (up: bool)
      modifies this`loads
      ensures loads == old(loads) + 1 && up == raised(old(loads))
    {
      up := raised(loads);
      loads := loads + 1;
    }

    /** One fallible reservation. */
    method Reserve() returns (ok: bool)
      modifies this`requests
      ensures requests == old(requests) + 1 && ok == granted(old(requests))
    {
      ok := granted(requests);
      requests := requests + 1;
    }

    /** The host only looks on. */
    ghost predicate Onward(loads: nat, requests: nat)
      reads this
    {
      loads <= this.loads && requests <= this.requests
    }

    /** Since these counts the flag was down at every load and every reservation was granted. */
    ghost predicate Undisturbed(loads: nat, requests: nat)
      reads this
    {
      && loads <= this.loads && (forall k :: loads <= k < this.loads ==> !raised(k))
      && requests <= this.requests && (forall k :: requests <= k < this.requests ==> granted(k))
    }

    /** The last load since this count found the flag up. */
    ghost predicate Stopped(loads: nat)
      reads this
    {
      loads < this.loads && raised(this.loads - 1)
    }

    /** The last reservation since this count was refused. */
    ghost predicate Refused(requests: nat)
      reads this
    {
      requests < this.requests && !granted(this.requests - 1)
    }
  }
}
