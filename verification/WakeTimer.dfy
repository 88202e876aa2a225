/** The wake and sleep timer of internal/icc/wake.go; each step holds the card's mutex. */
module WakeTimer {

  datatype Frequency = Unset | Low | Max

  /** The processor clock, the awake flag and the outstanding sleep timers. */
  class Clock {
    var awake: bool
    var frequency: Frequency
    var timers: nat

    constructor ()
      ensures Consistent() && frequency == Unset && !awake
    {
      awake, frequency, timers := false, Unset, 0;
    }

    /** At most one sleep timer, outstanding exactly while awake, which is exactly when the clock is at its maximum. */
    ghost predicate Consistent()
      reads this
    {
      && timers == (if awake then 1 else 0)
      && (frequency == Max <==> awake)
    }

    method Wake()
      modifies this
      ensures old(awake) ==> unchanged(this)
      ensures !old(awake) ==> awake && frequency == Max && timers == old(timers) + 1
    {
      if awake {
        return;
      }
      frequency := Max;
      awake := true;
      timers := timers + 1;
    }

    /** The callback of one outstanding timer. */
    method Fire()
      requires timers > 0
      modifies this
      ensures !awake && frequency == Low && timers == old(timers) - 1
    {
      timers := timers - 1;
      frequency := Low;
      awake := false;
    }

    /** Any interleaving of commands and timer callbacks; a callback needs an outstanding timer. */
    method Interleave(wakes: seq<bool>)
      requires Consistent()
      modifies this
      ensures Consistent()
      ensures true in wakes || old(frequency) != Unset ==> frequency != Unset
      ensures |wakes| > 0 && wakes[|wakes| - 1] ==> awake && frequency == Max && timers == 1
    {
      for n := 0 to |wakes|
        invariant Consistent()
        invariant true in wakes[..n] || old(frequency) != Unset ==> frequency != Unset
        invariant n > 0 && wakes[n - 1] ==> awake
      {
        assert wakes[..n + 1] == wakes[..n] + [wakes[n]];
        if wakes[n] {
          Wake();
        } else if timers > 0 {
          Fire();
        }
      }
      assert wakes[..|wakes|] == wakes;
    }
  }
}
