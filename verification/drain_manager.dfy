/** The drain manager: a tick each second until the drain time is used up, then the completion. */
module DrainManagement {

  /** The state after `n` ticks of a drain sequence, as the source's fields show it. */
  datatype Progress = Progress(ticks: nat, timerArmed: bool, completionsRun: nat)

  function After(n: nat, drainTime: nat, hasCompletion: bool): Progress {
    Progress(n, n < drainTime, if n >= drainTime && hasCompletion then 1 else 0)
  }

  class DrainManager {
    const drainTime: nat
    var draining: bool         // the tick timer exists
    var timerArmed: bool
    var ticks: nat
    var hasCompletion: bool    // a server-wide drain passes none
    var completionsRun: nat

    /** While draining, the timer is armed exactly until the last tick, and the completion has run
        exactly once from the last tick on. */
    ghost predicate Valid()
      reads this
    {
      && drainTime >= 1
      && (!draining ==> Progress(ticks, timerArmed, completionsRun) == Progress(0, false, 0))
      && (draining ==> 1 <= ticks <= drainTime
                       && Progress(ticks, timerArmed, completionsRun) == After(ticks, drainTime, hasCompletion))
    }

    constructor (drainTime: nat)
      requires drainTime >= 1
      ensures Valid() && !draining && this.drainTime == drainTime
    {
      this.drainTime := drainTime;
      draining, timerArmed, ticks, hasCompletion, completionsRun := false, false, 0, false, 0;
    }

    method DrainSequenceTick()
      requires drainTime >= 1 && draining && !timerArmed && ticks < drainTime && completionsRun == 0
      modifies this
      ensures Valid() && draining && ticks == old(ticks) + 1 && hasCompletion == old(hasCompletion)
    {
      ticks := ticks + 1;
      if ticks < drainTime {
        timerArmed := true;
      } else if hasCompletion {
        completionsRun := completionsRun + 1;
      }
    }

    method StartDrainSequence(withCompletion: bool)
      requires Valid() && !draining
      modifies this
      ensures Valid() && draining && ticks == 1 && hasCompletion == withCompletion
    {
      hasCompletion := withCompletion;
      draining := true;
      DrainSequenceTick();
    }

    /** The armed timer fires. */
    method OnTimer()
      requires Valid() && timerArmed
      modifies this
      ensures Valid() && draining && ticks == old(ticks) + 1 && hasCompletion == old(hasCompletion)
    {
      timerArmed := false;
      DrainSequenceTick();
    }

    /** Lets the timer fire until it is no longer armed: a started drain takes exactly `drainTime`
        ticks in all and runs its completion exactly once. */
    method RunOut() returns (fired: nat)
      requires Valid() && draining
      modifies this
      ensures Valid() && draining && !timerArmed && ticks == drainTime
      ensures fired == drainTime - old(ticks)
      ensures completionsRun == if old(hasCompletion) then 1 else 0
    {
      fired := 0;
      while timerArmed
        invariant Valid() && draining && hasCompletion == old(hasCompletion)
        invariant ticks == old(ticks) + fired
        decreases drainTime - ticks
      {
        OnTimer();
        fired := fired + 1;
      }
    }

    /** Whether to close a connection: always when health checks fail, never before draining, and
        else for `ticks` of every `drainTime` random values; so after the last tick always. */
    method DrainClose(healthCheckFailed: bool, random: nat) returns (close: bool)
      requires Valid()
      ensures close == (healthCheckFailed || (draining && random % drainTime < ticks))
      ensures draining && ticks == drainTime ==> close
    {
      if healthCheckFailed {
        return true;
      }
      if !draining {
        return false;
      }
      return ticks > random % drainTime;
    }
  }
}
