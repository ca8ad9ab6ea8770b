/** The re-timable wait of `app/main.py`, over the trace of interval settings it reads once a second. */
module DiscoveryWait {
  import opened Options

  /** `Waiting` is a trace that ends before the wait does. */
  datatype Outcome = Due | Disabled | Waiting

  /** The last n readings up to k were all n, for a positive n. */
  predicate Fires(readings: seq<int>, k: nat)
    requires k < |readings|
  {
    var n := readings[k];
    0 < n <= k + 1 && forall i :: k + 1 - n <= i <= k ==> readings[i] == n
  }

  predicate Stops(readings: seq<int>, k: nat, exitWhenDisabled: bool)
    requires k < |readings|
  {
    Fires(readings, k) || (exitWhenDisabled && readings[k] <= 0)
  }

  /** How many readings up to k equal the one at k, without a break. */
  function RunLength(readings: seq<int>, k: nat): (n: nat)
    requires k < |readings|
    ensures 1 <= n <= k + 1
    ensures forall i :: k + 1 - n <= i <= k ==> readings[i] == readings[k]
    ensures n <= k ==> readings[k - n] != readings[k]
  {
    if k == 0 || readings[k - 1] != readings[k] then 1 else RunLength(readings, k - 1) + 1
  }

  /** The wait is over when the current run is at least as long as its interval. */
  lemma FiresExactly(readings: seq<int>, k: nat)
    requires k < |readings|
    ensures Fires(readings, k) <==> 0 < readings[k] <= RunLength(readings, k)
  {
    var run := RunLength(readings, k);
    assert run <= k ==> readings[k - run] != readings[k];
  }

  /** From `start` on the setting stays at a positive n for n readings. */
  predicate Steady(readings: seq<int>, start: nat, n: nat) {
    0 < n && start + n <= |readings| && forall i :: start <= i < start + n ==> readings[i] == n
  }

  /** A wait that has not been over before `used` does not outlast a steady setting. */
  lemma SteadySettingEndsWait(readings: seq<int>, exitWhenDisabled: bool, used: nat, start: nat, n: nat)
    requires used <= |readings| && Steady(readings, start, n)
    requires forall j :: 0 <= j < used ==> !Stops(readings, j, exitWhenDisabled)
    ensures used < start + n
  {
    assert Fires(readings, start + n - 1);
    assert Stops(readings, start + n - 1, exitWhenDisabled);
  }

  /** While every reading differs from the one before and none is one second, the wait never ends by itself. */
  lemma ChangingIntervalNeverFires(readings: seq<int>, k: nat)
    requires k < |readings|
    requires forall i :: 0 < i < |readings| ==> readings[i - 1] != readings[i]
    requires forall i :: 0 <= i < |readings| ==> readings[i] != 1
    ensures !Fires(readings, k)
  {
    FiresExactly(readings, k);
    assert RunLength(readings, k) == 1;
  }

  /** After a positive interval changed, the full new interval has to pass: no firing before it does. */
  lemma ChangeRestarts(readings: seq<int>, change: nat, k: nat)
    requires 0 < change <= k < |readings|
    requires readings[change - 1] != readings[change]
    requires forall i :: change <= i <= k ==> readings[i] == readings[change]
    ensures Fires(readings, k) <==> 0 < readings[change] <= k + 1 - change
  {
    assert readings[change - 1] != readings[k];
  }

  lemma EndsInTime(readings: seq<int>, exitWhenDisabled: bool, used: nat)
    requires used <= |readings|
    requires forall j :: 0 <= j < used ==> !Stops(readings, j, exitWhenDisabled)
    ensures forall start: nat, n: nat :: Steady(readings, start, n) ==> used < start + n
  {
    forall start: nat, n: nat | Steady(readings, start, n) ensures used < start + n {
      SteadySettingEndsWait(readings, exitWhenDisabled, used, start, n);
    }
  }

  /** The number of seconds left on the timer after the reading at k, if it has not run out. */
  function TimerAfter(readings: seq<int>, k: nat): Option<real>
    requires k < |readings|
  {
    if readings[k] <= 0 then None else Some((readings[k] - RunLength(readings, k)) as real)
  }

  /** Stops at the first reading that ends the wait, and says which way it did; sleeps one second at every other
      reading. Once the setting is steady at n, the wait is over within n readings. */
  method WaitForNextUsbDiscoveryCycle(readings: seq<int>, exitWhenDisabled: bool)
    returns (outcome: Outcome, used: nat, slept: real)
    ensures used <= |readings|
    ensures outcome == Waiting ==>
              && used == |readings| && slept == used as real
              && forall j :: 0 <= j < used ==> !Stops(readings, j, exitWhenDisabled)
    ensures outcome != Waiting ==>
              && used >= 1 && Stops(readings, used - 1, exitWhenDisabled)
              && (forall j :: 0 <= j < used - 1 ==> !Stops(readings, j, exitWhenDisabled))
              && (outcome == Due <==> Fires(readings, used - 1))
              && slept == (if outcome == Due then used else used - 1) as real
    ensures forall start: nat, n: nat :: Steady(readings, start, n) ==> outcome != Waiting && used <= start + n
    ensures outcome == Disabled ==> exitWhenDisabled
  {
    var remainingSeconds: Option<real>, activeInterval: Option<int> := None, None;
    used, slept := 0, 0.0;
    while used < |readings|
      invariant used <= |readings| && slept == used as real
      invariant forall j :: 0 <= j < used ==> !Stops(readings, j, exitWhenDisabled)
      invariant used == 0 ==> remainingSeconds == None && activeInterval == None
      invariant used > 0 ==> remainingSeconds == TimerAfter(readings, used - 1)
      invariant used > 0 && remainingSeconds.Some? ==>
                  activeInterval == Some(readings[used - 1]) && remainingSeconds.value > 0.0
      invariant remainingSeconds.None? ==> activeInterval == None
    {
      var configuredInterval := readings[used];
      FiresExactly(readings, used);
      used := used + 1;
      EndsInTime(readings, exitWhenDisabled, used - 1);
      if configuredInterval <= 0 {
        if exitWhenDisabled {
          return Disabled, used, slept;
        }
        slept := slept + 1.0;
        remainingSeconds, activeInterval := None, None;
        continue;
      }
      if remainingSeconds.None? || activeInterval != Some(configuredInterval) {
        activeInterval := Some(configuredInterval);
        remainingSeconds := Some(configuredInterval as real);
      }
      var sleepFor := if remainingSeconds.value < 1.0 then remainingSeconds.value else 1.0;
      slept := slept + sleepFor;
      remainingSeconds := Some(remainingSeconds.value - sleepFor);
      if remainingSeconds.value <= 0.0 {
        return Due, used, slept;
      }
    }
    EndsInTime(readings, exitWhenDisabled, used);
    return Waiting, used, slept;
  }
}
