/**
 * The battery charge controller: debounced decisions to stop and to resume charging, a minimum time
 * between them, and a band of voltages in which nothing is decided.
 */
module ChargeControl {
  import opened Bytes

  const DEBOUNCE: nat := 3
  /** Fifteen seconds in ticks of ten milliseconds. */
  const MIN_INTERVAL: nat := 1500
  const FULL_SOC: nat := 100
  const MIN_STOP_MV: nat := 4100
  const RESUME_MV: nat := 4000
  const CHARGE_DONE: nat := 3
  const TICKS: nat := 0x1_0000_0000

  type tick = t: nat | t < TICKS

  /** State of charge in percent, battery voltage in millivolts, and the charger's status. */
  datatype Reading = Reading(soc: nat, vbat: nat, charger: nat)

  datatype Control = Control(enabled: bool, stops: nat, starts: nat, lastToggle: tick)

  // ---------------------------------------------------------------- one reading, as a function

  /** An implausible state of charge is replaced by an estimate from the voltage. */
  function PlausibleSoc(r: Reading, estimate: nat -> nat): nat {
    if r.soc >= 100 && r.vbat < 3900 then estimate(r.vbat)
    else if r.soc == 0 && r.vbat > 3500 then estimate(r.vbat)
    else r.soc
  }

  predicate StopWorthy(r: Reading, estimate: nat -> nat) {
    (r.charger == CHARGE_DONE || PlausibleSoc(r, estimate) >= FULL_SOC) && r.vbat >= MIN_STOP_MV
  }

  predicate ResumeWorthy(r: Reading) {
    0 < r.vbat < RESUME_MV
  }

  /** Enough time has passed since the last change, or none is on record. */
  predicate ToggleAllowed(c: Control, now: tick) {
    (now - c.lastToggle) % TICKS >= MIN_INTERVAL || c.lastToggle == 0
  }

  function Monitor(c: Control, r: Reading, now: tick, estimate: nat -> nat): Control {
    if c.enabled then
      if !StopWorthy(r, estimate) then c.(stops := 0)
      else if c.stops + 1 >= DEBOUNCE && ToggleAllowed(c, now) then Control(false, 0, 0, now)
      else c.(stops := c.stops + 1, starts := 0)
    else
      if !ResumeWorthy(r) then c.(starts := 0)
      else if c.starts + 1 >= DEBOUNCE && ToggleAllowed(c, now) then Control(true, 0, 0, now)
      else c.(starts := c.starts + 1, stops := 0)
  }

  // ---------------------------------------------------------------- one reading, as the source runs it

  class Controller {
    var enabled: bool
    var stops: nat
    var starts: nat
    var lastToggle: tick
    /** The charge-enable pin, which is active low, and the charger's own enable bit. */
    var pinHigh: bool
    var chargerOn: bool

    ghost function View(): Control
      reads this
    {
      Control(enabled, stops, starts, lastToggle)
    }

    /** The hardware does what the state says. */
    ghost predicate Wired()
      reads this
    {
      pinHigh == !enabled && chargerOn == enabled
    }

    constructor ()
      ensures View() == Control(true, 0, 0, 0) && Wired()
    {
      enabled, stops, starts, lastToggle := true, 0, 0, 0;
      pinHigh, chargerOn := false, true;
    }

    method SetChargeEnable(enable: bool)
      modifies this
      ensures View() == old(View()).(enabled := enable) && Wired()
    {
      enabled := enable;
      pinHigh := !enable;
      chargerOn := enable;
    }

    method MonitorWithStatus(r: Reading, now: tick, estimate: nat -> nat)
      requires Wired()
      modifies this
      ensures View() == Monitor(old(View()), r, now, estimate) && Wired()
    {
      var soc := r.soc;
      if soc >= 100 && r.vbat < 3900 {
        soc := estimate(r.vbat);
      } else if soc == 0 && r.vbat > 3500 {
        soc := estimate(r.vbat);
      }
      var toggleAllowed := (now - lastToggle) % TICKS >= MIN_INTERVAL || lastToggle == 0;
      if enabled {
        var shouldStop := false;
        if r.charger == CHARGE_DONE {
          shouldStop := true;
        } else if soc >= FULL_SOC && r.vbat >= MIN_STOP_MV {
          shouldStop := true;
        }
        if shouldStop && r.vbat < MIN_STOP_MV {
          shouldStop := false;
        }
        if shouldStop {
          stops := stops + 1;
          starts := 0;
          if stops >= DEBOUNCE && toggleAllowed {
            SetChargeEnable(false);
            stops := 0;
            lastToggle := now;
          }
        } else {
          stops := 0;
        }
      } else {
        var shouldResume := r.vbat > 0 && r.vbat < RESUME_MV;
        if shouldResume {
          starts := starts + 1;
          stops := 0;
          if starts >= DEBOUNCE && toggleAllowed {
            SetChargeEnable(true);
            starts := 0;
            lastToggle := now;
          }
        } else {
          starts := 0;
        }
      }
    }
  }

  // ---------------------------------------------------------------- every run of the monitor

  /** A reading and the true time at which it was taken, in ticks that do not wrap. */
  datatype Sample = Sample(reading: Reading, at: nat)

  ghost predicate InOrder(samples: seq<Sample>) {
    forall i, j :: 0 <= i < j < |samples| ==> samples[i].at <= samples[j].at
  }

  ghost predicate IsRun(run: seq<Control>, samples: seq<Sample>, estimate: nat -> nat) {
    && |run| == |samples| + 1
    && run[0] == Control(true, 0, 0, 0)
    && InOrder(samples)
    && forall i :: 0 <= i < |samples| ==>
         run[i + 1] == Monitor(run[i], samples[i].reading, samples[i].at % TICKS, estimate)
  }

  predicate ToggledAt(run: seq<Control>, i: nat)
    requires i + 1 < |run|
  {
    run[i].enabled != run[i + 1].enabled
  }

  /** The last `n` readings before step `k` all argued for the change, while the state was the same. */
  ghost predicate Argued(run: seq<Control>, samples: seq<Sample>, estimate: nat -> nat, k: nat, n: nat)
    requires |run| == |samples| + 1 && n <= k < |run|
  {
    forall i :: k - n <= i < k ==>
      && run[i].enabled == run[k].enabled
      && if run[k].enabled then StopWorthy(samples[i].reading, estimate) else ResumeWorthy(samples[i].reading)
  }

  function Counter(c: Control): nat {
    if c.enabled then c.stops else c.starts
  }

  /** The counter in use counts consecutive readings; the other one is zero. */
  lemma {:induction false} CountersCount(run: seq<Control>, samples: seq<Sample>, estimate: nat -> nat, k: nat)
    requires IsRun(run, samples, estimate) && k < |run|
    ensures (if run[k].enabled then run[k].starts else run[k].stops) == 0
    ensures Counter(run[k]) <= k && Argued(run, samples, estimate, k, Counter(run[k]))
  {
    if k > 0 {
      CountersCount(run, samples, estimate, k - 1);
      assert run[k] == Monitor(run[k - 1], samples[k - 1].reading, samples[k - 1].at % TICKS, estimate);
    }
  }

  /**
   * Debounce: whenever the state changes, the reading that changed it and the two before it all argued
   * for the change, with charging in the old state throughout.  A stop needs at least 4100 mV in each
   * of them, a resumption between 1 and 3999 mV.
   */
  lemma ToggleIsDebounced(run: seq<Control>, samples: seq<Sample>, estimate: nat -> nat, i: nat)
    requires IsRun(run, samples, estimate) && i < |samples| && ToggledAt(run, i)
    ensures i >= DEBOUNCE - 1
    ensures forall j :: i - 2 <= j <= i ==> run[j].enabled == run[i].enabled
    ensures forall j :: i - 2 <= j <= i ==>
      var r := samples[j].reading;
      if run[i].enabled then StopWorthy(r, estimate) && r.vbat >= MIN_STOP_MV
      else ResumeWorthy(r) && 1 <= r.vbat <= 3999
  {
    CountersCount(run, samples, estimate, i);
    assert run[i + 1] == Monitor(run[i], samples[i].reading, samples[i].at % TICKS, estimate);
  }

  /** Hysteresis: a reading in the band changes nothing, and any counting starts again. */
  lemma BandIsNeutral(c: Control, r: Reading, now: tick, estimate: nat -> nat)
    requires RESUME_MV <= r.vbat < MIN_STOP_MV
    ensures var c' := Monitor(c, r, now, estimate);
      c'.enabled == c.enabled && c'.lastToggle == c.lastToggle && Counter(c') == 0
  {
  }

  /** The tick on record is that of the latest change, and it is zero while there has been none. */
  lemma {:induction false} LastToggleRecorded(run: seq<Control>, samples: seq<Sample>, estimate: nat -> nat,
                                              i: nat, k: nat)
    requires IsRun(run, samples, estimate) && i < k < |run| && ToggledAt(run, i)
    requires forall j :: i < j < k ==> !ToggledAt(run, j)
    ensures run[k].lastToggle == samples[i].at % TICKS
    decreases k
  {
    assert run[k] == Monitor(run[k - 1], samples[k - 1].reading, samples[k - 1].at % TICKS, estimate);
    if k > i + 1 {
      LastToggleRecorded(run, samples, estimate, i, k - 1);
      assert !ToggledAt(run, k - 1);
    }
  }

  /**
   * Cooldown: two changes one after the other are at least fifteen seconds apart, however the tick
   * count wraps, unless the earlier one happened exactly at a tick count of zero.
   */
  lemma TogglesAreSpaced(run: seq<Control>, samples: seq<Sample>, estimate: nat -> nat, i: nat, k: nat)
    requires IsRun(run, samples, estimate) && i < k < |samples| && ToggledAt(run, i) && ToggledAt(run, k)
    requires forall j :: i < j < k ==> !ToggledAt(run, j)
    ensures samples[k].at >= samples[i].at + MIN_INTERVAL || samples[i].at % TICKS == 0
  {
    LastToggleRecorded(run, samples, estimate, i, k);
    assert run[k + 1] == Monitor(run[k], samples[k].reading, samples[k].at % TICKS, estimate);
    assert ToggleAllowed(run[k], samples[k].at % TICKS);
    assert samples[i].at <= samples[k].at;
    WrappedDistance(samples[i].at, samples[k].at);
  }

  /** The three readings after step `i` all argue for changing the state back. */
  ghost predicate Opposed(run: seq<Control>, samples: seq<Sample>, estimate: nat -> nat, i: nat)
    requires |run| == |samples| + 1 && i + 3 < |samples|
  {
    forall j :: i < j <= i + 3 ==>
      if run[i + 1].enabled then StopWorthy(samples[j].reading, estimate) else ResumeWorthy(samples[j].reading)
  }

  /**
   * How soon a change can be undone, exactly: three opposing readings right after a change change the
   * state back if and only if the cooldown has passed at the third, or the change was recorded at a
   * tick count of zero, which the controller takes for no change at all.
   */
  lemma ChangesBackExactly(run: seq<Control>, samples: seq<Sample>, estimate: nat -> nat, i: nat)
    requires IsRun(run, samples, estimate) && i + 3 < |samples| && ToggledAt(run, i)
    requires Opposed(run, samples, estimate, i)
    ensures !ToggledAt(run, i + 1) && !ToggledAt(run, i + 2)
    ensures ToggledAt(run, i + 3) <==>
      (samples[i + 3].at % TICKS - samples[i].at % TICKS) % TICKS >= MIN_INTERVAL || samples[i].at % TICKS == 0
  {
    hide StopWorthy, ResumeWorthy;
    var c := run[i + 1];
    assert c == Control(c.enabled, 0, 0, samples[i].at % TICKS);
    assert run[i + 2] == Monitor(c, samples[i + 1].reading, samples[i + 1].at % TICKS, estimate);
    assert run[i + 3] == Monitor(run[i + 2], samples[i + 2].reading, samples[i + 2].at % TICKS, estimate);
    assert run[i + 4] == Monitor(run[i + 3], samples[i + 3].reading, samples[i + 3].at % TICKS, estimate);
  }

  // ---------------------------------------------------------------- exactly when the state changes

  /**
   * A full battery: at least 4100 mV, and the charger says that it is done or the gauge says 100 percent or
   * more, or gives no charge at all where the voltage stands for that much.
   */
  predicate Full(r: Reading, estimate: nat -> nat) {
    r.vbat >= 4100 && (r.charger == 3 || r.soc >= 100 || (r.soc == 0 && estimate(r.vbat) >= 100))
  }

  predicate Drained(r: Reading) {
    1 <= r.vbat <= 3999
  }

  /** The readings at `k` and at the two steps before it, with charging in one state, all argue for the other. */
  ghost predicate ThirdInRow(run: seq<Control>, samples: seq<Sample>, estimate: nat -> nat, k: nat)
    requires |run| == |samples| + 1 && k < |samples|
  {
    k >= 2 && forall j :: k - 2 <= j <= k ==>
      && run[j].enabled == run[k].enabled
      && if run[k].enabled then Full(samples[j].reading, estimate) else Drained(samples[j].reading)
  }

  lemma ArguesExactly(r: Reading, estimate: nat -> nat)
    ensures StopWorthy(r, estimate) <==> Full(r, estimate)
    ensures ResumeWorthy(r) <==> Drained(r)
  {
  }

  /** Two readings that argued for a change and did not bring it about are on the counter. */
  lemma CountedTwice(run: seq<Control>, samples: seq<Sample>, estimate: nat -> nat, k: nat)
    requires IsRun(run, samples, estimate) && 2 <= k < |run|
    requires run[k - 2].enabled == run[k - 1].enabled == run[k].enabled
    ensures Counter(run[k]) >= 2 <==> forall j :: k - 2 <= j < k ==>
      if run[k].enabled then StopWorthy(samples[j].reading, estimate) else ResumeWorthy(samples[j].reading)
  {
    hide StopWorthy, ResumeWorthy, ToggleAllowed;
    assert run[k] == Monitor(run[k - 1], samples[k - 1].reading, samples[k - 1].at % TICKS, estimate);
    assert run[k - 1] == Monitor(run[k - 2], samples[k - 2].reading, samples[k - 2].at % TICKS, estimate);
  }

  /** Nothing is on record until the first change. */
  lemma {:induction false} NothingRecorded(run: seq<Control>, samples: seq<Sample>, estimate: nat -> nat, k: nat)
    requires IsRun(run, samples, estimate) && k < |run| && forall j :: 0 <= j < k ==> !ToggledAt(run, j)
    ensures run[k].lastToggle == 0 && run[k].enabled
  {
    if k > 0 {
      NothingRecorded(run, samples, estimate, k - 1);
      assert run[k] == Monitor(run[k - 1], samples[k - 1].reading, samples[k - 1].at % TICKS, estimate);
      assert !ToggledAt(run, k - 1);
    }
  }

  lemma TogglesByCounter(run: seq<Control>, samples: seq<Sample>, estimate: nat -> nat, k: nat)
    requires IsRun(run, samples, estimate) && k < |samples|
    ensures var r := samples[k].reading;
      ToggledAt(run, k) <==>
        && (if run[k].enabled then StopWorthy(r, estimate) else ResumeWorthy(r))
        && Counter(run[k]) >= 2 && ToggleAllowed(run[k], samples[k].at % TICKS)
  {
    hide StopWorthy, ResumeWorthy, ToggleAllowed;
    assert run[k + 1] == Monitor(run[k], samples[k].reading, samples[k].at % TICKS, estimate);
  }

  lemma CountedFromStart(run: seq<Control>, samples: seq<Sample>, estimate: nat -> nat, k: nat)
    requires IsRun(run, samples, estimate) && k < |samples|
    ensures ThirdInRow(run, samples, estimate, k) <==>
      && (if run[k].enabled then StopWorthy(samples[k].reading, estimate) else ResumeWorthy(samples[k].reading))
      && Counter(run[k]) >= 2
  {
    forall j | 0 <= j < |samples|
      ensures StopWorthy(samples[j].reading, estimate) <==> Full(samples[j].reading, estimate)
      ensures ResumeWorthy(samples[j].reading) <==> Drained(samples[j].reading)
    {
      ArguesExactly(samples[j].reading, estimate);
    }
    hide StopWorthy, ResumeWorthy, ToggleAllowed, Full, Drained;
    CountersCount(run, samples, estimate, k);
    if k >= 2 && run[k - 2].enabled == run[k - 1].enabled == run[k].enabled {
      CountedTwice(run, samples, estimate, k);
    }
  }

  /**
   * Exactly when the state changes, in every run: at the third reading in a row that argues for it, fifteen
   * seconds by the wrapped tick count after the latest change, unless that was recorded at tick zero or there
   * was none (`i` is then below zero).
   */
  lemma ToggledExactly(run: seq<Control>, samples: seq<Sample>, estimate: nat -> nat, i: int, k: nat)
    requires IsRun(run, samples, estimate) && -1 <= i < k < |samples|
    requires (i >= 0 ==> ToggledAt(run, i)) && forall j :: i < j < k ==> !ToggledAt(run, j)
    ensures ToggledAt(run, k) <==>
      && ThirdInRow(run, samples, estimate, k)
      && (i < 0 || samples[i].at % TICKS == 0 || (samples[k].at - samples[i].at) % TICKS >= 1500)
  {
    TogglesByCounter(run, samples, estimate, k);
    CountedFromStart(run, samples, estimate, k);
    hide IsRun, StopWorthy, ResumeWorthy, Counter, ThirdInRow, ToggledAt;
    if i < 0 {
      NothingRecorded(run, samples, estimate, k);
    } else {
      LastToggleRecorded(run, samples, estimate, i, k);
      TicksBetween(samples[i].at, samples[k].at);
    }
  }

  lemma TicksBetween(a: nat, b: nat)
    ensures (b % TICKS - a % TICKS) % TICKS == (b - a) % TICKS
  {
    var k := b / TICKS - a / TICKS;
    assert b % TICKS - a % TICKS == (b - a) - k * TICKS;
    assert ((b - a) - k * TICKS) % TICKS == (b - a) % TICKS;
  }

  const FULL: Reading := Reading(100, 4200, CHARGE_DONE)
  const LOW: Reading := Reading(60, 3900, 0)

  /** A change exactly when the tick count wraps to zero is undone three ticks later. */
  lemma CooldownMissed(estimate: nat -> nat) returns (run: seq<Control>, samples: seq<Sample>)
    ensures samples == [
      Sample(FULL, TICKS - 2), Sample(FULL, TICKS - 1), Sample(FULL, TICKS),
      Sample(LOW, TICKS + 1), Sample(LOW, TICKS + 2), Sample(LOW, TICKS + 3)]
    ensures IsRun(run, samples, estimate) && ToggledAt(run, 2) && ToggledAt(run, 5)
    ensures samples[5].at - samples[2].at == 3
  {
    samples := [
      Sample(FULL, TICKS - 2), Sample(FULL, TICKS - 1), Sample(FULL, TICKS),
      Sample(LOW, TICKS + 1), Sample(LOW, TICKS + 2), Sample(LOW, TICKS + 3)];
    run := [
      Control(true, 0, 0, 0), Control(true, 1, 0, 0), Control(true, 2, 0, 0),
      Control(false, 0, 0, 0), Control(false, 0, 1, 0), Control(false, 0, 2, 0), Control(true, 0, 0, 3)];
  }

  lemma WrappedDistance(a: nat, b: nat)
    requires a <= b
    ensures (b % TICKS - a % TICKS) % TICKS <= b - a
  {
    var d := b - a;
    var k := b / TICKS - a / TICKS;
    assert b % TICKS - a % TICKS == d - k * TICKS;
    assert (d - k * TICKS) % TICKS == d % TICKS;
  }

  function Toggles(run: seq<Control>, k: nat): nat
    requires k < |run|
  {
    if k == 0 then 0 else Toggles(run, k - 1) + if ToggledAt(run, k - 1) then 1 else 0
  }

  /** At most one change in three readings, over any run; the counter bounds what is left over. */
  lemma {:induction false} OneToggleInThree(run: seq<Control>, samples: seq<Sample>, estimate: nat -> nat, k: nat)
    requires IsRun(run, samples, estimate) && k < |run|
    ensures 3 * Toggles(run, k) + Min(Counter(run[k]), 2) <= k
  {
    if k > 0 {
      OneToggleInThree(run, samples, estimate, k - 1);
      CountersCount(run, samples, estimate, k - 1);
      assert run[k] == Monitor(run[k - 1], samples[k - 1].reading, samples[k - 1].at % TICKS, estimate);
    }
  }

  function Min(a: nat, b: nat): nat {
    if a < b then a else b
  }
}
