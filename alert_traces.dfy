/**
 * Sequences of samples fed to one rule's state machine, and the timing behaviour they show:
 * debounce, cooldown suppression, resolve-once and the auto-reset window.
 */
module AlertTraces {
  import opened Wrappers
  import opened AlertTracking

  /** One evaluation of a rule: whether its condition held, when, and the sampled value. */
  datatype Tick = Tick(met: bool, now: int, value: real)

  /** The record after a run of ticks, and the outcome of each tick in order. */
  datatype Trace = Trace(last: AlertRecord, outcomes: seq<Outcome>)

  /** Feeds the ticks, in order, to the state machine of a single rule. */
  function Run(r: AlertRecord, ticks: seq<Tick>, duration: int, cooldownMinutes: int): (t: Trace)
    requires WellFormed(r)
    ensures WellFormed(t.last)
    ensures |t.outcomes| == |ticks|
    decreases |ticks|
  {
    if ticks == [] then Trace(r, [])
    else
      var o := Transition(r, ticks[0].met, duration, cooldownMinutes, ticks[0].now, ticks[0].value);
      var rest := Run(o.record, ticks[1..], duration, cooldownMinutes);
      Trace(rest.last, [o] + rest.outcomes)
  }

  function CountFires(os: seq<Outcome>): nat
  {
    if os == [] then 0 else (if os[0].shouldFire then 1 else 0) + CountFires(os[1..])
  }

  /** No outcome in the run fired or resolved. */
  predicate Silent(os: seq<Outcome>)
  {
    forall i :: 0 <= i < |os| ==> !os[i].shouldFire && !os[i].shouldResolve
  }

  /** The fire counter of a record counts exactly the fire events of the run that produced it. */
  lemma {:induction false} RunFireCount(r: AlertRecord, ticks: seq<Tick>, duration: int, cooldownMinutes: int)
    requires WellFormed(r)
    ensures Run(r, ticks, duration, cooldownMinutes).last.fireCount
         == r.fireCount + CountFires(Run(r, ticks, duration, cooldownMinutes).outcomes)
    decreases |ticks|
  {
    if ticks != [] {
      var o := Transition(r, ticks[0].met, duration, cooldownMinutes, ticks[0].now, ticks[0].value);
      RunFireCount(o.record, ticks[1..], duration, cooldownMinutes);
      var os := Run(r, ticks, duration, cooldownMinutes).outcomes;
      assert os[1..] == Run(o.record, ticks[1..], duration, cooldownMinutes).outcomes;
    }
  }

  /** Running two batches of ticks one after the other is running their concatenation. */
  lemma {:induction false} RunAppend(r: AlertRecord, a: seq<Tick>, b: seq<Tick>, duration: int, cooldownMinutes: int)
    requires WellFormed(r)
    ensures var first := Run(r, a, duration, cooldownMinutes);
      var second := Run(first.last, b, duration, cooldownMinutes);
      Run(r, a + b, duration, cooldownMinutes) == Trace(second.last, first.outcomes + second.outcomes)
    decreases |a|
  {
    if a == [] {
      assert a + b == b;
    } else {
      var o := Transition(r, a[0].met, duration, cooldownMinutes, a[0].now, a[0].value);
      assert (a + b)[0] == a[0];
      assert (a + b)[1..] == a[1..] + b;
      RunAppend(o.record, a[1..], b, duration, cooldownMinutes);
    }
  }

  /** While the required duration has not yet passed, a PENDING rule stays exactly as it is. */
  lemma {:induction false} StaysPending(r: AlertRecord, ticks: seq<Tick>, duration: int, cooldownMinutes: int)
    requires WellFormed(r) && r.state == Pending
    requires forall i :: 0 <= i < |ticks| ==> ticks[i].met && ticks[i].now - r.firstTriggered.value < duration
    ensures Run(r, ticks, duration, cooldownMinutes).last == r
    ensures Silent(Run(r, ticks, duration, cooldownMinutes).outcomes)
    decreases |ticks|
  {
    if ticks != [] {
      PendingDebounce(r, duration, cooldownMinutes, ticks[0].now, ticks[0].value);
      StaysPending(r, ticks[1..], duration, cooldownMinutes);
    }
  }

  /** Within the cooldown window a FIRING rule stays exactly as it is, its value included. */
  lemma {:induction false} WithinCooldown(r: AlertRecord, ticks: seq<Tick>, duration: int, cooldownMinutes: int)
    requires WellFormed(r) && r.state == Firing
    requires forall i :: 0 <= i < |ticks| ==>
      ticks[i].met && ticks[i].now - r.lastFired.value <= cooldownMinutes * SecondsPerMinute
    ensures Run(r, ticks, duration, cooldownMinutes).last == r
    ensures Silent(Run(r, ticks, duration, cooldownMinutes).outcomes)
    decreases |ticks|
  {
    if ticks != [] {
      FiringCooldown(r, duration, cooldownMinutes, ticks[0].now, ticks[0].value);
      WithinCooldown(r, ticks[1..], duration, cooldownMinutes);
    }
  }

  /**
   * A PENDING rule whose condition keeps holding fires at tick k, the first tick at least
   * `duration` seconds after its trigger time, and at no other tick as long as the later ticks
   * fall within the cooldown after that fire.
   */
  lemma {:induction false} FiresOnceFromPending(p: AlertRecord, ticks: seq<Tick>, duration: int, cooldownMinutes: int, k: nat)
    requires WellFormed(p) && p.state == Pending
    requires forall i :: 0 <= i < |ticks| ==> ticks[i].met
    requires k < |ticks|
    requires forall j :: 0 <= j < k ==> ticks[j].now - p.firstTriggered.value < duration
    requires ticks[k].now - p.firstTriggered.value >= duration
    requires forall j :: k < j < |ticks| ==> ticks[j].now - ticks[k].now <= cooldownMinutes * SecondsPerMinute
    ensures var t := Run(p, ticks, duration, cooldownMinutes);
      && t.outcomes[k].shouldFire && !t.outcomes[k].shouldResolve
      && (forall j :: 0 <= j < |ticks| && j != k ==> !t.outcomes[j].shouldFire)
      && Silent(t.outcomes[..k]) && Silent(t.outcomes[k + 1..])
      && t.last == Fired(p, ticks[k].now, ticks[k].value)
    decreases k
  {
    PendingDebounce(p, duration, cooldownMinutes, ticks[0].now, ticks[0].value);
    var o := Transition(p, true, duration, cooldownMinutes, ticks[0].now, ticks[0].value);
    var rest := Run(o.record, ticks[1..], duration, cooldownMinutes);
    var t := Run(p, ticks, duration, cooldownMinutes);
    assert t.outcomes == [o] + rest.outcomes;
    if k == 0 {
      WithinCooldown(o.record, ticks[1..], duration, cooldownMinutes);
      assert t.outcomes[1..] == rest.outcomes;
    } else {
      FiresOnceFromPending(p, ticks[1..], duration, cooldownMinutes, k - 1);
      assert t.outcomes[k + 1..] == rest.outcomes[k..];
      assert t.outcomes[..k] == [o] + rest.outcomes[..k - 1];
    }
  }

  /**
   * Debounce: a condition that holds at every tick from a NORMAL start fires exactly once, at
   * tick k, the first later tick at least `duration` seconds after the first one, provided the
   * remaining ticks fall within the cooldown after it. Nothing resolves.
   */
  lemma Debounce(r: AlertRecord, ticks: seq<Tick>, duration: int, cooldownMinutes: int, k: nat)
    requires WellFormed(r) && r.state == Normal
    requires forall i :: 0 <= i < |ticks| ==> ticks[i].met
    requires 1 <= k < |ticks|
    requires forall j :: 1 <= j < k ==> ticks[j].now - ticks[0].now < duration
    requires ticks[k].now - ticks[0].now >= duration
    requires forall j :: k < j < |ticks| ==> ticks[j].now - ticks[k].now <= cooldownMinutes * SecondsPerMinute
    ensures var t := Run(r, ticks, duration, cooldownMinutes);
      && t.outcomes[k].shouldFire
      && (forall j :: 0 <= j < |ticks| && j != k ==> !t.outcomes[j].shouldFire)
      && (forall j :: 0 <= j < |ticks| ==> !t.outcomes[j].shouldResolve)
      && t.last.state == Firing && t.last.lastFired == Some(ticks[k].now)
      && t.last.fireCount == r.fireCount + 1
  {
    MetEntersPending(r, duration, cooldownMinutes, ticks[0].now, ticks[0].value);
    var o := Transition(r, true, duration, cooldownMinutes, ticks[0].now, ticks[0].value);
    var rest := Run(o.record, ticks[1..], duration, cooldownMinutes);
    FiresOnceFromPending(o.record, ticks[1..], duration, cooldownMinutes, k - 1);
    var t := Run(r, ticks, duration, cooldownMinutes);
    assert t.outcomes == [o] + rest.outcomes;
    forall j | 1 <= j < |ticks|
      ensures !t.outcomes[j].shouldResolve
    {
      assert t.outcomes[j] == rest.outcomes[j - 1];
      if j - 1 < k - 1 {
        assert rest.outcomes[j - 1] == rest.outcomes[..k - 1][j - 1];
      } else if j - 1 > k - 1 {
        assert rest.outcomes[j - 1] == rest.outcomes[k..][j - 1 - k];
      }
    }
  }

  /** NORMAL and RESOLVED stay silent, and stay NORMAL or RESOLVED, while the condition does not hold. */
  lemma {:induction false} QuietRun(r: AlertRecord, ticks: seq<Tick>, duration: int, cooldownMinutes: int)
    requires WellFormed(r) && (r.state == Normal || r.state == Resolved)
    requires forall i :: 0 <= i < |ticks| ==> !ticks[i].met
    ensures var t := Run(r, ticks, duration, cooldownMinutes);
      Silent(t.outcomes) && (t.last.state == Normal || t.last.state == Resolved)
    decreases |ticks|
  {
    if ticks != [] {
      QuietWhileNotMet(r, duration, cooldownMinutes, ticks[0].now, ticks[0].value);
      var o := Transition(r, false, duration, cooldownMinutes, ticks[0].now, ticks[0].value);
      QuietRun(o.record, ticks[1..], duration, cooldownMinutes);
    }
  }

  /**
   * Resolve-once: while the condition does not hold, a rule emits a resolve at the first tick
   * when it was PENDING or FIRING, and never anything else.
   */
  lemma ResolveOnce(r: AlertRecord, ticks: seq<Tick>, duration: int, cooldownMinutes: int)
    requires WellFormed(r)
    requires forall i :: 0 <= i < |ticks| ==> !ticks[i].met
    ensures var t := Run(r, ticks, duration, cooldownMinutes);
      forall i :: 0 <= i < |ticks| ==>
        && !t.outcomes[i].shouldFire
        && (t.outcomes[i].shouldResolve <==> i == 0 && (r.state == Pending || r.state == Firing))
  {
    if ticks != [] {
      var o := Transition(r, false, duration, cooldownMinutes, ticks[0].now, ticks[0].value);
      var rest := Run(o.record, ticks[1..], duration, cooldownMinutes);
      QuietRun(o.record, ticks[1..], duration, cooldownMinutes);
      var t := Run(r, ticks, duration, cooldownMinutes);
      forall i | 1 <= i < |ticks|
        ensures !t.outcomes[i].shouldFire && !t.outcomes[i].shouldResolve
      {
        assert t.outcomes[i] == rest.outcomes[i - 1];
      }
    }
  }

  /**
   * Auto-reset window: a RESOLVED rule whose condition keeps not holding stays exactly as it is
   * for as long as at most five minutes have passed since it resolved.
   */
  lemma {:induction false} StaysResolved(r: AlertRecord, ticks: seq<Tick>, duration: int, cooldownMinutes: int)
    requires WellFormed(r) && r.state == Resolved
    requires forall i :: 0 <= i < |ticks| ==>
      !ticks[i].met && ticks[i].now - r.lastResolved.value <= AutoResetSeconds
    ensures Run(r, ticks, duration, cooldownMinutes).last == r
    ensures Silent(Run(r, ticks, duration, cooldownMinutes).outcomes)
    decreases |ticks|
  {
    if ticks != [] {
      QuietWhileNotMet(r, duration, cooldownMinutes, ticks[0].now, ticks[0].value);
      StaysResolved(r, ticks[1..], duration, cooldownMinutes);
    }
  }

  /**
   * Duration 120 s, condition held at 0, 30, 60, 90 and 120 s: the alert fires at 120 s and at
   * no other tick.
   */
  lemma BoundaryExample(cooldownMinutes: int, v: real)
    ensures var ticks := [Tick(true, 0, v), Tick(true, 30, v), Tick(true, 60, v), Tick(true, 90, v), Tick(true, 120, v)];
      var t := Run(Fresh, ticks, 120, cooldownMinutes);
      t.outcomes[4].shouldFire && forall j :: 0 <= j < 4 ==> !t.outcomes[j].shouldFire
  {
    var ticks := [Tick(true, 0, v), Tick(true, 30, v), Tick(true, 60, v), Tick(true, 90, v), Tick(true, 120, v)];
    Debounce(Fresh, ticks, 120, cooldownMinutes, 4);
  }

  /**
   * Cooldown 15 minutes after a fire at 0 s: the condition still holding at 10 minutes fires
   * nothing; at 16 minutes it fires again and the fire count becomes 2.
   */
  lemma CooldownExample(duration: int, v: real)
    ensures var firing := Fired(Fresh.(state := Pending, firstTriggered := Some(0), currentValue := Some(v)), 0, v);
      var t := Run(firing, [Tick(true, 600, v), Tick(true, 960, v)], duration, 15);
      && firing.fireCount == 1
      && !t.outcomes[0].shouldFire && t.outcomes[1].shouldFire && t.last.fireCount == 2
  {
    var firing := Fired(Fresh.(state := Pending, firstTriggered := Some(0), currentValue := Some(v)), 0, v);
    var ticks := [Tick(true, 600, v), Tick(true, 960, v)];
    FiringCooldown(firing, duration, 15, 600, v);
    FiringCooldown(firing, duration, 15, 960, v);
    assert ticks[1..] == [Tick(true, 960, v)];
    assert ticks[1..][1..] == [];
    var second := Transition(firing, true, duration, 15, 960, v);
    assert Run(firing, ticks[1..], duration, 15).last == Run(second.record, [], duration, 15).last == second.record;
  }

  /** One minute before the auto-reset boundary a resolved rule is still RESOLVED; just after it, NORMAL. */
  lemma AutoResetExample(r: AlertRecord, duration: int, cooldownMinutes: int, v: real)
    requires WellFormed(r) && r.state == Resolved && r.lastResolved == Some(0)
    ensures Run(r, [Tick(false, 240, v)], duration, cooldownMinutes).last.state == Resolved
    ensures Run(r, [Tick(false, 301, v)], duration, cooldownMinutes).last.state == Normal
  {
  }
}
