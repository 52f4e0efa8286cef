/**
 * The per-rule alert state machine and the store that keeps one alert record per rule name.
 *
 * Time is a whole number of seconds supplied by the caller (`now`); the tracker never reads a
 * clock of its own.
 */
module AlertTracking {
  import opened Wrappers

  /** Cooldowns are configured in minutes and compared in seconds. */
  const SecondsPerMinute: int := 60

  /** A RESOLVED alert falls back to NORMAL once strictly more than five minutes have passed. */
  const AutoResetSeconds: int := 5 * SecondsPerMinute

  datatype State = Normal | Pending | Firing | Resolved

  /** The text each state is reported as. */
  function StateName(s: State): string
  {
    match s
    case Normal => "normal"
    case Pending => "pending"
    case Firing => "firing"
    case Resolved => "resolved"
  }

  lemma StateNameInjective(a: State, b: State)
    ensures StateName(a) == StateName(b) <==> a == b
  {
  }

  /** What the tracker remembers about one rule. */
  datatype AlertRecord = AlertRecord(
    state: State,
    firstTriggered: Option<int>,
    lastFired: Option<int>,
    lastResolved: Option<int>,
    fireCount: nat,
    currentValue: Option<real>)

  /** The record a rule gets the first time the tracker hears of it. */
  const Fresh: AlertRecord := AlertRecord(Normal, None, None, None, 0, None)

  /**
   * The consistency every stored record keeps:
   * a trigger time exactly while PENDING or FIRING (it survives PENDING -> FIRING),
   * a fire time whenever FIRING, a resolve time whenever RESOLVED,
   * a fire time exactly once something has fired, and a value once the rule left NORMAL.
   */
  predicate WellFormed(r: AlertRecord)
  {
    && (r.firstTriggered.Some? <==> r.state == Pending || r.state == Firing)
    && (r.state == Firing ==> r.lastFired.Some?)
    && (r.state == Resolved ==> r.lastResolved.Some?)
    && (r.lastFired.Some? <==> r.fireCount > 0)
    && (r.state != Normal ==> r.currentValue.Some?)
  }

  predicate AllWellFormed(alerts: map<string, AlertRecord>)
  {
    forall name :: name in alerts ==> WellFormed(alerts[name])
  }

  /** The record stored for `name`, or the fresh NORMAL record when there is none yet. */
  function Lookup(alerts: map<string, AlertRecord>, name: string): (r: AlertRecord)
    ensures name in alerts ==> r == alerts[name]
    ensures name !in alerts ==>
      && r.state == Normal && r.fireCount == 0
      && r.firstTriggered.None? && r.lastFired.None? && r.lastResolved.None?
      && r.currentValue.None?
    ensures AllWellFormed(alerts) ==> WellFormed(r)
  {
    if name in alerts then alerts[name] else Fresh
  }

  /** What one update produces: the new record and the two notification decisions. */
  datatype Outcome = Outcome(record: AlertRecord, shouldFire: bool, shouldResolve: bool)
  {
    /** The state reported back to the caller. */
    function State(): State { record.state }
  }

  /** The record after a fire event at `now`. */
  function Fired(r: AlertRecord, now: int, value: real): AlertRecord
  {
    r.(state := Firing, lastFired := Some(now), fireCount := r.fireCount + 1, currentValue := Some(value))
  }

  /**
   * One sample of the rule's condition applied to its record.
   * PENDING fires once `duration` seconds have passed since the first trigger (>=);
   * FIRING fires again only strictly after the cooldown; RESOLVED falls back to NORMAL
   * only strictly after the auto-reset window.
   */
  function Transition(r: AlertRecord, met: bool, duration: int, cooldownMinutes: int, now: int, value: real): (o: Outcome)
    requires WellFormed(r)
    ensures WellFormed(o.record)
  {
    match r.state
    case Normal =>
      if met then Outcome(r.(state := Pending, firstTriggered := Some(now), currentValue := Some(value)), false, false)
      else Outcome(r, false, false)
    case Pending =>
      if !met then Outcome(r.(state := Resolved, lastResolved := Some(now), firstTriggered := None), false, true)
      else if now - r.firstTriggered.value >= duration then Outcome(Fired(r, now, value), true, false)
      else Outcome(r, false, false)
    case Firing =>
      if !met then Outcome(r.(state := Resolved, lastResolved := Some(now), firstTriggered := None), false, true)
      else if r.lastFired.Some? && now - r.lastFired.value > cooldownMinutes * SecondsPerMinute then
        Outcome(Fired(r, now, value), true, false)
      else Outcome(r, false, false)
    case Resolved =>
      if met then Outcome(r.(state := Pending, firstTriggered := Some(now), currentValue := Some(value)), false, false)
      else if r.lastResolved.Some? && now - r.lastResolved.value > AutoResetSeconds then
        Outcome(r.(state := Normal), false, false)
      else Outcome(r, false, false)
  }

  /**
   * What every update guarantees: never a fire and a resolve together; the fire count grows by
   * one exactly on a fire; a fire happens only on a met condition in PENDING or FIRING and
   * leaves the rule FIRING with the fire time and value recorded; a resolve happens exactly
   * when the condition stops holding in PENDING or FIRING; a met condition always ends in
   * PENDING or FIRING, and FIRING is never entered straight from NORMAL or RESOLVED.
   */
  lemma TransitionFacts(r: AlertRecord, met: bool, duration: int, cooldownMinutes: int, now: int, value: real)
    requires WellFormed(r)
    ensures var o := Transition(r, met, duration, cooldownMinutes, now, value);
      && !(o.shouldFire && o.shouldResolve)
      && o.record.fireCount == r.fireCount + (if o.shouldFire then 1 else 0)
      && (o.shouldFire ==>
            && met && (r.state == Pending || r.state == Firing)
            && o.record.state == Firing && o.record.lastFired == Some(now) && o.record.currentValue == Some(value))
      && (o.shouldResolve <==> !met && (r.state == Pending || r.state == Firing))
      && (o.shouldResolve ==> o.record.state == Resolved && o.record.lastResolved == Some(now))
      && (met <==> o.record.state == Pending || o.record.state == Firing)
      && (o.record.state == Firing ==> r.state == Pending || r.state == Firing)
  {
  }

  /** Debounce: a met condition in PENDING fires exactly once `duration` seconds have passed. */
  lemma PendingDebounce(r: AlertRecord, duration: int, cooldownMinutes: int, now: int, value: real)
    requires WellFormed(r) && r.state == Pending
    ensures var o := Transition(r, true, duration, cooldownMinutes, now, value);
      && (o.shouldFire <==> now - r.firstTriggered.value >= duration)
      && (o.shouldFire ==> o.record == Fired(r, now, value) && o.record.firstTriggered == r.firstTriggered)
      && (!o.shouldFire ==> o.record == r)
  {
  }

  /** Cooldown: a met condition in FIRING fires again only strictly after the cooldown. */
  lemma FiringCooldown(r: AlertRecord, duration: int, cooldownMinutes: int, now: int, value: real)
    requires WellFormed(r) && r.state == Firing
    ensures var o := Transition(r, true, duration, cooldownMinutes, now, value);
      && (o.shouldFire <==> now - r.lastFired.value > cooldownMinutes * SecondsPerMinute)
      && (o.shouldFire ==> o.record == Fired(r, now, value))
      && (!o.shouldFire ==> o.record == r)
  {
  }

  /** A met condition in NORMAL or RESOLVED re-enters PENDING, never FIRING, and emits nothing. */
  lemma MetEntersPending(r: AlertRecord, duration: int, cooldownMinutes: int, now: int, value: real)
    requires WellFormed(r) && (r.state == Normal || r.state == Resolved)
    ensures var o := Transition(r, true, duration, cooldownMinutes, now, value);
      && o.record == r.(state := Pending, firstTriggered := Some(now), currentValue := Some(value))
      && !o.shouldFire && !o.shouldResolve
  {
  }

  /** A condition that stops holding in PENDING or FIRING resolves, exactly once. */
  lemma NotMetResolves(r: AlertRecord, duration: int, cooldownMinutes: int, now: int, value: real)
    requires WellFormed(r) && (r.state == Pending || r.state == Firing)
    ensures var o := Transition(r, false, duration, cooldownMinutes, now, value);
      && o.record == r.(state := Resolved, lastResolved := Some(now), firstTriggered := None)
      && o.shouldResolve && !o.shouldFire
  {
  }

  /**
   * A condition that does not hold in NORMAL or RESOLVED emits nothing; RESOLVED falls back to
   * NORMAL exactly when more than five minutes passed since it resolved, and nothing else changes.
   */
  lemma QuietWhileNotMet(r: AlertRecord, duration: int, cooldownMinutes: int, now: int, value: real)
    requires WellFormed(r) && (r.state == Normal || r.state == Resolved)
    ensures var o := Transition(r, false, duration, cooldownMinutes, now, value);
      && !o.shouldFire && !o.shouldResolve
      && (r.state == Normal ==> o.record == r)
      && (r.state == Resolved ==>
            (o.record.state == Normal <==> now - r.lastResolved.value > AutoResetSeconds)
            && o.record == r.(state := o.record.state))
  {
  }

  /** The view of a record the status endpoints report: timestamps, not the trigger time. */
  datatype AlertSummary = AlertSummary(
    state: string,
    fireCount: nat,
    lastFired: Option<int>,
    lastResolved: Option<int>,
    currentValue: Option<real>)

  function Summarize(r: AlertRecord): AlertSummary
  {
    AlertSummary(StateName(r.state), r.fireCount, r.lastFired, r.lastResolved, r.currentValue)
  }

  /** The reported state string identifies the state of the record it came from. */
  lemma SummaryStateIdentifies(r: AlertRecord, q: AlertRecord)
    ensures Summarize(r).state == Summarize(q).state <==> r.state == q.state
  {
    StateNameInjective(r.state, q.state);
  }

  /** The keyed store of alert records, one per rule name. */
  class AlertTracker {
    const cooldownMinutes: int
    var alerts: map<string, AlertRecord>

    ghost predicate Valid()
      reads this
    {
      AllWellFormed(alerts)
    }

    constructor (cooldownMinutes: int)
      ensures Valid()
      ensures this.cooldownMinutes == cooldownMinutes && alerts == map[]
    {
      this.cooldownMinutes := cooldownMinutes;
      alerts := map[];
    }

    /**
     * Applies one sample of a rule's condition at time `now`: the rule's record (created fresh
     * if unknown) becomes the transitioned record; no other rule's record changes.
     */
    method UpdateAlertState(ruleName: string, conditionMet: bool, durationSeconds: int, currentValue: real, now: int)
      returns (shouldFire: bool, shouldResolve: bool, state: State)
      requires Valid()
      modifies this
      ensures Valid()
      ensures var o := Transition(Lookup(old(alerts), ruleName), conditionMet, durationSeconds, cooldownMinutes, now, currentValue);
        && alerts == old(alerts)[ruleName := o.record]
        && shouldFire == o.shouldFire && shouldResolve == o.shouldResolve && state == o.State()
    {
      if ruleName !in alerts {
        alerts := alerts[ruleName := Fresh];
      }
      var alert := alerts[ruleName];
      shouldFire, shouldResolve := false, false;
      if conditionMet {
        if alert.state == Normal {
          alert := alert.(state := Pending, firstTriggered := Some(now), currentValue := Some(currentValue));
        } else if alert.state == Pending {
          var timeInPending := now - alert.firstTriggered.value;
          if timeInPending >= durationSeconds {
            alert := alert.(state := Firing, lastFired := Some(now), fireCount := alert.fireCount + 1);
            alert := alert.(currentValue := Some(currentValue));
            shouldFire := true;
          }
        } else if alert.state == Firing {
          if alert.lastFired.Some? {
            var timeSinceLast := now - alert.lastFired.value;
            if timeSinceLast > cooldownMinutes * SecondsPerMinute {
              alert := alert.(lastFired := Some(now), fireCount := alert.fireCount + 1);
              alert := alert.(currentValue := Some(currentValue));
              shouldFire := true;
            }
          }
        } else {
          alert := alert.(state := Pending, firstTriggered := Some(now), currentValue := Some(currentValue));
        }
      } else {
        if alert.state == Firing || alert.state == Pending {
          alert := alert.(state := Resolved, lastResolved := Some(now), firstTriggered := None);
          shouldResolve := true;
        } else if alert.state == Resolved {
          if alert.lastResolved.Some? {
            var timeSinceResolved := now - alert.lastResolved.value;
            if timeSinceResolved > AutoResetSeconds {
              alert := alert.(state := Normal);
            }
          }
        }
      }
      alerts := alerts[ruleName := alert];
      state := alert.state;
    }

    /** The stored record of a rule, without creating one. */
    method GetAlertInfo(ruleName: string) returns (info: Option<AlertRecord>)
      ensures info.Some? <==> ruleName in alerts
      ensures info.Some? ==> info.value == alerts[ruleName]
    {
      info := if ruleName in alerts then Some(alerts[ruleName]) else None;
    }

    /** The reported view of every stored record, keyed by exactly the stored rule names. */
    method GetAllAlerts() returns (result: map<string, AlertSummary>)
      ensures result.Keys == alerts.Keys
      ensures forall name :: name in result ==> result[name] == Summarize(alerts[name])
    {
      result := map[];
      var rest := alerts.Keys;
      while rest != {}
        invariant rest <= alerts.Keys
        invariant result.Keys == alerts.Keys - rest
        invariant forall name :: name in result ==> result[name] == Summarize(alerts[name])
        decreases rest
      {
        var name :| name in rest;
        result := result[name := Summarize(alerts[name])];
        rest := rest - {name};
      }
    }

    /** Forgets every rule; later updates start again from fresh records. */
    method Reset()
      modifies this
      ensures Valid()
      ensures alerts == map[]
    {
      alerts := map[];
    }
  }
}
