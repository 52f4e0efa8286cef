/**
 * One evaluation pass over the configured rules: sample each rule's metric, compare it with the
 * threshold, feed the result to the alert tracker, and hand fire and resolve events to the
 * notification sink.
 *
 * The metric source is a map from metric name to its current value (a missing name is an
 * unavailable sample); the sink records every call it receives.
 */
module RuleEvaluation {
  import opened Wrappers
  import opened AlertTracking

  /** A rule as the engine reads it from the configuration. */
  datatype Rule = Rule(
    name: string,
    metric: string,
    condition: string,
    threshold: real,
    duration: int,
    severity: string,
    emailSubject: string,
    emailBody: string,
    resolutionNotification: Option<bool>)

  /** Resolution notifications are on unless the rule switches them off. */
  function ResolutionEnabled(rule: Rule): bool
  {
    rule.resolutionNotification.GetOr(true)
  }

  /** The comparison operators a rule's condition may name. */
  const Operators: set<string> := {">", "<", ">=", "<=", "==", "!="}

  /** Whether `value` stands in relation `condition` to `threshold`; any other operator is false. */
  function CheckCondition(value: real, condition: string, threshold: real): (met: bool)
    ensures condition !in Operators ==> !met
    ensures condition == ">" ==> (met <==> value > threshold)
    ensures condition == "<" ==> (met <==> value < threshold)
    ensures condition == ">=" ==> (met <==> value >= threshold)
    ensures condition == "<=" ==> (met <==> value <= threshold)
    ensures condition == "==" ==> (met <==> value == threshold)
    ensures condition == "!=" ==> (met <==> value != threshold)
  {
    if condition == ">" then value > threshold
    else if condition == "<" then value < threshold
    else if condition == ">=" then value >= threshold
    else if condition == "<=" then value <= threshold
    else if condition == "==" then value == threshold
    else if condition == "!=" then value != threshold
    else false
  }

  /** The operator that holds exactly when `op` does not. */
  function Negation(op: string): string
    requires op in Operators
  {
    if op == ">" then "<=" else if op == "<=" then ">"
    else if op == "<" then ">=" else if op == ">=" then "<"
    else if op == "==" then "!=" else "=="
  }

  /** The operator that holds with its operands swapped. */
  function Converse(op: string): string
    requires op in Operators
  {
    if op == ">" then "<" else if op == "<" then ">"
    else if op == ">=" then "<=" else if op == "<=" then ">="
    else op
  }

  /** Each known operator has a known negation, and the two never agree. */
  lemma NegationComplements(value: real, op: string, threshold: real)
    requires op in Operators
    ensures Negation(op) in Operators
    ensures CheckCondition(value, Negation(op), threshold) == !CheckCondition(value, op, threshold)
  {
  }

  /** Swapping the operands and the direction of a known operator gives the same answer. */
  lemma ConverseSwaps(value: real, op: string, threshold: real)
    requires op in Operators
    ensures Converse(op) in Operators
    ensures CheckCondition(threshold, Converse(op), value) == CheckCondition(value, op, threshold)
  {
  }

  /** The value of a metric, or None when the source has no data for it. */
  function Sample(samples: map<string, real>, metric: string): Option<real>
  {
    if metric in samples then Some(samples[metric]) else None
  }

  /** A call the engine makes into the notification sink. */
  datatype Notification = FireNote(rule: Rule, value: real) | ResolveNote(rule: Rule, value: real)

  /** What evaluating rules does: the new alert store, the sink calls in order, and the fires counted. */
  datatype Effect = Effect(alerts: map<string, AlertRecord>, notes: seq<Notification>, fired: nat)

  function CountFireNotes(notes: seq<Notification>): nat
  {
    if notes == [] then 0 else (if notes[0].FireNote? then 1 else 0) + CountFireNotes(notes[1..])
  }

  lemma {:induction false} CountFireNotesAppend(a: seq<Notification>, b: seq<Notification>)
    ensures CountFireNotes(a + b) == CountFireNotes(a) + CountFireNotes(b)
    decreases |a|
  {
    if a == [] {
      assert a + b == b;
    } else {
      assert (a + b)[1..] == a[1..] + b;
      CountFireNotesAppend(a[1..], b);
    }
  }

  /**
   * Evaluating one rule at time `now`. Without a sample nothing happens. Otherwise the rule's
   * record (and no other) takes the transition; a fire is passed to the sink and counted when
   * there is a sink; a resolve is passed on when there is a sink and the rule enables it.
   */
  function RuleEffect(alerts: map<string, AlertRecord>, cooldownMinutes: int, hasNotifier: bool,
                      rule: Rule, samples: map<string, real>, now: int): (e: Effect)
    requires AllWellFormed(alerts)
    ensures AllWellFormed(e.alerts)
    ensures rule.metric !in samples ==> e == Effect(alerts, [], 0)
    ensures |e.notes| <= 1 && e.fired == CountFireNotes(e.notes)
    ensures !hasNotifier ==> e.notes == []
  {
    match Sample(samples, rule.metric)
    case None => Effect(alerts, [], 0)
    case Some(value) =>
      var met := CheckCondition(value, rule.condition, rule.threshold);
      var o := Transition(Lookup(alerts, rule.name), met, rule.duration, cooldownMinutes, now, value);
      var alerts' := alerts[rule.name := o.record];
      if o.shouldFire && hasNotifier then Effect(alerts', [FireNote(rule, value)], 1)
      else if o.shouldResolve && hasNotifier && ResolutionEnabled(rule) then Effect(alerts', [ResolveNote(rule, value)], 0)
      else Effect(alerts', [], 0)
  }

  /** Evaluating a rule gives a record to that rule if it was sampled, and touches no other record. */
  lemma RuleEffectFrame(alerts: map<string, AlertRecord>, cooldownMinutes: int, hasNotifier: bool,
                        rule: Rule, samples: map<string, real>, now: int)
    requires AllWellFormed(alerts)
    ensures var e := RuleEffect(alerts, cooldownMinutes, hasNotifier, rule, samples, now);
      && e.alerts.Keys == alerts.Keys + (if rule.metric in samples then {rule.name} else {})
      && forall n :: n in alerts && n != rule.name ==> e.alerts[n] == alerts[n]
  {
  }

  /**
   * Every sink call a rule's evaluation makes carries that rule and its sampled value, and a
   * resolve is passed on only when the rule enables resolution notifications.
   */
  lemma RuleEffectNotes(alerts: map<string, AlertRecord>, cooldownMinutes: int, hasNotifier: bool,
                        rule: Rule, samples: map<string, real>, now: int)
    requires AllWellFormed(alerts)
    ensures var e := RuleEffect(alerts, cooldownMinutes, hasNotifier, rule, samples, now);
      forall note :: note in e.notes ==>
        && rule.metric in samples && note.rule == rule && note.value == samples[rule.metric]
        && (note.ResolveNote? ==> ResolutionEnabled(rule))
  {
  }

  /** A fire reaches the sink exactly when the transition fired and a sink is configured. */
  lemma FireNotifiedIffFired(alerts: map<string, AlertRecord>, cooldownMinutes: int, hasNotifier: bool,
                             rule: Rule, samples: map<string, real>, now: int)
    requires AllWellFormed(alerts) && rule.metric in samples
    ensures var value := samples[rule.metric];
      var o := Transition(Lookup(alerts, rule.name), CheckCondition(value, rule.condition, rule.threshold),
                          rule.duration, cooldownMinutes, now, value);
      var e := RuleEffect(alerts, cooldownMinutes, hasNotifier, rule, samples, now);
      && e.alerts[rule.name] == o.record
      && (e.fired == 1 <==> o.shouldFire && hasNotifier)
      && (e.notes == [ResolveNote(rule, value)] <==> o.shouldResolve && hasNotifier && ResolutionEnabled(rule))
  {
  }

  /** Evaluating the rules one after another, in list order. */
  function PassEffect(alerts: map<string, AlertRecord>, cooldownMinutes: int, hasNotifier: bool,
                      rules: seq<Rule>, samples: map<string, real>, now: int): (e: Effect)
    requires AllWellFormed(alerts)
    ensures AllWellFormed(e.alerts)
    decreases |rules|
  {
    if rules == [] then Effect(alerts, [], 0)
    else
      var step := RuleEffect(alerts, cooldownMinutes, hasNotifier, rules[0], samples, now);
      var rest := PassEffect(step.alerts, cooldownMinutes, hasNotifier, rules[1..], samples, now);
      Effect(rest.alerts, step.notes + rest.notes, step.fired + rest.fired)
  }

  /** Rule order: a pass over `a + b` is the pass over `a` followed by the pass over `b`. */
  lemma {:induction false} PassAppend(alerts: map<string, AlertRecord>, cooldownMinutes: int, hasNotifier: bool,
                                      a: seq<Rule>, b: seq<Rule>, samples: map<string, real>, now: int)
    requires AllWellFormed(alerts)
    ensures var first := PassEffect(alerts, cooldownMinutes, hasNotifier, a, samples, now);
      var second := PassEffect(first.alerts, cooldownMinutes, hasNotifier, b, samples, now);
      PassEffect(alerts, cooldownMinutes, hasNotifier, a + b, samples, now)
        == Effect(second.alerts, first.notes + second.notes, first.fired + second.fired)
    decreases |a|
  {
    if a == [] {
      assert a + b == b;
    } else {
      assert (a + b)[0] == a[0];
      assert (a + b)[1..] == a[1..] + b;
      var step := RuleEffect(alerts, cooldownMinutes, hasNotifier, a[0], samples, now);
      PassAppend(step.alerts, cooldownMinutes, hasNotifier, a[1..], b, samples, now);
      var rest := PassEffect(step.alerts, cooldownMinutes, hasNotifier, a[1..], samples, now);
      var second := PassEffect(rest.alerts, cooldownMinutes, hasNotifier, b, samples, now);
      assert step.notes + (rest.notes + second.notes) == (step.notes + rest.notes) + second.notes;
    }
  }

  /** A pass over one rule is that rule's evaluation. */
  lemma PassSingle(alerts: map<string, AlertRecord>, cooldownMinutes: int, hasNotifier: bool,
                   rule: Rule, samples: map<string, real>, now: int)
    requires AllWellFormed(alerts)
    ensures PassEffect(alerts, cooldownMinutes, hasNotifier, [rule], samples, now)
         == RuleEffect(alerts, cooldownMinutes, hasNotifier, rule, samples, now)
  {
    var step := RuleEffect(alerts, cooldownMinutes, hasNotifier, rule, samples, now);
    assert [rule][1..] == [];
    assert step.notes + [] == step.notes;
  }

  /** Extending a pass over a prefix of the rules by the next rule evaluates that rule last. */
  lemma PassPrefixStep(alerts: map<string, AlertRecord>, cooldownMinutes: int, hasNotifier: bool,
                       rules: seq<Rule>, i: nat, samples: map<string, real>, now: int)
    requires AllWellFormed(alerts) && i < |rules|
    ensures var before := PassEffect(alerts, cooldownMinutes, hasNotifier, rules[..i], samples, now);
      var step := RuleEffect(before.alerts, cooldownMinutes, hasNotifier, rules[i], samples, now);
      PassEffect(alerts, cooldownMinutes, hasNotifier, rules[..i + 1], samples, now)
        == Effect(step.alerts, before.notes + step.notes, before.fired + step.fired)
  {
    var before := PassEffect(alerts, cooldownMinutes, hasNotifier, rules[..i], samples, now);
    PassAppend(alerts, cooldownMinutes, hasNotifier, rules[..i], [rules[i]], samples, now);
    PassSingle(before.alerts, cooldownMinutes, hasNotifier, rules[i], samples, now);
    assert rules[..i] + [rules[i]] == rules[..i + 1];
  }

  /**
   * The fires a pass counts are its fire notifications, at most one per rule; without a sink a
   * pass notifies nothing and counts nothing.
   */
  lemma {:induction false} PassCounts(alerts: map<string, AlertRecord>, cooldownMinutes: int, hasNotifier: bool,
                                      rules: seq<Rule>, samples: map<string, real>, now: int)
    requires AllWellFormed(alerts)
    ensures var e := PassEffect(alerts, cooldownMinutes, hasNotifier, rules, samples, now);
      && e.fired == CountFireNotes(e.notes) && e.fired <= |rules| && |e.notes| <= |rules|
      && (!hasNotifier ==> e.notes == [] && e.fired == 0)
    decreases |rules|
  {
    if rules != [] {
      var step := RuleEffect(alerts, cooldownMinutes, hasNotifier, rules[0], samples, now);
      var rest := PassEffect(step.alerts, cooldownMinutes, hasNotifier, rules[1..], samples, now);
      PassCounts(step.alerts, cooldownMinutes, hasNotifier, rules[1..], samples, now);
      CountFireNotesAppend(step.notes, rest.notes);
    }
  }

  /** The rule names a pass gives a record: those of the rules whose metric had a sample. */
  function SampledNames(rules: seq<Rule>, samples: map<string, real>): set<string>
  {
    set i | 0 <= i < |rules| && rules[i].metric in samples :: rules[i].name
  }

  lemma SampledNamesCons(rules: seq<Rule>, samples: map<string, real>)
    requires rules != []
    ensures SampledNames(rules, samples)
         == (if rules[0].metric in samples then {rules[0].name} else {}) + SampledNames(rules[1..], samples)
  {
    var tail := rules[1..];
    forall n | n in SampledNames(rules, samples)
      ensures n in (if rules[0].metric in samples then {rules[0].name} else {}) + SampledNames(tail, samples)
    {
      var i :| 0 <= i < |rules| && rules[i].metric in samples && rules[i].name == n;
      if i > 0 {
        assert tail[i - 1] == rules[i];
      }
    }
    forall n | n in SampledNames(tail, samples) ensures n in SampledNames(rules, samples) {
      var i :| 0 <= i < |tail| && tail[i].metric in samples && tail[i].name == n;
      assert rules[i + 1] == tail[i];
    }
  }

  /**
   * A pass adds exactly the records of the sampled rules, and leaves the record of every rule
   * name that no rule in the pass carries as it was.
   */
  lemma {:induction false} PassKeys(alerts: map<string, AlertRecord>, cooldownMinutes: int, hasNotifier: bool,
                                    rules: seq<Rule>, samples: map<string, real>, now: int)
    requires AllWellFormed(alerts)
    ensures var e := PassEffect(alerts, cooldownMinutes, hasNotifier, rules, samples, now);
      && e.alerts.Keys == alerts.Keys + SampledNames(rules, samples)
      && forall n :: n in alerts && (forall i :: 0 <= i < |rules| ==> rules[i].name != n) ==> e.alerts[n] == alerts[n]
    decreases |rules|
  {
    if rules != [] {
      var step := RuleEffect(alerts, cooldownMinutes, hasNotifier, rules[0], samples, now);
      RuleEffectFrame(alerts, cooldownMinutes, hasNotifier, rules[0], samples, now);
      PassKeys(step.alerts, cooldownMinutes, hasNotifier, rules[1..], samples, now);
      SampledNamesCons(rules, samples);
      forall n | n in alerts && (forall i :: 0 <= i < |rules| ==> rules[i].name != n)
        ensures forall i :: 0 <= i < |rules[1..]| ==> rules[1..][i].name != n
      {
        forall i | 0 <= i < |rules[1..]| ensures rules[1..][i].name != n {
          assert rules[1..][i] == rules[i + 1];
        }
      }
    }
  }

  /**
   * The pass as the source runs it. The resolve path calls a sink operation that the e-mail
   * notifier does not define, so the first resolve that would be delivered raises and ends the
   * pass: the resolving rule's record is already updated, nothing reaches the sink for it, and
   * the rules after it are not evaluated on this tick. `evaluated` counts the rules started.
   */
  datatype PartialPass = PartialPass(effect: Effect, evaluated: nat)

  function PassAsWritten(alerts: map<string, AlertRecord>, cooldownMinutes: int, hasNotifier: bool,
                         rules: seq<Rule>, samples: map<string, real>, now: int): (p: PartialPass)
    requires AllWellFormed(alerts)
    ensures AllWellFormed(p.effect.alerts)
    ensures p.evaluated <= |rules|
    ensures OnlyFires(p.effect.notes)
    decreases |rules|
  {
    if rules == [] then PartialPass(Effect(alerts, [], 0), 0)
    else
      var step := RuleEffect(alerts, cooldownMinutes, hasNotifier, rules[0], samples, now);
      if step.notes != [] && step.notes[0].ResolveNote? then PartialPass(Effect(step.alerts, [], 0), 1)
      else
        var rest := PassAsWritten(step.alerts, cooldownMinutes, hasNotifier, rules[1..], samples, now);
        PartialPass(Effect(rest.effect.alerts, step.notes + rest.effect.notes, step.fired + rest.effect.fired),
                    1 + rest.evaluated)
  }

  /** Every call the notes record is a fire. */
  predicate OnlyFires(notes: seq<Notification>)
  {
    forall note :: note in notes ==> note.FireNote?
  }

  lemma OnlyFiresSplit(a: seq<Notification>, b: seq<Notification>)
    requires OnlyFires(a + b)
    ensures OnlyFires(a) && OnlyFires(b)
  {
    forall note | note in a ensures note.FireNote? { assert note in a + b; }
    forall note | note in b ensures note.FireNote? { assert note in a + b; }
  }

  /** The pass as written and the intended pass differ only when a resolve is to be delivered. */
  lemma {:induction false} AsWrittenAgreesWithoutResolves(alerts: map<string, AlertRecord>, cooldownMinutes: int,
                                                          hasNotifier: bool, rules: seq<Rule>,
                                                          samples: map<string, real>, now: int)
    requires AllWellFormed(alerts)
    requires OnlyFires(PassEffect(alerts, cooldownMinutes, hasNotifier, rules, samples, now).notes)
    ensures PassAsWritten(alerts, cooldownMinutes, hasNotifier, rules, samples, now)
         == PartialPass(PassEffect(alerts, cooldownMinutes, hasNotifier, rules, samples, now), |rules|)
    decreases |rules|
  {
    if rules != [] {
      var step := RuleEffect(alerts, cooldownMinutes, hasNotifier, rules[0], samples, now);
      var rest := PassEffect(step.alerts, cooldownMinutes, hasNotifier, rules[1..], samples, now);
      OnlyFiresSplit(step.notes, rest.notes);
      assert step.notes != [] ==> step.notes[0] in step.notes;
      AsWrittenAgreesWithoutResolves(step.alerts, cooldownMinutes, hasNotifier, rules[1..], samples, now);
    }
  }

  /**
   * A FIRING rule whose condition stops holding, listed before a second rule: as written the
   * pass stops after the first rule and the second rule gets no record this tick; the intended
   * pass delivers the resolve and evaluates the second rule.
   */
  lemma ResolveEndsPassExample()
    ensures var hot := Rule("hot", "temperature", ">", 30.0, 60, "critical", "Hot", "Too hot", None);
      var humid := Rule("humid", "humidity", ">", 80.0, 60, "warning", "Humid", "Too humid", None);
      var alerts := map["hot" := AlertRecord(Firing, Some(0), Some(60), None, 1, Some(35.0))];
      var samples := map["temperature" := 20.0, "humidity" := 90.0];
      var asWritten := PassAsWritten(alerts, 15, true, [hot, humid], samples, 600);
      var intended := PassEffect(alerts, 15, true, [hot, humid], samples, 600);
      && asWritten.evaluated == 1 && "humid" !in asWritten.effect.alerts && asWritten.effect.notes == []
      && "humid" in intended.alerts && intended.notes == [ResolveNote(hot, 20.0)]
  {
    var hot := Rule("hot", "temperature", ">", 30.0, 60, "critical", "Hot", "Too hot", None);
    var humid := Rule("humid", "humidity", ">", 80.0, 60, "warning", "Humid", "Too humid", None);
    var alerts := map["hot" := AlertRecord(Firing, Some(0), Some(60), None, 1, Some(35.0))];
    var samples := map["temperature" := 20.0, "humidity" := 90.0];
    var rules := [hot, humid];
    assert rules[0] == hot && rules[1..] == [humid] && [humid][1..] == [];
    var first := RuleEffect(alerts, 15, true, hot, samples, 600);
    assert !CheckCondition(20.0, ">", 30.0);
    assert first.notes == [ResolveNote(hot, 20.0)];
    var second := RuleEffect(first.alerts, 15, true, humid, samples, 600);
    RuleEffectFrame(first.alerts, 15, true, humid, samples, 600);
    assert "humid" in second.alerts;
    assert CheckCondition(90.0, ">", 80.0);
    assert "humid" != "hot";
    assert second.notes == [];
    PassSingle(first.alerts, 15, true, humid, samples, 600);
    assert PassEffect(alerts, 15, true, rules, samples, 600)
        == Effect(second.alerts, first.notes + second.notes, first.fired + second.fired);
  }

  /** The notification sink: it records every call and reports delivery failure for some rules. */
  class Notifier {
    /** The rules whose deliveries fail (the transport is not modelled). */
    const failing: set<string>
    var sent: seq<Notification>

    constructor (failing: set<string>)
      ensures this.failing == failing && sent == []
    {
      this.failing := failing;
      sent := [];
    }

    method SendAlert(rule: Rule, value: real) returns (ok: bool)
      modifies this
      ensures sent == old(sent) + [FireNote(rule, value)]
      ensures ok <==> rule.name !in failing
    {
      sent := sent + [FireNote(rule, value)];
      ok := rule.name !in failing;
    }

    method SendResolution(rule: Rule, value: real) returns (ok: bool)
      modifies this
      ensures sent == old(sent) + [ResolveNote(rule, value)]
      ensures ok <==> rule.name !in failing
    {
      sent := sent + [ResolveNote(rule, value)];
      ok := rule.name !in failing;
    }
  }

  datatype Stats = Stats(rulesEvaluated: nat, alertsFired: nat)

  /** Drives the tracker and the sink, and counts rule evaluations and fired alerts. */
  class RuleEngine {
    const tracker: AlertTracker
    const notifier: Notifier?
    var rulesEvaluated: nat
    var alertsFired: nat

    ghost predicate Valid()
      reads this, tracker
    {
      tracker.Valid()
    }

    constructor (tracker: AlertTracker, notifier: Notifier?)
      requires tracker.Valid()
      ensures Valid()
      ensures this.tracker == tracker && this.notifier == notifier
      ensures rulesEvaluated == 0 && alertsFired == 0
    {
      this.tracker := tracker;
      this.notifier := notifier;
      rulesEvaluated := 0;
      alertsFired := 0;
    }

    /**
     * Evaluates one rule; true when an alert was fired and handed to the sink. The tracker is
     * updated before the sink is called and whatever the sink reports.
     */
    method EvaluateRule(rule: Rule, samples: map<string, real>, now: int) returns (fired: bool)
      requires Valid()
      modifies this, tracker, notifier
      ensures Valid()
      ensures var e := RuleEffect(old(tracker.alerts), tracker.cooldownMinutes, notifier != null, rule, samples, now);
        && tracker.alerts == e.alerts
        && (fired <==> e.fired == 1)
        && alertsFired == old(alertsFired) + e.fired
        && (notifier != null ==> notifier.sent == old(notifier.sent) + e.notes)
      ensures rulesEvaluated == old(rulesEvaluated)
    {
      var currentValue := Sample(samples, rule.metric);
      if currentValue.None? {
        return false;
      }
      var value := currentValue.value;
      var conditionMet := CheckCondition(value, rule.condition, rule.threshold);
      var shouldFire, shouldResolve, state := tracker.UpdateAlertState(rule.name, conditionMet, rule.duration, value, now);
      if shouldFire && notifier != null {
        SendAlert(rule, value);
        alertsFired := alertsFired + 1;
        return true;
      }
      if shouldResolve && notifier != null {
        if ResolutionEnabled(rule) {
          SendResolution(rule, value);
        }
      }
      return false;
    }

    /** Evaluates every rule in list order, counting each one. */
    method EvaluateAllRules(rules: seq<Rule>, samples: map<string, real>, now: int)
      requires Valid()
      modifies this, tracker, notifier
      ensures Valid()
      ensures rulesEvaluated == old(rulesEvaluated) + |rules|
      ensures var e := PassEffect(old(tracker.alerts), tracker.cooldownMinutes, notifier != null, rules, samples, now);
        && tracker.alerts == e.alerts
        && alertsFired == old(alertsFired) + e.fired
        && (notifier != null ==> notifier.sent == old(notifier.sent) + e.notes)
    {
      ghost var alerts0 := tracker.alerts;
      ghost var sent0 := if notifier != null then notifier.sent else [];
      ghost var fired0 := alertsFired;
      for i := 0 to |rules|
        invariant Valid()
        invariant rulesEvaluated == old(rulesEvaluated) + i
        invariant var e := PassEffect(alerts0, tracker.cooldownMinutes, notifier != null, rules[..i], samples, now);
          && tracker.alerts == e.alerts
          && alertsFired == fired0 + e.fired
          && (notifier != null ==> notifier.sent == sent0 + e.notes)
      {
        rulesEvaluated := rulesEvaluated + 1;
        var _ := EvaluateRule(rules[i], samples, now);
        PassPrefixStep(alerts0, tracker.cooldownMinutes, notifier != null, rules, i, samples, now);
      }
      assert rules[..|rules|] == rules;
    }

    /** Hands a fire to the sink, if there is one. */
    method SendAlert(rule: Rule, value: real)
      modifies notifier
      ensures notifier != null ==> notifier.sent == old(notifier.sent) + [FireNote(rule, value)]
    {
      if notifier == null {
        return;
      }
      var success := notifier.SendAlert(rule, value);
    }

    /** Hands a resolve to the sink, if there is one. */
    method SendResolution(rule: Rule, value: real)
      modifies notifier
      ensures notifier != null ==> notifier.sent == old(notifier.sent) + [ResolveNote(rule, value)]
    {
      if notifier == null {
        return;
      }
      var success := notifier.SendResolution(rule, value);
    }

    /** The two counters, as they stand. */
    method GetStats() returns (stats: Stats)
      ensures stats.rulesEvaluated == rulesEvaluated && stats.alertsFired == alertsFired
    {
      stats := Stats(rulesEvaluated, alertsFired);
    }
  }
}
