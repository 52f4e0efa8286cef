# Alert engine: per-rule alert state machine and rule evaluation

This project models, in Dafny, the core of an IoT alert engine. The engine samples one metric
per monitoring rule and compares it with the rule's threshold. It then turns the resulting
"condition currently met" signal into fire and resolve notifications:

- **debounce**: a rule must stay PENDING for `duration` seconds before it first fires;
- **cooldown**: a FIRING rule fires again only after `cooldown_minutes`;
- **auto-reset**: a RESOLVED rule falls back to NORMAL after five minutes.

The model has five modules:

- `AlertTracking` (`alert_tracker.dfy`) models `alert_tracker.py`. It defines the alert record,
  the pure transition function `Transition` and the record invariant `WellFormed`. The class
  `AlertTracker` owns the dictionary from rule name to record. Its `UpdateAlertState` follows
  the source branch by branch, updating fields on a copy of the record, and is proved equal to
  `Transition`.
- `AlertTraces` (`alert_traces.dfy`) feeds sequences of samples ("ticks") to one rule. It proves
  the timing behaviour over whole runs: debounce, cooldown suppression, resolve-once and the
  auto-reset window.
- `RuleEvaluation` (`rule_engine.dfy`) models `rule_engine.py`. It contains the condition
  evaluator and the pure specification of one rule's evaluation (`RuleEffect`) and of a whole
  pass (`PassEffect`). The class `RuleEngine` holds the two counters. Its methods `EvaluateRule`
  and `EvaluateAllRules` drive the tracker and a recording `Notifier` sink, and are proved
  against those specifications.
- `Configuration` (`config_loader.dfy`) models the checks of `ConfigLoader.validate` and the
  section getters, over a small value type for the parsed document.
- `Wrappers` (`wrappers.dfy`) holds the `Option` type.

Modelling choices:

- **Time** is whole seconds, passed in as `now`. A cooldown is `cooldown_minutes * 60` seconds
  and the auto-reset window is 300 seconds.
- **The metric source** is a map from metric name to value. A metric missing from the map is an
  unavailable sample. One `now` is used for a whole pass.
- **The notification sink** records every call it receives. A fixed set of rule names stands
  for the deliveries that fail.
- **Metric values** are `real`, compared exactly.

Behaviour of the code that the model keeps as written, though a reader might expect otherwise:

- An unknown comparison operator makes the condition false. It is not reported as a
  configuration error.
- `first_triggered` stays set while FIRING, not only while PENDING.
- A fire is counted in `alerts_fired` only when a notifier is configured.
- A failing rule is not caught per rule. See "Findings".

## Model

| member | source | states |
|---|---|---|
| AlertTracking.Lookup | alert-engine/alert_tracker.py:42-53 | A rule name not in the store yields a NORMAL record with fire count 0 and no timestamps or value; a stored name yields its record. |
| AlertTracking.Transition | alert-engine/alert_tracker.py:57-109 | Every update keeps the record invariant: trigger time set exactly while PENDING or FIRING, fire time set while FIRING, resolve time set while RESOLVED, fire time set exactly once the count is positive. |
| AlertTracking.TransitionFacts | alert-engine/alert_tracker.py:54-109 | Never fire and resolve together. The fire count grows by exactly 1 on a fire and is unchanged otherwise. A fire needs a met condition in PENDING or FIRING. Resolve happens exactly on a not-met condition in PENDING or FIRING. FIRING is never entered from NORMAL or RESOLVED. |
| AlertTracking.PendingDebounce | alert-engine/alert_tracker.py:65-74 | PENDING with the condition met fires exactly when `now - first_triggered >= duration`. The trigger time is kept. Otherwise the record is unchanged. |
| AlertTracking.FiringCooldown | alert-engine/alert_tracker.py:76-85 | FIRING with the condition met fires again exactly when more than the cooldown has passed since the last fire, setting the fire time. Otherwise nothing changes, the value included. |
| AlertTracking.MetEntersPending | alert-engine/alert_tracker.py:59-63 | A met condition in NORMAL or RESOLVED goes to PENDING with `first_triggered = now` and the value, and emits nothing. |
| AlertTracking.NotMetResolves | alert-engine/alert_tracker.py:95-100 | A not-met condition in PENDING or FIRING goes to RESOLVED with `last_resolved = now`, clears the trigger time and resolves. |
| AlertTracking.QuietWhileNotMet | alert-engine/alert_tracker.py:102-107 | A not-met condition in NORMAL or RESOLVED emits nothing. RESOLVED goes to NORMAL exactly when more than 300 s passed since it resolved; nothing else changes. |
| AlertTracking.StateNameInjective | alert-engine/alert_tracker.py:11-16 | The four state names are distinct. |
| AlertTracking.SummaryStateIdentifies | alert-engine/alert_tracker.py:119-120 | The reported state string of two records is the same exactly when their states are the same. |
| AlertTracking.AlertTracker.constructor | alert-engine/alert_tracker.py:22-24 | A new tracker has the given cooldown and an empty store. |
| AlertTracking.AlertTracker.UpdateAlertState | alert-engine/alert_tracker.py:26-109 | The rule's record (fresh if unknown) becomes the transitioned record and no other record changes. The returned flags and state are the transition's. The store invariant is kept. |
| AlertTracking.AlertTracker.GetAlertInfo | alert-engine/alert_tracker.py:111-113 | Returns the stored record exactly when the name is stored, and creates nothing. |
| AlertTracking.AlertTracker.GetAllAlerts | alert-engine/alert_tracker.py:115-126 | The result has exactly the store's keys; each entry is the record's `Summarize` view: state name, fire count, fire and resolve times and value. |
| AlertTracking.AlertTracker.Reset | alert-engine/alert_tracker.py:128-130 | The store becomes empty. |
| AlertTraces.Run | alert-engine/alert_tracker.py:26-109 | A run of updates keeps the record invariant and yields one outcome per tick. |
| AlertTraces.RunFireCount | alert-engine/alert_tracker.py:72-83 | After any run, the fire count equals the starting count plus the number of fire events. |
| AlertTraces.RunAppend | alert-engine/alert_tracker.py:26-109 | Running two batches of ticks one after the other equals running their concatenation. |
| AlertTraces.StaysPending | alert-engine/alert_tracker.py:65-68 | While the condition holds and the required duration has not passed, a PENDING record stays unchanged and silent. |
| AlertTraces.WithinCooldown | alert-engine/alert_tracker.py:76-80 | While the condition holds within the cooldown, a FIRING record stays unchanged and silent. |
| AlertTraces.FiresOnceFromPending | alert-engine/alert_tracker.py:65-85 | A PENDING rule whose condition keeps holding fires exactly at the first tick at least `duration` after its trigger, then stays FIRING with that fire recorded. It fires at no other tick, and resolves at none, as long as the later ticks fall within the cooldown of that fire. |
| AlertTraces.Debounce | alert-engine/alert_tracker.py:57-85 | From NORMAL with the condition always met, the first tick enters PENDING. Exactly one fire happens, at the first later tick at least `duration` after the first tick, provided the ticks after it stay within the cooldown. Nothing resolves, and the rule ends FIRING with that fire time and one more fire counted. |
| AlertTraces.QuietRun | alert-engine/alert_tracker.py:93-107 | With the condition never met, NORMAL and RESOLVED stay silent and stay NORMAL or RESOLVED. |
| AlertTraces.ResolveOnce | alert-engine/alert_tracker.py:93-107 | With the condition never met, a resolve is emitted only at the first tick and only if the rule was PENDING or FIRING; nothing fires. |
| AlertTraces.StaysResolved | alert-engine/alert_tracker.py:102-107 | A RESOLVED rule with the condition not met stays unchanged while at most five minutes have passed since it resolved. |
| AlertTraces.BoundaryExample | alert-engine/alert_tracker.py:65-74 | Duration 120 s with ticks at 0, 30, 60, 90 and 120 s fires at 120 s and at no earlier tick. |
| AlertTraces.CooldownExample | alert-engine/alert_tracker.py:76-85 | With a 15-minute cooldown after a fire at 0, a check at 10 minutes does not fire; a check at 16 minutes fires and the count becomes 2. |
| AlertTraces.AutoResetExample | alert-engine/alert_tracker.py:102-107 | Resolved at 0, a not-met check at 240 s is still RESOLVED and one at 301 s is NORMAL. |
| RuleEvaluation.CheckCondition | alert-engine/rule_engine.py:90-106 | The result is `value op threshold` for each of the six operators, and false for any other operator string. |
| RuleEvaluation.NegationComplements | alert-engine/rule_engine.py:90-106 | A sanity fact about `CheckCondition`: each operator's negation is also an operator, and the two never agree. |
| RuleEvaluation.ConverseSwaps | alert-engine/rule_engine.py:90-106 | A sanity fact about `CheckCondition`: swapping the operands and the direction of an operator gives the same answer. |
| RuleEvaluation.CountFireNotesAppend | alert-engine/rule_engine.py:60-63 | The number of fire notifications in a concatenation is the sum of the two counts. |
| RuleEvaluation.RuleEffect | alert-engine/rule_engine.py:24-71 | With no sample the store, the sink and the counter are untouched. At most one sink call is made; the fire counter counts exactly a fire call. With no sink nothing is sent. |
| RuleEvaluation.RuleEffectFrame | alert-engine/rule_engine.py:41-53 | A sampled rule gets a record; no other rule's record changes. |
| RuleEvaluation.RuleEffectNotes | alert-engine/rule_engine.py:60-69 | Each sink call carries the rule and its sampled value; a resolve call needs resolution notifications enabled. `ResolutionEnabled` reads the rule's flag with a default of true (line 67). |
| RuleEvaluation.FireNotifiedIffFired | alert-engine/rule_engine.py:47-69 | The rule's new record is the tracker's transition. A fire is counted exactly when the tracker fired and a sink exists. A resolve is sent exactly when the tracker resolved, a sink exists and resolution notifications are enabled. |
| RuleEvaluation.PassEffect | alert-engine/rule_engine.py:73-88 | A pass keeps the store invariant. |
| RuleEvaluation.PassAppend | alert-engine/rule_engine.py:84-86 | Rules are evaluated in list order: a pass over `a + b` is the pass over `a` followed by the pass over `b`. |
| RuleEvaluation.PassSingle | alert-engine/rule_engine.py:84-86 | A pass over one rule is that rule's evaluation. |
| RuleEvaluation.PassPrefixStep | alert-engine/rule_engine.py:84-86 | Extending a pass by the next rule evaluates that rule on the store the earlier rules left. |
| RuleEvaluation.PassCounts | alert-engine/rule_engine.py:60-63 | The fires a pass counts are exactly its fire calls, at most one per rule. With no sink a pass sends and counts nothing. |
| RuleEvaluation.SampledNamesCons | alert-engine/rule_engine.py:41-53 | The sampled rule names of a list are those of its head plus those of its tail. |
| RuleEvaluation.PassKeys | alert-engine/rule_engine.py:73-88 | A pass adds records exactly for the rules whose metric was sampled. A name no rule carries keeps its record. |
| RuleEvaluation.PassAsWritten | alert-engine/rule_engine.py:66-69 | As written, a pass never delivers a resolve and starts at most all the rules. |
| RuleEvaluation.OnlyFiresSplit | alert-engine/rule_engine.py:60-69 | If a concatenation holds only fire calls, so does each part. |
| RuleEvaluation.AsWrittenAgreesWithoutResolves | alert-engine/rule_engine.py:66-69 | When no resolve is due, the pass as written equals the intended pass and starts every rule. |
| RuleEvaluation.ResolveEndsPassExample | alert-engine/rule_engine.py:127-140 | A resolving rule listed first stops the pass as written before the second rule; the intended pass sends the resolve and evaluates both. |
| RuleEvaluation.Notifier.SendAlert | alert-engine/rule_engine.py:113-122 | The sink records the fire call; it reports failure for the failing rules. |
| RuleEvaluation.Notifier.SendResolution | alert-engine/rule_engine.py:132-137 | The sink records the resolve call; it reports failure for the failing rules. |
| RuleEvaluation.RuleEngine.constructor | alert-engine/rule_engine.py:15-22 | A new engine holds the given tracker and optional notifier, with both counters at 0. |
| RuleEvaluation.RuleEngine.EvaluateRule | alert-engine/rule_engine.py:24-71 | The store, the counter and the sink log change exactly as `RuleEffect` says, whatever the sink reports; it returns true exactly on a counted fire; `rules_evaluated` is unchanged. |
| RuleEvaluation.RuleEngine.EvaluateAllRules | alert-engine/rule_engine.py:73-88 | `rules_evaluated` grows by the number of rules. The store, the fire counter and the sink log change as the in-order `PassEffect` says. |
| RuleEvaluation.RuleEngine.SendAlert | alert-engine/rule_engine.py:108-126 | With a sink, exactly one fire call is recorded; without one, nothing happens. |
| RuleEvaluation.RuleEngine.SendResolution | alert-engine/rule_engine.py:127-140 | With a sink, exactly one resolve call is recorded; without one, nothing happens. |
| RuleEvaluation.RuleEngine.GetStats | alert-engine/rule_engine.py:142-147 | Reports the two counters as they stand. |
| Configuration.Contains | alert-engine/config_loader.py:56-64 | Membership is defined on mappings, lists and texts and raises on other values; on a mapping it is key membership. |
| Configuration.CheckAll | alert-engine/config_loader.py:55-66 | The early-return check succeeds exactly when every key is contained, and raises exactly when there is a key and the value cannot be searched. |
| Configuration.Section | alert-engine/config_loader.py:32-46 | A getter returns the section when present and the default otherwise. |
| Configuration.GetPrometheusConfig | alert-engine/config_loader.py:32-34 | The `prometheus` section, or an empty mapping. |
| Configuration.GetEmailConfig | alert-engine/config_loader.py:36-38 | The `email` section, or an empty mapping. |
| Configuration.GetAlertSettings | alert-engine/config_loader.py:40-42 | The `alert_settings` section, or an empty mapping. |
| Configuration.GetAlertRules | alert-engine/config_loader.py:44-46 | The `alert_rules` section, or an empty list. |
| Configuration.Validate | alert-engine/config_loader.py:48-75 | False for no document or an empty one, for a missing section, for missing e-mail fields, and for an empty rule list, where `Truthy` is Python's truth test (lines 50 and 70). It raises exactly when the e-mail section cannot be searched. It is true exactly when none of these fail. |

## Findings

| source | as written | input that shows it | evidently intended | confidence | as-written member | corrected member |
|---|---|---|---|---|---|---|
| alert-engine/rule_engine.py:132 | The resolve path calls `send_resolution_email`, which the e-mail notifier does not define. The error is not caught in the rule engine, so it ends the pass. | Two rules, the first FIRING with its condition no longer met, a notifier configured: the second rule is not evaluated on that tick and no resolve is sent. | The resolve is delivered and every rule of the pass is evaluated. | high (not executed) | RuleEvaluation.ResolveEndsPassExample | RuleEvaluation.PassKeys |

The as-written behaviour is `RuleEvaluation.PassAsWritten`. `AsWrittenAgreesWithoutResolves`
shows it differs from the intended `PassEffect` only when a resolve is due. The engine methods
model the intended behaviour, with the resolve path as a call into the sink.

## Left out

- The clock: `datetime.now()` becomes the `now` parameter, as whole seconds. Sub-second
  durations and `datetime`/ISO-8601 formatting of the timestamps are not modelled.
- One `now` serves a whole pass. The source reads the clock again for each rule.
- The metric source is a map that is read once per pass. Two rules on the same metric see the
  same value. Prometheus HTTP, JSON parsing and float conversion are not modelled.
- Metric values are exact reals. IEEE floating point and NaN are not modelled.
- Rules are records whose required fields are present. A missing key (`KeyError`) is not
  modelled. `resolution_notification` is an optional boolean; the truthiness of other values is
  not modelled.
- The e-mail transport, message templates and the notifier's own counters and `success_rate`
  are not modelled. Whether a delivery succeeds is given by a fixed set of failing rule names.
- `AlertTracking.AlertTracker.GetAlertInfo` returns a copy. The source returns the stored
  dictionary itself, so a caller could alias and mutate it; that is not captured.
- Logging and `print` output are not modelled.
- `ConfigLoader.load` (file and YAML I/O) is not modelled. The getters take the loaded mapping;
  calling them before a load (an `AttributeError` on `None`) is not modelled. A top-level
  document that is not a mapping is not modelled.
- `AlertTracking.Transition` requires a well-formed record. The source would raise on a PENDING
  record without a trigger time, but the tracker never stores one.
- The Flask endpoints, the background evaluation thread, its `sleep`-driven fixed-delay
  schedule, the Prometheus counters of the engine itself, and concurrent reads of the store are
  not modelled. The IoT simulator and the analysis service are not modelled either.
