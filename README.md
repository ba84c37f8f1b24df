# LiteCommands: cooldown throttling and the execution gate, in Dafny

This project models two pieces of LiteCommands' per-invocation command
pipeline and proves properties of them.

- **Cooldown throttling** (`cooldown.dfy`, module `Cooldown`). The class
  `CooldownStateController` keeps the `cooldowns` map from a composite key
  (sender identifier and cooldown key) to an expiration instant. It has three
  operations:
  - the pre-execution handler blocks while the stored expiration is strictly
    after `now`;
  - the post-execution handler arms `now + duration` after a successful
    execution and schedules the key's eviction;
  - the scheduled eviction removes the key.

  Both handlers use the *operative* cooldown context. That is the first
  collected context, unless the sender holds its non-empty bypass permission.
  The scheduler is the field `pending`, a queue of evictions that
  `FireEviction` runs. The class invariant `Valid()` says that every stored
  expiration has a pending eviction of its key, due at exactly that instant.
- **The execution node** (`execution.dfy`, module `Execution`).
  `ResolveExecution` works in three steps:
  - it folds the ancestor scopes, then the node's own scope, into the
    effective permission set: for each scope it adds the required permissions
    and removes the excluded ones;
  - it stops with `NoPermission` when the sender lacks some permission, and
    then with `InvalidUse` when the argument-count validator rejects the
    count;
  - only then does it dispatch to the executor, whose error branch rethrows
    validation exceptions and logs every other error.

  `ExecutorCompletion` and `ResolveCompletion` model completion.

`invocations.dfy` holds the sender and the invocation. `wrappers.dfy` holds
`Option`.

The scheduled eviction (`CooldownStateController.java:71`) removes the key
unconditionally. It does not check that the key still holds the expiration it
was scheduled for. `FireEviction` does the same. `StaleEvictionClearsRearm`
and `EvictionRaceScenario` show the consequence: an earlier arm's eviction
deletes a later arm's window for the same key.

## Model

| member | source | states |
|---|---|---|
| `Cooldown.OperativeContext` | litecommands-core/src/dev/rollczi/litecommands/cooldown/CooldownStateController.java:74-90 | no context without metadata; only the first collected context is ever returned; it is withheld exactly when its bypass permission is non-empty and held by the sender; an empty bypass never exempts |
| `Cooldown.CooldownStateController.constructor` | litecommands-core/src/dev/rollczi/litecommands/cooldown/CooldownStateController.java:24-29 | starts with an empty map, no pending evictions, invariant established |
| `Cooldown.CooldownStateController.OnPreExecution` | litecommands-core/src/dev/rollczi/litecommands/cooldown/CooldownStateController.java:31-49 | modifies nothing; stops iff there is an operative context and its key's stored expiration is strictly after `now` (equal to `now` is allowed); the reason carries the stored expiration and a remaining time of `expiration - now`, which is positive |
| `Cooldown.CooldownStateController.OnPostExecution` | litecommands-core/src/dev/rollczi/litecommands/cooldown/CooldownStateController.java:51-72 | an unsuccessful result or no operative context leaves map and queue unchanged; otherwise the key maps to `now + duration`, every other key is untouched, and exactly one eviction of that key with delay `duration` is enqueued; keeps the invariant |
| `Cooldown.CooldownStateController.FireEviction` | litecommands-core/src/dev/rollczi/litecommands/cooldown/CooldownStateController.java:71 | removes exactly the eviction's key, whatever is stored for it, leaves other keys untouched, dequeues that eviction, keeps the invariant |
| `Cooldown.ArmThenCheck` | litecommands-core/src/dev/rollczi/litecommands/cooldown/CooldownStateController.java:43-70 | round trip: after a successful arm at T, a check at T' is blocked iff T' < T + duration, with remaining T + duration - T' and the stored expiration |
| `Cooldown.ArmIsolation` | litecommands-core/src/dev/rollczi/litecommands/cooldown/CooldownStateController.java:67-70 | arming one composite key does not change the pre-execution decision for any other composite key, nor for any invocation without an operative context |
| `Cooldown.ArmWritesOneKey` | litecommands-core/src/dev/rollczi/litecommands/cooldown/CooldownStateController.java:67-70 | the post-execution handler leaves every key other than its own composite key as it was |
| `Cooldown.NoOperativeContextIsNoOp` | litecommands-core/src/dev/rollczi/litecommands/cooldown/CooldownStateController.java:75-90 | without metadata, or with a held non-empty bypass permission, the pre-execution handler never stops and the post-execution handler leaves the map unchanged |
| `Cooldown.StaleEvictionClearsRearm` | litecommands-core/src/dev/rollczi/litecommands/cooldown/CooldownStateController.java:67-71 | on any valid controller, after arms of one key at any two instants, a check inside the second window is blocked with the second expiration; once the first arm's eviction fires, the same check passes, the key is gone, and only the second arm's eviction is still pending |
| `Cooldown.EvictionRaceScenario` | litecommands-core/src/dev/rollczi/litecommands/cooldown/CooldownStateController.java:43-71 | duration 2: armed at 0, a check at 1 is blocked with 1 remaining; re-armed at 2, a check at 3 is blocked; after the first eviction fires, the check at 3 passes |
| `Execution.FoldMembership` | litecommands-core/src/main/java/dev/rollczi/litecommands/component/LiteExecution.java:38-41 | a permission is in the fold iff it was seeded and never excluded, or some scope required it and no scope from that one on excludes it |
| `Execution.ExclusionWins` | litecommands-core/src/main/java/dev/rollczi/litecommands/component/LiteExecution.java:38-41 | a permission excluded by a scope is absent from the result whatever earlier scopes or the seed required, unless a later scope requires it again |
| `Execution.LaterRequirementSurvives` | litecommands-core/src/main/java/dev/rollczi/litecommands/component/LiteExecution.java:38-41 | an earlier scope's exclusion never revokes what a later scope requires |
| `Execution.SeedIrrelevant` | litecommands-core/src/main/java/dev/rollczi/litecommands/component/LiteExecution.java:36-41 | seeding the fold with permissions the last scope requires gives the same set as seeding it with nothing |
| `Execution.EffectivePermissions` | litecommands-core/src/main/java/dev/rollczi/litecommands/component/LiteExecution.java:36-41 | the set seeded with the own permissions and folded over ancestors then own scope equals the fold from the empty set; the own exclusions are absent; the own requirements not also excluded are present |
| `Execution.OnError` | litecommands-core/src/main/java/dev/rollczi/litecommands/component/LiteExecution.java:49-57 | a validation exception always propagates with its own reason: it stops the flow when it has no message and is rethrown as is otherwise; any other error is only logged; success triggers nothing |
| `Execution.ResolveExecution` | litecommands-core/src/main/java/dev/rollczi/litecommands/component/LiteExecution.java:32-58 | stops with `NoPermission` iff some effective permission is not held; stops with `InvalidUse` iff all are held and the validator rejects the argument count; dispatches to the executor iff all are held and the count is valid, and then handles its result by `OnError` |
| `Execution.ExecutorCompletion` | litecommands-core/src/main/java/dev/rollczi/litecommands/component/LiteExecution.java:65-72 | empty when the executor has no parameter at the index or the parser no handler for it; otherwise the handler's suggestions for the invocation's name and arguments |
| `Execution.ResolveCompletion` | litecommands-core/src/main/java/dev/rollczi/litecommands/component/LiteExecution.java:61-63 | completes for index `currentArgsCount - 1`, so it is empty when no parameter sits there |
| `Execution.NoPermissionScenario` | litecommands-core/src/main/java/dev/rollczi/litecommands/component/LiteExecution.java:43-45 | a node requiring `cmd.use`, invoked by a sender without it, stops with `NoPermission` whatever the executor would do |
| `Execution.InvalidUseScenario` | litecommands-core/src/main/java/dev/rollczi/litecommands/component/LiteExecution.java:47 | a node that validates exactly one argument, invoked with none by a sender holding its permission, stops with `InvalidUse` |

## Left out

- The wall clock (`Instant.now()`) and `java.time`: `now` is an integer parameter; instants and durations are unbounded integers, so `Instant` range overflow is not modelled.
- Real scheduling (`scheduler.supplyLater` on `SchedulerPoll.MAIN`): a scheduled eviction is an entry of `pending`; `FireEviction` may run any pending entry at any time, so the model gives no timing guarantee and holds no link between `dueAt` and `now`.
- Concurrency: the unsynchronised `HashMap` shared by handler and scheduler threads; every operation is one atomic step here.
- The event bus and `@Subscriber` discovery: the handlers are methods called directly with the event's sender, collected cooldown contexts, result success and the current time; `stopFlow` is the returned reason.
- `metaCollector().collect(Meta.COOLDOWN)`: its result is the `contexts` parameter.
- The executor (`executor.execute(...)`) and its asynchronous future: its outcome is the `executed` parameter, and `Dispatched` marks that it was called. Firing the post-execution event is outside this code and is not modelled.
- `Valid.whenWithContext`: modelled as stopping with the given reason when its condition holds; its exception machinery is not modelled.
- The slf4j logger: logging is the `Log` outcome.
- `AnnotationParser`, argument handlers and their `tabulation`, the argument-count validator, and `hasPermission`: these are foreign. They are modelled as a parameter-to-handler map, function-valued fields, and membership in the sender's permission set.
- `HashSet` iteration order: the permission loop picks any unchecked permission, so the model does not say which missing permission is reported first.
- `LiteSenderBind.java`: it only delegates to `invocation.sender()`, and it is not part of this model.
