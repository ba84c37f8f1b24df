/**
 * Cooldown throttling: a minimum interval, per sender and per throttle key,
 * between successful executions of a command.  Instants and durations are
 * integers; the wall clock is the parameter `now`; the scheduler is a queue
 * of pending evictions that `FireEviction` runs one at a time.
 */
module Cooldown {
  import opened Wrappers
  import opened Invocations

  /** Cooldown metadata declared on a command; `bypassPermission == ""` means no bypass. */
  datatype CooldownContext = CooldownContext(key: string, duration: int, bypassPermission: string)

  /** One throttle bucket: the sender's identifier and the cooldown key. */
  datatype CompositeKey = CompositeKey(senderId: string, key: string)

  /** The reason a blocked invocation is stopped with: time left and the stored expiration. */
  datatype CooldownState = CooldownState(context: CooldownContext, remaining: int, expiration: int)

  /** A removal of `key` handed to the scheduler `delay` after arming, so due at `dueAt`. */
  datatype Eviction = Eviction(key: CompositeKey, delay: int, dueAt: int)

  type Store = map<CompositeKey, int>

  /**
   * The cooldown that governs an invocation: the first collected context,
   * unless the sender holds its (non-empty) bypass permission.
   */
  function OperativeContext(contexts: seq<CooldownContext>, sender: Sender): (r: Option<CooldownContext>)
    ensures |contexts| == 0 ==> r == None
    ensures r.Some? ==> r.value == contexts[0]
    ensures |contexts| > 0 && contexts[0].bypassPermission == "" ==> r == Some(contexts[0])
    ensures |contexts| > 0 ==>
      (r.None? <==> contexts[0].bypassPermission != "" && sender.HasPermission(contexts[0].bypassPermission))
  {
    if |contexts| == 0 then
      None
    else
      var context := contexts[0];
      if context.bypassPermission != "" && sender.HasPermission(context.bypassPermission) then None
      else Some(context)
  }

  function KeyOf(sender: Sender, context: CooldownContext): CompositeKey {
    CompositeKey(sender.identifier, context.key)
  }

  /** The stop reason the pre-execution handler raises over `store`, if any. */
  function PreCheck(store: Store, sender: Sender, contexts: seq<CooldownContext>, now: int): Option<CooldownState> {
    match OperativeContext(contexts, sender)
    case None => None
    case Some(context) =>
      var key := KeyOf(sender, context);
      if key in store && store[key] > now then Some(CooldownState(context, store[key] - now, store[key]))
      else None
  }

  /** The store after the post-execution handler. */
  function Armed(store: Store, sender: Sender, contexts: seq<CooldownContext>, successful: bool, now: int): Store {
    if !successful then store
    else
      match OperativeContext(contexts, sender)
      case None => store
      case Some(context) => store[KeyOf(sender, context) := now + context.duration]
  }

  class CooldownStateController {
    var cooldowns: Store
    var pending: seq<Eviction>

    /** Every stored expiration has a pending eviction of its key due at exactly that instant. */
    ghost predicate Valid()
      reads this
    {
      forall key :: key in cooldowns ==>
        exists i :: 0 <= i < |pending| && pending[i].key == key && pending[i].dueAt == cooldowns[key]
    }

    constructor ()
      ensures Valid()
      ensures cooldowns == map[] && pending == []
    {
      cooldowns := map[];
      pending := [];
    }

    /**
     * Pre-execution handler: stops the flow while the stored expiration is
     * strictly after `now`.  It changes nothing.
     */
    method OnPreExecution(sender: Sender, contexts: seq<CooldownContext>, now: int) returns (stop: Option<CooldownState>)
      ensures stop == PreCheck(cooldowns, sender, contexts, now)
      ensures OperativeContext(contexts, sender).None? ==> stop.None?
      ensures OperativeContext(contexts, sender).Some? ==>
        var key := KeyOf(sender, OperativeContext(contexts, sender).value);
        && (stop.Some? <==> key in cooldowns && cooldowns[key] > now)
        && (stop.Some? ==>
              && stop.value.context == contexts[0]
              && stop.value.expiration == cooldowns[key]
              && stop.value.remaining == cooldowns[key] - now
              && stop.value.remaining > 0)
    {
      var context := OperativeContext(contexts, sender);
      if context.None? {
        return None;
      }
      var key := KeyOf(sender, context.value);
      if key in cooldowns && cooldowns[key] > now {
        var expiration := cooldowns[key];
        return Some(CooldownState(context.value, expiration - now, expiration));
      }
      return None;
    }

    /**
     * Post-execution handler: after a successful execution under an operative
     * cooldown, stores `now + duration` and schedules the key's removal.
     */
    method OnPostExecution(sender: Sender, contexts: seq<CooldownContext>, successful: bool, now: int)
      requires Valid()
      modifies this
      ensures Valid()
      ensures cooldowns == Armed(old(cooldowns), sender, contexts, successful, now)
      ensures !successful || OperativeContext(contexts, sender).None? ==>
        cooldowns == old(cooldowns) && pending == old(pending)
      ensures successful && OperativeContext(contexts, sender).Some? ==>
        var context := OperativeContext(contexts, sender).value;
        var key := KeyOf(sender, context);
        && cooldowns == old(cooldowns)[key := now + context.duration]
        && pending == old(pending) + [Eviction(key, context.duration, now + context.duration)]
    {
      if !successful {
        return;
      }
      var context := OperativeContext(contexts, sender);
      if context.None? {
        return;
      }
      var key := KeyOf(sender, context.value);
      var expiration := now + context.value.duration;
      ghost var before := pending;
      cooldowns := cooldowns[key := expiration];
      pending := pending + [Eviction(key, context.value.duration, expiration)];
      forall stored | stored in cooldowns
        ensures exists j :: 0 <= j < |pending| && pending[j].key == stored && pending[j].dueAt == cooldowns[stored]
      {
        if stored == key {
          assert pending[|pending| - 1].key == stored;
        } else {
          var j :| 0 <= j < |before| && before[j].key == stored && before[j].dueAt == cooldowns[stored];
          assert pending[j] == before[j];
        }
      }
    }

    /**
     * The scheduler runs the `i`-th pending eviction: its key is removed
     * whatever expiration is stored for it now.
     */
    method FireEviction(i: nat)
      requires Valid()
      requires i < |pending|
      modifies this
      ensures Valid()
      ensures cooldowns == old(cooldowns) - {old(pending)[i].key}
      ensures pending == old(pending)[..i] + old(pending)[i + 1..]
    {
      var evicted := pending[i].key;
      ghost var before := pending;
      cooldowns := cooldowns - {evicted};
      pending := pending[..i] + pending[i + 1..];
      forall key | key in cooldowns
        ensures exists j :: 0 <= j < |pending| && pending[j].key == key && pending[j].dueAt == cooldowns[key]
      {
        var j :| 0 <= j < |before| && before[j].key == key && before[j].dueAt == cooldowns[key];
        if j < i {
          assert pending[j] == before[j];
        } else {
          assert pending[j - 1] == before[j];
        }
      }
    }
  }

  /**
   * Round trip: once armed at `armedAt`, the key blocks exactly the checks
   * strictly before `armedAt + duration`, with the remaining time to that instant.
   */
  lemma ArmThenCheck(store: Store, sender: Sender, contexts: seq<CooldownContext>, armedAt: int, checkedAt: int)
    requires OperativeContext(contexts, sender).Some?
    ensures var expiration := armedAt + contexts[0].duration;
            var stop := PreCheck(Armed(store, sender, contexts, true, armedAt), sender, contexts, checkedAt);
            && (stop.Some? <==> checkedAt < expiration)
            && (stop.Some? ==> stop.value == CooldownState(contexts[0], expiration - checkedAt, expiration))
  {
  }

  /** Arming one bucket leaves the decision for every other bucket unchanged. */
  lemma ArmIsolation(store: Store, sender: Sender, contexts: seq<CooldownContext>, successful: bool, now: int,
                     other: Sender, otherContexts: seq<CooldownContext>, checkedAt: int)
    requires || OperativeContext(contexts, sender).None?
             || OperativeContext(otherContexts, other).None?
             || KeyOf(sender, contexts[0]) != KeyOf(other, otherContexts[0])
    ensures PreCheck(Armed(store, sender, contexts, successful, now), other, otherContexts, checkedAt)
         == PreCheck(store, other, otherContexts, checkedAt)
  {
  }

  /** Arming writes only its own key. */
  lemma ArmWritesOneKey(store: Store, sender: Sender, contexts: seq<CooldownContext>, successful: bool, now: int, key: CompositeKey)
    requires OperativeContext(contexts, sender).None? || key != KeyOf(sender, contexts[0])
    ensures var armed := Armed(store, sender, contexts, successful, now);
            (key in armed <==> key in store) && (key in store ==> armed[key] == store[key])
  {
  }

  /**
   * Without cooldown metadata, or for a sender holding the non-empty bypass
   * permission, neither handler does anything.
   */
  lemma NoOperativeContextIsNoOp(store: Store, sender: Sender, contexts: seq<CooldownContext>, successful: bool, now: int)
    requires |contexts| == 0 || (contexts[0].bypassPermission != "" && sender.HasPermission(contexts[0].bypassPermission))
    ensures PreCheck(store, sender, contexts, now) == None
    ensures Armed(store, sender, contexts, successful, now) == store
  {
  }

  /**
   * The eviction is not guarded by the expiration it was scheduled for: on
   * any valid controller, arm a key at `firstAt` and again at `secondAt`,
   * then fire the first arm's eviction.  A check inside the second window is
   * blocked before that eviction and let through after it, while the second
   * arm's eviction is still pending.
   */
  method StaleEvictionClearsRearm(controller: CooldownStateController, sender: Sender,
                                  contexts: seq<CooldownContext>, firstAt: int, secondAt: int, checkedAt: int)
    returns (before: Option<CooldownState>, after: Option<CooldownState>)
    requires controller.Valid()
    requires OperativeContext(contexts, sender).Some?
    requires secondAt <= checkedAt < secondAt + contexts[0].duration
    modifies controller
    ensures controller.Valid()
    ensures var expiration := secondAt + contexts[0].duration;
            before == Some(CooldownState(contexts[0], expiration - checkedAt, expiration))
    ensures after == None
    ensures KeyOf(sender, contexts[0]) !in controller.cooldowns
    ensures controller.pending == old(controller.pending)
              + [Eviction(KeyOf(sender, contexts[0]), contexts[0].duration, secondAt + contexts[0].duration)]
  {
    var first := |controller.pending|;
    controller.OnPostExecution(sender, contexts, true, firstAt);
    assert controller.pending[first].dueAt == firstAt + contexts[0].duration;
    controller.OnPostExecution(sender, contexts, true, secondAt);
    before := controller.OnPreExecution(sender, contexts, checkedAt);
    controller.FireEviction(first);
    after := controller.OnPreExecution(sender, contexts, checkedAt);
  }

  /**
   * A controller driven through the race: duration 2, armed at 0 and at 2,
   * the first eviction fires, and a check at 3 is no longer blocked.
   */
  method EvictionRaceScenario() returns (atOne: Option<CooldownState>, atThree: Option<CooldownState>,
                                         afterEviction: Option<CooldownState>)
    ensures atOne == Some(CooldownState(CooldownContext("cmd", 2, ""), 1, 2))
    ensures atThree == Some(CooldownState(CooldownContext("cmd", 2, ""), 1, 4))
    ensures afterEviction == None
  {
    var sender := Sender("alice", {});
    var contexts := [CooldownContext("cmd", 2, "")];
    var controller := new CooldownStateController();
    controller.OnPostExecution(sender, contexts, true, 0);
    atOne := controller.OnPreExecution(sender, contexts, 1);
    var atTwo := controller.OnPreExecution(sender, contexts, 2);
    assert atTwo == None;
    controller.OnPostExecution(sender, contexts, true, 2);
    atThree := controller.OnPreExecution(sender, contexts, 3);
    controller.FireEviction(0);
    afterEviction := controller.OnPreExecution(sender, contexts, 3);
  }
}
