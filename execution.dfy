/**
 * One execution node of the command tree: aggregating the permission scopes
 * of its ancestors and itself, the permission and argument-count gates, the
 * dispatch to the executor with its error branch, and completion.
 */
module Execution {
  import opened Wrappers
  import opened Invocations

  /** The reason a gate stops an invocation with. */
  datatype ValidationInfo = NoPermission | InvalidUse | Custom(name: string)

  /**
   * The rules one node declares: permissions it requires, permissions it
   * excludes, and its (foreign) argument-count validator.
   */
  datatype Scope = Scope(permissions: set<string>, permissionsExclude: set<string>, argsValidator: int -> bool)

  /** The per-invocation context: the scopes of the resolvers traversed so far, oldest first. */
  datatype MetaData = MetaData(invocation: Invocation, traces: seq<Scope>, currentArgsCount: int)

  /** A foreign argument handler; `tabulation` gives suggestions from the command name and arguments. */
  datatype ArgumentHandler = ArgumentHandler(tabulation: (string, seq<string>) -> seq<string>)

  /**
   * The node: its scope, the executor's parameters by index and the parser's
   * argument handlers by parameter.
   */
  datatype Component = Component(scope: Scope, parameters: map<int, string>, handlers: map<string, ArgumentHandler>)

  /** What the asynchronous executor delivers: success, a validation exception, or any other error. */
  datatype ExecuteResult =
    | Completed
    | ValidationFailure(info: ValidationInfo, message: Option<string>)
    | Failure(error: string)

  /** What the `onError` handler does with the executor's result. */
  datatype ErrorHandling =
    | NoError
    | StopFlow(info: ValidationInfo)
    | Rethrow(info: ValidationInfo, message: Option<string>)
    | Log(error: string)

  /** How `resolveExecution` ends: stopped by a gate, or dispatched to the executor. */
  datatype Resolution = Rejected(reason: ValidationInfo) | Dispatched(handling: ErrorHandling)

  /** One scope's step: add what it requires, then remove what it excludes. */
  function ApplyScope(permissions: set<string>, scope: Scope): set<string> {
    (permissions + scope.permissions) - scope.permissionsExclude
  }

  /** Left fold of `ApplyScope` over `scopes`, starting from `seed`. */
  function Fold(seed: set<string>, scopes: seq<Scope>): set<string>
    decreases |scopes|
  {
    if |scopes| == 0 then seed
    else ApplyScope(Fold(seed, scopes[..|scopes| - 1]), scopes[|scopes| - 1])
  }

  /** No scope from index `from` on excludes `p`. */
  ghost predicate KeptFrom(p: string, scopes: seq<Scope>, from: int) {
    forall j :: 0 <= from <= j < |scopes| ==> p !in scopes[j].permissionsExclude
  }

  /** Scope `i` requires `p` and no scope from `i` on excludes it. */
  ghost predicate GrantedAt(p: string, scopes: seq<Scope>, i: int) {
    0 <= i < |scopes| && p in scopes[i].permissions && KeptFrom(p, scopes, i)
  }

  /**
   * A permission ends up in the fold exactly when it was seeded or required
   * by some scope and no scope at or after that point excludes it.
   */
  lemma {:induction false} FoldMembership(seed: set<string>, scopes: seq<Scope>, p: string)
    ensures p in Fold(seed, scopes) <==>
      (p in seed && KeptFrom(p, scopes, 0)) || exists i :: GrantedAt(p, scopes, i)
    decreases |scopes|
  {
    if |scopes| > 0 {
      var n := |scopes| - 1;
      var init := scopes[..n];
      var last := scopes[n];
      FoldMembership(seed, init, p);
      if p in last.permissionsExclude {
        forall i | 0 <= i < |scopes|
          ensures !GrantedAt(p, scopes, i)
        {
          assert scopes[n] == last;
        }
        assert !KeptFrom(p, scopes, 0) by { assert scopes[n] == last; }
      } else {
        forall i | 0 <= i <= n
          ensures KeptFrom(p, scopes, i) <==> KeptFrom(p, init, i)
        {
          if KeptFrom(p, init, i) {
            forall j | i <= j < |scopes|
              ensures p !in scopes[j].permissionsExclude
            {
              if j < n { assert scopes[j] == init[j]; }
            }
          }
          if KeptFrom(p, scopes, i) {
            forall j | i <= j < |init|
              ensures p !in init[j].permissionsExclude
            {
              assert scopes[j] == init[j];
            }
          }
        }
        if p in last.permissions {
          assert GrantedAt(p, scopes, n);
        } else {
          if i :| GrantedAt(p, init, i) {
            assert scopes[i] == init[i];
            assert GrantedAt(p, scopes, i);
          }
          if i :| GrantedAt(p, scopes, i) {
            assert i < n;
            assert scopes[i] == init[i];
            assert GrantedAt(p, init, i);
          }
        }
      }
    }
  }

  /**
   * A permission excluded by scope `j` is absent from the fold unless a later
   * scope requires it again, whatever earlier scopes or the seed required.
   */
  lemma ExclusionWins(seed: set<string>, scopes: seq<Scope>, p: string, j: int)
    requires 0 <= j < |scopes| && p in scopes[j].permissionsExclude
    requires forall k :: j < k < |scopes| ==> p !in scopes[k].permissions
    ensures p !in Fold(seed, scopes)
  {
    FoldMembership(seed, scopes, p);
    forall i | 0 <= i < |scopes|
      ensures !GrantedAt(p, scopes, i)
    {
      if i <= j {
        assert !KeptFrom(p, scopes, i);
      }
    }
  }

  /**
   * An ancestor's exclusion never revokes what a later scope requires: a
   * permission required at `i` and not excluded from `i` on is in the fold.
   */
  lemma LaterRequirementSurvives(seed: set<string>, scopes: seq<Scope>, p: string, i: int)
    requires 0 <= i < |scopes| && p in scopes[i].permissions
    requires forall j :: i <= j < |scopes| ==> p !in scopes[j].permissionsExclude
    ensures p in Fold(seed, scopes)
  {
    FoldMembership(seed, scopes, p);
    assert GrantedAt(p, scopes, i);
  }

  /** A seed contained in what the last scope requires does not change the fold. */
  lemma SeedIrrelevant(seed: set<string>, scopes: seq<Scope>)
    requires |scopes| > 0 && seed <= scopes[|scopes| - 1].permissions
    ensures Fold(seed, scopes) == Fold({}, scopes)
  {
    forall p
      ensures p in Fold(seed, scopes) <==> p in Fold({}, scopes)
    {
      FoldMembership(seed, scopes, p);
      FoldMembership({}, scopes, p);
      if p in seed && KeptFrom(p, scopes, 0) {
        assert GrantedAt(p, scopes, |scopes| - 1);
      }
    }
  }

  /**
   * The node's effective permissions: the set seeded with its own
   * permissions, folded over its ancestors' scopes and then its own.
   */
  function EffectivePermissions(traces: seq<Scope>, own: Scope): (r: set<string>)
    ensures r == Fold({}, traces + [own])
    ensures forall p :: p in own.permissionsExclude ==> p !in r
    ensures forall p :: p in own.permissions && p !in own.permissionsExclude ==> p in r
  {
    SeedIrrelevant(own.permissions, traces + [own]);
    Fold(own.permissions, traces + [own])
  }

  predicate HoldsAll(sender: Sender, permissions: set<string>) {
    forall p :: p in permissions ==> sender.HasPermission(p)
  }

  /**
   * The executor's error branch: a validation exception stops the flow with
   * its reason when it has no message and is rethrown otherwise; any other
   * error is only logged.
   */
  function OnError(result: ExecuteResult): (h: ErrorHandling)
    ensures h.NoError? <==> result.Completed?
    ensures h.Log? <==> result.Failure?
    ensures result.ValidationFailure? ==> (h.StopFlow? || h.Rethrow?) && h.info == result.info
    ensures result.ValidationFailure? ==> (h.StopFlow? <==> result.message.None?)
    ensures h.Rethrow? ==> h == Rethrow(result.info, result.message)
    ensures h.Log? ==> h.error == result.error
  {
    match result
    case Completed => NoError
    case ValidationFailure(info, message) =>
      if message.None? then StopFlow(info) else Rethrow(info, message)
    case Failure(error) => Log(error)
  }

  /**
   * `resolveExecution`: folds the scopes, stops with `NoPermission` on some
   * permission the sender lacks, then with `InvalidUse` when the validator
   * rejects the argument count, and only otherwise dispatches to the
   * executor, whose result `executed` reaches the error branch.
   */
  method ResolveExecution(component: Component, data: MetaData, executed: ExecuteResult) returns (r: Resolution)
    ensures var permissions := EffectivePermissions(data.traces, component.scope);
            r == Rejected(NoPermission) <==>
              exists p :: p in permissions && !data.invocation.sender.HasPermission(p)
    ensures var permissions := EffectivePermissions(data.traces, component.scope);
            r == Rejected(InvalidUse) <==>
              HoldsAll(data.invocation.sender, permissions) && !component.scope.argsValidator(data.currentArgsCount)
    ensures var permissions := EffectivePermissions(data.traces, component.scope);
            r.Dispatched? <==>
              HoldsAll(data.invocation.sender, permissions) && component.scope.argsValidator(data.currentArgsCount)
    ensures r.Dispatched? ==> r.handling == OnError(executed)
  {
    var sender := data.invocation.sender;
    var own := component.scope;
    var scopes := data.traces + [own];

    var permissions := own.permissions;
    var i := 0;
    while i < |scopes|
      invariant 0 <= i <= |scopes|
      invariant permissions == Fold(own.permissions, scopes[..i])
    {
      assert scopes[..i + 1][..i] == scopes[..i];
      permissions := permissions + scopes[i].permissions;
      permissions := permissions - scopes[i].permissionsExclude;
      i := i + 1;
    }
    assert scopes[..i] == scopes;

    var unchecked := permissions;
    while unchecked != {}
      invariant unchecked <= permissions
      invariant forall p :: p in permissions - unchecked ==> sender.HasPermission(p)
      decreases unchecked
    {
      var permission :| permission in unchecked;
      if !sender.HasPermission(permission) {
        return Rejected(NoPermission);
      }
      unchecked := unchecked - {permission};
    }

    if !own.argsValidator(data.currentArgsCount) {
      return Rejected(InvalidUse);
    }

    return Dispatched(OnError(executed));
  }

  /**
   * `getExecutorCompletion`: the handler's suggestions for the parameter at
   * `argNumber`, or nothing when there is no such parameter or no handler.
   */
  function ExecutorCompletion(component: Component, invocation: Invocation, argNumber: int): (r: seq<string>)
    ensures argNumber !in component.parameters ==> r == []
    ensures argNumber in component.parameters && component.parameters[argNumber] !in component.handlers ==> r == []
    ensures argNumber in component.parameters && component.parameters[argNumber] in component.handlers ==>
      r == component.handlers[component.parameters[argNumber]].tabulation(invocation.name, invocation.arguments)
  {
    var parameter := if argNumber in component.parameters then Some(component.parameters[argNumber]) else None;
    var handler := if parameter.Some? && parameter.value in component.handlers
                   then Some(component.handlers[parameter.value]) else None;
    if handler.Some? then handler.value.tabulation(invocation.name, invocation.arguments) else []
  }

  /** `resolveCompletion`: completion for the last argument typed, index `currentArgsCount - 1`. */
  function ResolveCompletion(component: Component, data: MetaData): (r: seq<string>)
    ensures r == ExecutorCompletion(component, data.invocation, data.currentArgsCount - 1)
    ensures data.currentArgsCount - 1 !in component.parameters ==> r == []
  {
    ExecutorCompletion(component, data.invocation, data.currentArgsCount - 1)
  }

  /** A node requiring "cmd.use", invoked by a sender without it, is stopped with `NoPermission`. */
  method NoPermissionScenario(executed: ExecuteResult) returns (r: Resolution)
    ensures r == Rejected(NoPermission)
  {
    var own := Scope({"cmd.use"}, {}, (count: int) => count == 1);
    var data := MetaData(Invocation(Sender("alice", {}), "cmd", []), [], 0);
    assert "cmd.use" in EffectivePermissions([], own);
    r := ResolveExecution(Component(own, map[], map[]), data, executed);
  }

  /** A node validating exactly one argument, invoked with none, is stopped with `InvalidUse`. */
  method InvalidUseScenario(executed: ExecuteResult) returns (r: Resolution)
    ensures r == Rejected(InvalidUse)
  {
    var own := Scope({"cmd.use"}, {}, (count: int) => count == 1);
    var data := MetaData(Invocation(Sender("alice", {"cmd.use"}), "cmd", []), [], 0);
    assert EffectivePermissions([], own) == {"cmd.use"} by {
      assert Fold({}, [own]) == ApplyScope({}, own);
    }
    r := ResolveExecution(Component(own, map[], map[]), data, executed);
  }
}
