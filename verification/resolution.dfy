/** Service resolution in `NovaEngine`: `GetServiceProvider`, `Resolve`, and
    what one constructor attempt of `ResolveUnregistered` does. The DI
    container is a partial map from service type to instance.
 */
module Resolution {
  import opened Core

  /** An `IServiceProvider`: `GetService(t)` is `services[t]`, or null when absent. */
  datatype ServiceProvider = ServiceProvider(services: map<TypeKey, Obj>)

  /** An `IServiceScope`, whose `ServiceProvider` may itself be null. */
  datatype Scope = Scope(serviceProvider: Option<ServiceProvider>)

  /** What a call of `Resolve(type)` gave: a service, null, or an exception. */
  type Resolved = Result<Option<Obj>, Error>

  /** `GetServiceProvider(scope)`: the scope's provider, or `ArgumentNullException`
      when the scope or its provider is null. */
  function GetServiceProvider(scope: Option<Scope>): (r: Result<ServiceProvider, Error>)
    ensures r.Success? <==> scope.Some? && scope.value.serviceProvider.Some?
    ensures r.Success? ==> r.value == scope.value.serviceProvider.value
    ensures r.Failure? ==> r.error == ArgumentNull("scope")
  {
    match scope
    case Some(Scope(Some(provider))) => Success(provider)
    case _ => Failure(ArgumentNull("scope"))
  }

  /** `Resolve(type, scope)`: asks the scope's provider for the service. */
  function Resolve(t: TypeKey, scope: Option<Scope>): (r: Resolved)
    ensures scope.None? ==> r == Failure(ArgumentNull("scope"))
    ensures r.Failure? <==> GetServiceProvider(scope).Failure?
    ensures r.Failure? ==> r.error == ArgumentNull("scope")
    ensures r.Success? ==> GetServiceProvider(scope).Success?
    ensures r.Success? ==> (r.value.Some? <==> t in GetServiceProvider(scope).value.services)
    ensures r.Success? && r.value.Some? ==> r.value.value == GetServiceProvider(scope).value.services[t]
  {
    match GetServiceProvider(scope)
    case Failure(e) => Failure(e)
    case Success(provider) => Success(if t in provider.services then Some(provider.services[t]) else None)
  }

  /** The `Resolve(type)` that the base engine's `ResolveUnregistered` calls:
      no scope is passed. */
  function BaseResolve(t: TypeKey): Resolved {
    Resolve(t, None)
  }

  /** An unscoped `Resolve` never returns a service in the base engine. */
  lemma UnscopedResolveThrows(t: TypeKey)
    ensures BaseResolve(t) == Failure(ArgumentNull("scope"))
    ensures !Resolves(BaseResolve(t))
  {
  }

  predicate Resolves(res: Resolved) {
    res.Success? && res.value.Some?
  }

  /** The exception that abandons a constructor at a parameter that did not
      resolve: the one `Resolve` threw, or "Unknown dependency" for null. */
  function ParameterFailure(res: Resolved): Error
    requires !Resolves(res)
  {
    if res.Failure? then res.error else Nova(UnknownDependency, None)
  }

  /** Index of the first parameter that does not resolve, or `|ps|`. */
  function FirstUnresolved(ps: seq<TypeKey>, resolve: TypeKey -> Resolved): (n: nat)
    ensures n <= |ps|
  {
    if ps == [] then 0
    else if !Resolves(resolve(ps[0])) then 0
    else 1 + FirstUnresolved(ps[1..], resolve)
  }

  lemma {:induction false} FirstUnresolvedIsFirst(ps: seq<TypeKey>, resolve: TypeKey -> Resolved)
    ensures forall i :: 0 <= i < FirstUnresolved(ps, resolve) ==> Resolves(resolve(ps[i]))
    ensures FirstUnresolved(ps, resolve) < |ps| ==> !Resolves(resolve(ps[FirstUnresolved(ps, resolve)]))
  {
    if ps != [] && Resolves(resolve(ps[0])) {
      FirstUnresolvedIsFirst(ps[1..], resolve);
      assert forall i :: 1 <= i < |ps| ==> ps[i] == ps[1..][i - 1];
    }
  }

  /** `constructor.GetParameters().Select(p => Resolve(p) ?? throw).ToArray()`. */
  function ResolveParameters(ps: seq<TypeKey>, resolve: TypeKey -> Resolved): Result<seq<Obj>, Error> {
    if ps == [] then Success([])
    else
      var head := resolve(ps[0]);
      if !Resolves(head) then Failure(ParameterFailure(head))
      else match ResolveParameters(ps[1..], resolve)
        case Failure(e) => Failure(e)
        case Success(rest) => Success([head.value.value] + rest)
  }

  /** The `Resolve` calls one constructor attempt makes. */
  function ParameterCalls(ps: seq<TypeKey>, resolve: TypeKey -> Resolved): seq<TypeKey> {
    var n := FirstUnresolved(ps, resolve);
    if n < |ps| then ps[..n + 1] else ps
  }

  /** Parameters resolve left to right, and the lazy `Select` forced by
      `ToArray` stops at the first one that is null or throws: the array is
      built exactly when every parameter resolves, holding the services in
      parameter order; otherwise the attempt fails with the exception of the
      first parameter that did not resolve, and no later parameter is asked for. */
  lemma {:induction false} ParametersLeftToRight(ps: seq<TypeKey>, resolve: TypeKey -> Resolved)
    ensures ResolveParameters(ps, resolve).Success? <==> forall i :: 0 <= i < |ps| ==> Resolves(resolve(ps[i]))
    ensures ResolveParameters(ps, resolve).Success? ==>
      && |ResolveParameters(ps, resolve).value| == |ps|
      && (forall i :: 0 <= i < |ps| ==> resolve(ps[i]) == Success(Some(ResolveParameters(ps, resolve).value[i])))
      && ParameterCalls(ps, resolve) == ps
    ensures ResolveParameters(ps, resolve).Failure? ==>
      exists n :: 0 <= n < |ps| && (forall i :: 0 <= i < n ==> Resolves(resolve(ps[i])))
        && !Resolves(resolve(ps[n]))
        && ResolveParameters(ps, resolve).error == ParameterFailure(resolve(ps[n]))
        && ParameterCalls(ps, resolve) == ps[..n + 1]
  {
    FirstUnresolvedIsFirst(ps, resolve);
    if ps != [] && Resolves(resolve(ps[0])) {
      ParametersLeftToRight(ps[1..], resolve);
      FirstUnresolvedIsFirst(ps[1..], resolve);
      assert forall i :: 1 <= i < |ps| ==> ps[i] == ps[1..][i - 1];
      var r := ResolveParameters(ps, resolve);
      if r.Failure? {
        var m :| 0 <= m < |ps[1..]| && (forall i :: 0 <= i < m ==> Resolves(resolve(ps[1..][i])))
          && !Resolves(resolve(ps[1..][m]))
          && r.error == ParameterFailure(resolve(ps[1..][m]));
        assert ps[1..][m] == ps[m + 1];
        assert FirstUnresolved(ps, resolve) == m + 1;
        assert ParameterCalls(ps, resolve) == ps[..m + 2];
      }
    } else if ps != [] {
      assert ParameterCalls(ps, resolve) == ps[..1];
    }
  }

  /** A public constructor: its parameter types, and whether its body throws. */
  datatype Constructor = Constructor(parameters: seq<TypeKey>, throws: bool)

  /** One iteration of the constructor loop: resolve the parameters, then
      `Activator.CreateInstance`, whose exceptions are caught like the others. */
  function Attempt(t: TypeKey, c: Constructor, resolve: TypeKey -> Resolved): Result<seq<Obj>, Error> {
    match ResolveParameters(c.parameters, resolve)
    case Failure(e) => Failure(e)
    case Success(args) => if c.throws then Failure(TargetInvocation(t)) else Success(args)
  }

  /** What one constructor attempt gave: the resolved arguments, or the
      exception caught. */
  type Outcome = Result<seq<Obj>, Error>

  /** The outcome of attempting each constructor of `cs`, in order. A
      definitional helper: its ensures only give element access. */
  function Outcomes(t: TypeKey, cs: seq<Constructor>, resolve: TypeKey -> Resolved): (os: seq<Outcome>)
    ensures |os| == |cs|
    ensures forall j :: 0 <= j < |cs| ==> os[j] == Attempt(t, cs[j], resolve)
  {
    seq(|cs|, j requires 0 <= j < |cs| => Attempt(t, cs[j], resolve))
  }

  /** The `Resolve` calls each constructor attempt of `cs` makes, in order. A
      definitional helper: its ensures only give element access. */
  function CallsOf(cs: seq<Constructor>, resolve: TypeKey -> Resolved): (calls: seq<seq<TypeKey>>)
    ensures |calls| == |cs|
    ensures forall j :: 0 <= j < |cs| ==> calls[j] == ParameterCalls(cs[j].parameters, resolve)
  {
    seq(|cs|, j requires 0 <= j < |cs| => ParameterCalls(cs[j].parameters, resolve))
  }

  /** The calls of several attempts, one after another. */
  function Flatten(calls: seq<seq<TypeKey>>): seq<TypeKey> {
    if calls == [] then [] else calls[0] + Flatten(calls[1..])
  }

  /** An object made by `Activator.CreateInstance`: its type, the constructor
      used (an index into `GetConstructors()`) and the arguments passed. */
  datatype Instance = Instance(instanceType: TypeKey, ctorIndex: nat, arguments: seq<Obj>)

  /** The constructor loop of `ResolveUnregistered(t)` from the `i`-th
      constructor on, given the outcome of each attempt; `inner` holds the
      exception caught last. */
  function Search(t: TypeKey, os: seq<Outcome>, i: nat, inner: Option<Error>): Result<Instance, Error>
    requires i <= |os|
    decreases |os| - i
  {
    if i == |os| then Failure(Nova(NoConstructorSatisfied, inner))
    else match os[i]
      case Success(args) => Success(Instance(t, i, args))
      case Failure(e) => Search(t, os, i + 1, Some(e))
  }

  /** The `Resolve` calls that loop makes from the `i`-th constructor on. */
  function SearchCalls(os: seq<Outcome>, calls: seq<seq<TypeKey>>, i: nat): seq<TypeKey>
    requires |calls| == |os| && i <= |os|
    decreases |os| - i
  {
    if i == |os| then []
    else calls[i] + (if os[i].Success? then [] else SearchCalls(os, calls, i + 1))
  }

  lemma {:induction false} SearchOutcome(t: TypeKey, os: seq<Outcome>, i: nat, inner: Option<Error>)
    requires i <= |os|
    ensures var r := Search(t, os, i, inner);
      r.Success? ==>
        && r.value.instanceType == t && i <= r.value.ctorIndex < |os|
        && os[r.value.ctorIndex] == Success(r.value.arguments)
        && (forall j :: i <= j < r.value.ctorIndex ==> os[j].Failure?)
    ensures var r := Search(t, os, i, inner);
      r.Failure? ==>
        && (forall j :: i <= j < |os| ==> os[j].Failure?)
        && r.error == Nova(NoConstructorSatisfied, if i == |os| then inner else Some(os[|os| - 1].error))
    decreases |os| - i
  {
    if i < |os| && os[i].Failure? {
      SearchOutcome(t, os, i + 1, Some(os[i].error));
    }
  }

  /** The calls made from the `i`-th constructor on are those of every
      constructor tried, up to the one that succeeds. */
  lemma {:induction false} SearchCallsTried(t: TypeKey, os: seq<Outcome>, calls: seq<seq<TypeKey>>, i: nat, inner: Option<Error>)
    requires |calls| == |os| && i <= |os|
    ensures var r := Search(t, os, i, inner);
      var k := if r.Success? then r.value.ctorIndex + 1 else |os|;
      i <= k <= |os| && SearchCalls(os, calls, i) == Flatten(calls[i..k])
    decreases |os| - i
  {
    SearchOutcome(t, os, i, inner);
    if i == |os| {
      assert calls[i..i] == [];
    } else if os[i].Success? {
      assert calls[i..i + 1] == [calls[i]];
      assert calls[i..i + 1][1..] == [];
      assert calls[i] + [] == calls[i];
    } else {
      SearchCallsTried(t, os, calls, i + 1, Some(os[i].error));
      var r := Search(t, os, i + 1, Some(os[i].error));
      var k := if r.Success? then r.value.ctorIndex + 1 else |os|;
      assert calls[i..k][0] == calls[i];
      assert calls[i..k][1..] == calls[i + 1..k];
    }
  }

  /** Constructor choice when one succeeds: the result comes from the first
      constructor, in the order given, whose attempt succeeds, after every
      earlier one failed; the `Resolve` calls are those of the constructors
      tried up to it, so no later constructor is tried. */
  lemma ConstructorChosen(t: TypeKey, cs: seq<Constructor>, resolve: TypeKey -> Resolved)
    ensures var r := Search(t, Outcomes(t, cs, resolve), 0, None);
      r.Success? ==>
        && r.value.instanceType == t && r.value.ctorIndex < |cs|
        && Attempt(t, cs[r.value.ctorIndex], resolve) == Success(r.value.arguments)
        && (forall j :: 0 <= j < r.value.ctorIndex ==> Attempt(t, cs[j], resolve).Failure?)
        && SearchCalls(Outcomes(t, cs, resolve), CallsOf(cs, resolve), 0) == Flatten(CallsOf(cs, resolve)[..r.value.ctorIndex + 1])
  {
    var os, calls := Outcomes(t, cs, resolve), CallsOf(cs, resolve);
    SearchOutcome(t, os, 0, None);
    SearchCallsTried(t, os, calls, 0, None);
    var r := Search(t, os, 0, None);
    if r.Success? {
      assert calls[0..r.value.ctorIndex + 1] == calls[..r.value.ctorIndex + 1];
    }
  }

  /** Constructor choice when none succeeds: every constructor was tried and
      failed, and the `NovaException` carries the last failure, or none when
      there are no constructors. */
  lemma NoConstructorChosen(t: TypeKey, cs: seq<Constructor>, resolve: TypeKey -> Resolved)
    ensures var r := Search(t, Outcomes(t, cs, resolve), 0, None);
      r.Failure? ==>
        && (forall j :: 0 <= j < |cs| ==> Attempt(t, cs[j], resolve).Failure?)
        && r.error == Nova(NoConstructorSatisfied, if cs == [] then None else Some(Attempt(t, cs[|cs| - 1], resolve).error))
        && SearchCalls(Outcomes(t, cs, resolve), CallsOf(cs, resolve), 0) == Flatten(CallsOf(cs, resolve))
  {
    var os, calls := Outcomes(t, cs, resolve), CallsOf(cs, resolve);
    SearchOutcome(t, os, 0, None);
    SearchCallsTried(t, os, calls, 0, None);
    assert calls[0..|calls|] == calls;
  }

  /** In the base engine, where `Resolve` is unscoped, a constructor attempt
      succeeds exactly when the constructor takes no parameters and its body
      does not throw; one with parameters fails at its first parameter with
      the `ArgumentNullException` of `GetServiceProvider`. */
  lemma BaseEngineAttempt(t: TypeKey, c: Constructor)
    ensures Attempt(t, c, BaseResolve).Success? <==> c.parameters == [] && !c.throws
    ensures c.parameters != [] ==> Attempt(t, c, BaseResolve) == Failure(ArgumentNull("scope"))
    ensures c.parameters != [] ==> ParameterCalls(c.parameters, BaseResolve) == c.parameters[..1]
  {
    if c.parameters != [] {
      UnscopedResolveThrows(c.parameters[0]);
      assert FirstUnresolved(c.parameters, BaseResolve) == 0;
    }
  }
}
