/** What the two startup passes of `NovaEngine` do, as functions of what
    discovery produced: the startup configurations (`INovaStartup`) run by
    `ConfigureServices` and the startup tasks (`IStartupTask`) run by
    `RunStartupTasks`. Observable effects form an append-only trace of events.
 */
module Startup {
  import opened Core
  import opened Linq

  /** What `Activator.CreateInstance` produced for one discovered type. */
  datatype Activation<T> = Created(instance: T) | NullInstance | Threw(activated: TypeKey)

  /** One `services.AddSingleton(...)` registration. */
  datatype ServiceDescriptor = ServiceDescriptor(serviceType: TypeKey, implementation: Obj)

  /** An `INovaStartup` instance: its `Order`, the registrations its
      `ConfigureServices` adds, and whether that call then throws. */
  datatype StartupConfiguration = StartupConfiguration(name: TypeKey, order: int, registrations: seq<ServiceDescriptor>, throws: bool)

  /** An `IStartupTask` instance: its `Order` and whether `Execute` throws. */
  datatype StartupTask = StartupTask(name: TypeKey, order: int, throws: bool)

  datatype Event =
    | Registered(descriptor: ServiceDescriptor)          // a service added to the collection
    | Configured(configuration: StartupConfiguration)   // INovaStartup.ConfigureServices called
    | Executed(task: StartupTask)                       // IStartupTask.Execute called
    | ResolveHandlerAttached                            // AppDomain.AssemblyResolve += handler

  /** The events a pass appends and how it ends. */
  datatype Run = Run(events: seq<Event>, status: Status)

  function ConfigurationOrder(c: StartupConfiguration): int { c.order }
  function TaskOrder(t: StartupTask): int { t.order }
  predicate ConfigurationThrows(c: StartupConfiguration) { c.throws }
  predicate TaskThrows(t: StartupTask) { t.throws }
  function ConfigurationFailure(c: StartupConfiguration): Error { Thrown(c.name) }
  function TaskFailure(t: StartupTask): Error { Thrown(t.name) }
  predicate ActivationThrew<T>(a: Activation<T>) { a.Threw? }

  function Registrations(ds: seq<ServiceDescriptor>): seq<Event> {
    seq(|ds|, i requires 0 <= i < |ds| => Registered(ds[i]))
  }

  /** The events of one configuration: the call, then what it registered. */
  function ConfigurationEffect(c: StartupConfiguration): seq<Event> {
    [Configured(c)] + Registrations(c.registrations)
  }

  function TaskEffect(t: StartupTask): seq<Event> {
    [Executed(t)]
  }

  /** The events of running each element of `s` in turn, none of them failing. */
  function Effects<T>(s: seq<T>, effect: T -> seq<Event>): seq<Event> {
    if s == [] then [] else Effects(s[..|s| - 1], effect) + effect(s[|s| - 1])
  }

  /** `.Where(x => x != null)` over the activation results. */
  function Instances<T>(acts: seq<Activation<T>>): (r: seq<T>)
    ensures |r| <= |acts|
    ensures forall i :: 0 <= i < |r| ==> Created(r[i]) in acts
    ensures forall i :: 0 <= i < |acts| && acts[i].Created? ==> acts[i].instance in r
  {
    if acts == [] then []
    else
      assert acts == [acts[0]] + acts[1..];
      (if acts[0].Created? then [acts[0].instance] else []) + Instances(acts[1..])
  }

  /** A `foreach` over `s` with no `catch`: each element runs in turn, and the
      first one that throws ends the loop with its exception. */
  function RunInOrder<T>(s: seq<T>, effect: T -> seq<Event>, throws: T -> bool, failure: T -> Error): Run {
    if s == [] then Run([], Ok)
    else if throws(s[0]) then Run(effect(s[0]), Fail(failure(s[0])))
    else
      var rest := RunInOrder(s[1..], effect, throws, failure);
      Run(effect(s[0]) + rest.events, rest.status)
  }

  /** The startup tasks in the order they run. */
  function TasksInOrder(acts: seq<Activation<StartupTask>>): seq<StartupTask> {
    OrderBy(Instances(acts), TaskOrder)
  }

  /** The startup configurations in the order they run. */
  function ConfigurationsInOrder(acts: seq<Activation<StartupConfiguration>>): seq<StartupConfiguration> {
    OrderBy(Instances(acts), ConfigurationOrder)
  }

  /** One startup pass over the discovered types: activate them all (the
      first activation that throws ends the pass before anything runs), drop
      the null instances, sort by `Order` and run them in turn. */
  function ActivateAndRun<T>(acts: seq<Activation<T>>, key: T -> int, effect: T -> seq<Event>,
                             throws: T -> bool, failure: T -> Error): Run {
    var f := FirstWhere(acts, ActivationThrew);
    if f < |acts| then Run([], Fail(ActivationFailed(acts[f].activated)))
    else RunInOrder(OrderBy(Instances(acts), key), effect, throws, failure)
  }

  /** `RunStartupTasks`. Reading `Singleton<ITypeFinder>.Instance` fails when it
      was never set. `OrderBy` buffers its whole source before yielding, so every
      type is activated before the first task runs. */
  function StartupTasksRun(typeFinderSet: bool, acts: seq<Activation<StartupTask>>): Run {
    if !typeFinderSet then Run([], Fail(InvalidOperation(InstanceNotSet)))
    else ActivateAndRun(acts, TaskOrder, TaskEffect, TaskThrows, TaskFailure)
  }

  /** `ConfigureServices`: register the engine, run the configurations in order,
      register the service collection, run the startup tasks, attach the
      assembly-resolve handler. Any exception ends the call where it arises. */
  function ConfigureServicesRun(engine: Obj, services: Obj, typeFinderSet: bool,
                                configs: seq<Activation<StartupConfiguration>>,
                                tasks: seq<Activation<StartupTask>>): Run {
    var head := [Registered(ServiceDescriptor(EngineType, engine))];
    if !typeFinderSet then Run(head, Fail(InvalidOperation(InstanceNotSet)))
    else
      var c := ActivateAndRun(configs, ConfigurationOrder, ConfigurationEffect, ConfigurationThrows, ConfigurationFailure);
      if c.status.Fail? then Run(head + c.events, c.status)
      else
        var mid := head + c.events + [Registered(ServiceDescriptor(ServiceCollectionType, services))];
        var t := StartupTasksRun(typeFinderSet, tasks);
        if t.status.Fail? then Run(mid + t.events, t.status)
        else Run(mid + t.events + [ResolveHandlerAttached], Ok)
  }

  // ---------------------------------------------------------------------------
  // Properties

  lemma {:induction false} EffectsConcat<T>(a: seq<T>, b: seq<T>, effect: T -> seq<Event>)
    ensures Effects(a + b, effect) == Effects(a, effect) + Effects(b, effect)
    decreases |b|
  {
    if b == [] {
      assert a + b == a;
    } else {
      var b' := b[..|b| - 1];
      assert (a + b)[..|a + b| - 1] == a + b';
      assert (a + b)[|a + b| - 1] == b[|b| - 1];
      EffectsConcat(a, b', effect);
    }
  }

  /** The filter extends by one activation at a time, as the loop that
      forces it does. */
  lemma {:induction false} InstancesSnoc<T>(acts: seq<Activation<T>>, a: Activation<T>)
    ensures Instances(acts + [a]) == Instances(acts) + (if a.Created? then [a.instance] else [])
  {
    if acts == [] {
      assert acts + [a] == [a];
      assert [a][1..] == [];
    } else {
      assert (acts + [a])[0] == acts[0];
      assert (acts + [a])[1..] == acts[1..] + [a];
      InstancesSnoc(acts[1..], a);
    }
  }

  /** The loop form and the recursive form agree: running `s` in order performs
      the effects of every element up to and including the first that throws,
      and fails with that element's exception; if none throws, all of `s` runs. */
  lemma {:induction false} RunInOrderStopsAtFirstThrow<T>(s: seq<T>, effect: T -> seq<Event>, throws: T -> bool, failure: T -> Error)
    ensures var n := FirstWhere(s, throws);
      RunInOrder(s, effect, throws, failure) ==
        if n < |s| then Run(Effects(s[..n + 1], effect), Fail(failure(s[n])))
        else Run(Effects(s, effect), Ok)
  {
    if s == [] {
    } else {
      var n := FirstWhere(s, throws);
      EffectsConcat([s[0]], s[1..], effect);
      assert Effects([s[0]], effect) == effect(s[0]) by {
        assert [s[0]][..0] == [];
      }
      if throws(s[0]) {
        assert n == 0;
        assert s[..1] == [s[0]];
      } else {
        RunInOrderStopsAtFirstThrow(s[1..], effect, throws, failure);
        var m := FirstWhere(s[1..], throws);
        assert n == m + 1 by {
          assert forall j :: 0 <= j < m ==> s[1..][j] == s[j + 1];
        }
        assert [s[0]] + s[1..] == s;
        if m < |s| - 1 {
          assert s[..n + 1] == [s[0]] + s[1..][..m + 1];
          EffectsConcat([s[0]], s[1..][..m + 1], effect);
        }
      }
    }
  }

  lemma EffectsStep<T>(s: seq<T>, k: int, effect: T -> seq<Event>)
    requires 0 <= k < |s|
    ensures Effects(s[..k + 1], effect) == Effects(s[..k], effect) + effect(s[k])
  {
    assert s[..k + 1][..k] == s[..k];
  }

  /** Where a loop over `s` that has run the first `k` elements without an
      exception stops: at the end, or at a `k`-th element that throws. */
  lemma RunInOrderExit<T>(s: seq<T>, k: int, effect: T -> seq<Event>, throws: T -> bool, failure: T -> Error)
    requires 0 <= k <= |s|
    requires forall j :: 0 <= j < k ==> !throws(s[j])
    ensures k == |s| ==> RunInOrder(s, effect, throws, failure) == Run(Effects(s[..k], effect), Ok)
    ensures k < |s| && throws(s[k]) ==> RunInOrder(s, effect, throws, failure) == Run(Effects(s[..k + 1], effect), Fail(failure(s[k])))
  {
    RunInOrderStopsAtFirstThrow(s, effect, throws, failure);
    assert s[..|s|] == s;
  }

  /** The tasks that run are the non-null instances, each exactly as often as it
      was discovered, in ascending `Order`, ties in discovery order. */
  lemma StartupTaskOrder(acts: seq<Activation<StartupTask>>)
    ensures var ts := TasksInOrder(acts);
      && multiset(ts) == multiset(Instances(acts))
      && Sorted(ts, TaskOrder)
      && forall k :: WithKey(ts, TaskOrder, k) == WithKey(Instances(acts), TaskOrder, k)
  {
    OrderByCharacterized(Instances(acts), TasksInOrder(acts), TaskOrder);
  }

  /** The effects of running tasks are one `Executed` event per task, in
      order: the trace of a startup pass is literally the task sequence. */
  lemma {:induction false} TaskEffectsExecuted(ts: seq<StartupTask>)
    ensures Effects(ts, TaskEffect) == seq(|ts|, i requires 0 <= i < |ts| => Executed(ts[i]))
  {
    if ts != [] {
      var init := ts[..|ts| - 1];
      TaskEffectsExecuted(init);
      assert forall i :: 0 <= i < |init| ==> init[i] == ts[i];
    }
  }

  /** The trace of a completed `RunStartupTasks` is ascending by `Order`, holds
      each non-null task once, and keeps tasks of equal `Order` in discovery order. */
  lemma StartupTraceOrdered(acts: seq<Activation<StartupTask>>)
    requires StartupTasksRun(true, acts).status == Ok
    ensures var log := StartupTasksRun(true, acts).events;
      && |log| == |TasksInOrder(acts)|
      && (forall i :: 0 <= i < |log| ==> log[i] == Executed(TasksInOrder(acts)[i]))
      && (forall i, j :: 0 <= i < j < |log| ==> log[i].task.order <= log[j].task.order)
      && multiset(TasksInOrder(acts)) == multiset(Instances(acts))
      && forall k :: WithKey(TasksInOrder(acts), TaskOrder, k) == WithKey(Instances(acts), TaskOrder, k)
  {
    StartupTasksComplete(true, acts);
    StartupTaskOrder(acts);
    TaskEffectsExecuted(TasksInOrder(acts));
  }

  /** The same for startup configurations. */
  lemma ConfigurationOrderIsStable(acts: seq<Activation<StartupConfiguration>>)
    ensures var cs := ConfigurationsInOrder(acts);
      && multiset(cs) == multiset(Instances(acts))
      && Sorted(cs, ConfigurationOrder)
      && forall k :: WithKey(cs, ConfigurationOrder, k) == WithKey(Instances(acts), ConfigurationOrder, k)
  {
    OrderByCharacterized(Instances(acts), ConfigurationsInOrder(acts), ConfigurationOrder);
  }

  /** Null instances never run: only `Created` activations reach the sorted list. */
  lemma NullInstancesDropped<T>(acts: seq<Activation<T>>, key: T -> int, x: T)
    ensures x in OrderBy(Instances(acts), key) <==> Created(x) in acts
  {
    assert x in OrderBy(Instances(acts), key) <==> x in multiset(OrderBy(Instances(acts), key));
    if Created(x) in acts {
      var j :| 0 <= j < |acts| && acts[j] == Created(x);
    }
    if x in Instances(acts) {
      var j :| 0 <= j < |Instances(acts)| && Instances(acts)[j] == x;
    }
  }

  /** No activation throws exactly when the search for a throwing one runs
      off the end. */
  lemma NoActivationThrew<T>(acts: seq<Activation<T>>)
    ensures FirstWhere(acts, ActivationThrew) == |acts| <==> forall a :: a in acts ==> !a.Threw?
  {
    var f := FirstWhere(acts, ActivationThrew);
    if f < |acts| {
      assert acts[f] in acts;
    } else {
      forall a | a in acts ensures !a.Threw? {
        var j :| 0 <= j < |acts| && acts[j] == a;
      }
    }
  }

  /** Sorting neither adds nor drops an element. */
  lemma OrderByMembers<T>(s: seq<T>, key: T -> int)
    ensures forall x :: x in OrderBy(s, key) <==> x in s
  {
    var o := OrderBy(s, key);
    forall x ensures x in o <==> x in s {
      assert x in o <==> x in multiset(o);
      assert x in s <==> x in multiset(s);
    }
  }

  /** A `foreach` over `s` completes exactly when no element throws, and then
      it has performed the effects of all of `s`. */
  lemma RunInOrderCompletes<T>(s: seq<T>, effect: T -> seq<Event>, throws: T -> bool, failure: T -> Error)
    ensures RunInOrder(s, effect, throws, failure).status == Ok <==> forall x :: x in s ==> !throws(x)
    ensures RunInOrder(s, effect, throws, failure).status == Ok ==>
      RunInOrder(s, effect, throws, failure).events == Effects(s, effect)
  {
    RunInOrderStopsAtFirstThrow(s, effect, throws, failure);
    var n := FirstWhere(s, throws);
    if n < |s| {
      assert s[n] in s;
    } else {
      forall x | x in s ensures !throws(x) {
        var j :| 0 <= j < |s| && s[j] == x;
      }
    }
  }

  /** `RunStartupTasks` succeeds exactly when the type finder is set, no
      activation throws and no task throws; then every task runs, in order. */
  lemma StartupTasksComplete(typeFinderSet: bool, acts: seq<Activation<StartupTask>>)
    ensures StartupTasksRun(typeFinderSet, acts).status == Ok <==>
      typeFinderSet && (forall a :: a in acts ==> !a.Threw?) && forall t :: t in Instances(acts) ==> !t.throws
    ensures StartupTasksRun(typeFinderSet, acts).status == Ok ==>
      StartupTasksRun(typeFinderSet, acts).events == Effects(TasksInOrder(acts), TaskEffect)
  {
    NoActivationThrew(acts);
    OrderByMembers(Instances(acts), TaskOrder);
    RunInOrderCompletes(TasksInOrder(acts), TaskEffect, TaskThrows, TaskFailure);
  }

  /** A task that throws aborts the remaining ones: when the pass fails in a
      task, the tasks executed are the sorted prefix that ends with the first
      throwing task, and the failure names that task. */
  lemma StartupTaskFailureAborts(acts: seq<Activation<StartupTask>>)
    requires forall a :: a in acts ==> !a.Threw?
    ensures var ts := TasksInOrder(acts); var n := FirstWhere(ts, TaskThrows);
      n < |ts| ==> StartupTasksRun(true, acts) == Run(Effects(ts[..n + 1], TaskEffect), Fail(Thrown(ts[n].name)))
  {
    RunInOrderStopsAtFirstThrow(TasksInOrder(acts), TaskEffect, TaskThrows, TaskFailure);
  }

  /** `ConfigureServices` registers the engine before anything else, whatever
      happens afterwards. */
  lemma EngineRegisteredFirst(engine: Obj, services: Obj, typeFinderSet: bool,
                              configs: seq<Activation<StartupConfiguration>>, tasks: seq<Activation<StartupTask>>)
    ensures var r := ConfigureServicesRun(engine, services, typeFinderSet, configs, tasks);
      |r.events| > 0 && r.events[0] == Registered(ServiceDescriptor(EngineType, engine))
  {
  }

  /** When `ConfigureServices` completes, the trace is: the engine registration,
      every configuration in stable ascending `Order` with its registrations,
      the service collection registration, every startup task in stable
      ascending `Order`, and last the resolve handler. */
  lemma {:induction false} ConfigureServicesOrder(engine: Obj, services: Obj, typeFinderSet: bool,
                                                  configs: seq<Activation<StartupConfiguration>>, tasks: seq<Activation<StartupTask>>)
    requires ConfigureServicesRun(engine, services, typeFinderSet, configs, tasks).status == Ok
    ensures typeFinderSet
    ensures ConfigureServicesRun(engine, services, typeFinderSet, configs, tasks).events ==
      [Registered(ServiceDescriptor(EngineType, engine))]
      + Effects(ConfigurationsInOrder(configs), ConfigurationEffect)
      + [Registered(ServiceDescriptor(ServiceCollectionType, services))]
      + Effects(TasksInOrder(tasks), TaskEffect)
      + [ResolveHandlerAttached]
  {
    var cs := ConfigurationsInOrder(configs);
    RunInOrderStopsAtFirstThrow(cs, ConfigurationEffect, ConfigurationThrows, ConfigurationFailure);
    StartupTasksComplete(typeFinderSet, tasks);
  }
}
