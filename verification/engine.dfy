/** `NovaEngine`: the startup passes, constructor selection for unregistered
    services and the assembly-resolve handler, over the engine's observable
    trace, the singleton registry and the assembly index.
 */
module Engine {
  import opened Core
  import opened Linq
  import opened Singletons
  import opened Startup
  import opened Resolution
  import opened Assemblies

  /** `.Select(t => Activator.CreateInstance(t)).Where(x => x != null)`, forced
      in full by `OrderBy`: every discovered type is activated in turn and the
      first activation that throws ends the pass. */
  method ActivateAll<T>(acts: seq<Activation<T>>) returns (r: Result<seq<T>, Error>)
    ensures r.Success? <==> FirstWhere(acts, ActivationThrew) == |acts|
    ensures r.Success? ==> r.value == Instances(acts)
    ensures r.Failure? ==> FirstWhere(acts, ActivationThrew) < |acts|
    ensures r.Failure? ==> r.error == ActivationFailed(acts[FirstWhere(acts, ActivationThrew)].activated)
  {
    var instances: seq<T> := [];
    var i := 0;
    while i < |acts|
      invariant 0 <= i <= |acts|
      invariant forall j :: 0 <= j < i ==> !ActivationThrew(acts[j])
      invariant instances == Instances(acts[..i])
    {
      assert acts[..i + 1] == acts[..i] + [acts[i]];
      InstancesSnoc(acts[..i], acts[i]);
      if acts[i].Threw? {
        return Failure(ActivationFailed(acts[i].activated));
      } else if acts[i].Created? {
        instances := instances + [acts[i].instance];
      }
      i := i + 1;
    }
    assert acts[..i] == acts;
    return Success(instances);
  }

  class NovaEngine {
    /** The engine object itself, as registered by `ConfigureServices`. */
    const handle: Obj
    /** The process-wide singleton registry (read for `ITypeFinder`). */
    const singletons: Singleton
    /** The static `AssemblyResolver` index. */
    const assemblyResolver: AssemblyResolver
    /** Everything the engine has done that can be observed: registrations,
        configuration and task calls, the handler attachment. */
    var trace: seq<Event>

    constructor (handle: Obj, singletons: Singleton, assemblyResolver: AssemblyResolver)
      ensures this.handle == handle && this.singletons == singletons && this.assemblyResolver == assemblyResolver
      ensures trace == []
    {
      this.handle := handle;
      this.singletons := singletons;
      this.assemblyResolver := assemblyResolver;
      trace := [];
    }

    /** The `foreach` of both startup passes: call each element of `s` in
        turn, recording its effects; an exception ends the loop. */
    method RunEach<T>(s: seq<T>, effect: T -> seq<Event>, throws: T -> bool, failure: T -> Error)
      returns (status: Status)
      modifies this
      ensures trace == old(trace) + RunInOrder(s, effect, throws, failure).events
      ensures status == RunInOrder(s, effect, throws, failure).status
    {
      var k := 0;
      while k < |s|
        invariant 0 <= k <= |s|
        invariant trace == old(trace) + Effects(s[..k], effect)
        invariant forall j :: 0 <= j < k ==> !throws(s[j])
      {
        var x := s[k];
        EffectsStep(s, k, effect);
        AppendAssoc(old(trace), Effects(s[..k], effect), effect(x));
        trace := trace + effect(x);
        if throws(x) {
          RunInOrderExit(s, k, effect, throws, failure);
          return Fail(failure(x));
        }
        k := k + 1;
      }
      RunInOrderExit(s, k, effect, throws, failure);
      status := Ok;
    }

    /** One startup pass: activate the discovered types, sort the instances
        by `key` and run them. */
    method RunPass<T>(acts: seq<Activation<T>>, key: T -> int, effect: T -> seq<Event>,
                      throws: T -> bool, failure: T -> Error) returns (status: Status)
      modifies this
      ensures trace == old(trace) + ActivateAndRun(acts, key, effect, throws, failure).events
      ensures status == ActivateAndRun(acts, key, effect, throws, failure).status
    {
      var instances := ActivateAll(acts);
      if instances.Failure? {
        return Fail(instances.error);
      }
      status := RunEach(OrderBy(instances.value, key), effect, throws, failure);
    }

    /** `RunStartupTasks`: read the type finder, then run the startup tasks it
        discovered, sorted by `Order`. */
    method RunStartupTasks(discovered: seq<Activation<StartupTask>>) returns (status: Status)
      modifies this
      ensures trace == old(trace) + StartupTasksRun(TypeFinderType in singletons.instances, discovered).events
      ensures status == StartupTasksRun(TypeFinderType in singletons.instances, discovered).status
    {
      var typeFinder := singletons.GetInstance(TypeFinderType);
      if typeFinder.Failure? {
        return Fail(typeFinder.error);
      }
      status := RunPass(discovered, TaskOrder, TaskEffect, TaskThrows, TaskFailure);
    }

    /** `ConfigureServices`: register the engine, run the startup
        configurations in `Order`, register the service collection, run the
        startup tasks, and attach the assembly-resolve handler. */
    method ConfigureServices(services: Obj, configs: seq<Activation<StartupConfiguration>>,
                             tasks: seq<Activation<StartupTask>>) returns (status: Status)
      modifies this
      ensures trace == old(trace) + ConfigureServicesRun(handle, services, TypeFinderType in singletons.instances, configs, tasks).events
      ensures status == ConfigureServicesRun(handle, services, TypeFinderType in singletons.instances, configs, tasks).status
    {
      ghost var spec := ConfigureServicesRun(handle, services, TypeFinderType in singletons.instances, configs, tasks);
      var head := [Registered(ServiceDescriptor(EngineType, handle))];
      trace := trace + head;
      var typeFinder := singletons.GetInstance(TypeFinderType);
      if typeFinder.Failure? {
        assert spec == Run(head, Fail(InvalidOperation(InstanceNotSet)));
        return Fail(typeFinder.error);
      }
      ghost var c := ActivateAndRun(configs, ConfigurationOrder, ConfigurationEffect, ConfigurationThrows, ConfigurationFailure);
      status := RunPass(configs, ConfigurationOrder, ConfigurationEffect, ConfigurationThrows, ConfigurationFailure);
      AppendAssoc(old(trace), head, c.events);
      if status.Fail? {
        assert spec == Run(head + c.events, c.status);
        return;
      }
      ghost var mid := head + c.events + [Registered(ServiceDescriptor(ServiceCollectionType, services))];
      trace := trace + [Registered(ServiceDescriptor(ServiceCollectionType, services))];
      AppendAssoc(old(trace), head + c.events, [Registered(ServiceDescriptor(ServiceCollectionType, services))]);
      ghost var t := StartupTasksRun(true, tasks);
      status := RunStartupTasks(tasks);
      AppendAssoc(old(trace), mid, t.events);
      if status.Fail? {
        assert spec == Run(mid + t.events, t.status);
        return;
      }
      trace := trace + [ResolveHandlerAttached];
      AppendAssoc(old(trace), mid + t.events, [ResolveHandlerAttached]);
      assert spec == Run(mid + t.events + [ResolveHandlerAttached], Ok);
    }

    /** `ResolveUnregistered(type)`: try the constructors in the order given,
        resolving each one's parameters with `resolve` (the engine's virtual
        `Resolve`); the first attempt that succeeds gives the instance, and if
        none does, a `NovaException` wraps the last failure. `calls` lists the
        `Resolve` calls made, in order. */
    method ResolveUnregistered(t: TypeKey, ctors: seq<Constructor>, resolve: TypeKey -> Resolved)
      returns (r: Result<Instance, Error>, calls: seq<TypeKey>)
      ensures r == Search(t, Outcomes(t, ctors, resolve), 0, None)
      ensures calls == SearchCalls(Outcomes(t, ctors, resolve), CallsOf(ctors, resolve), 0)
    {
      ghost var os, attemptCalls := Outcomes(t, ctors, resolve), CallsOf(ctors, resolve);
      var innerException: Option<Error> := None;
      calls := [];
      var i := 0;
      while i < |ctors|
        invariant 0 <= i <= |ctors|
        invariant Search(t, os, 0, None) == Search(t, os, i, innerException)
        invariant SearchCalls(os, attemptCalls, 0) == calls + SearchCalls(os, attemptCalls, i)
      {
        var attempt := Attempt(t, ctors[i], resolve);
        assert attempt == os[i];
        AppendAssoc(calls, attemptCalls[i], if attempt.Success? then [] else SearchCalls(os, attemptCalls, i + 1));
        calls := calls + ParameterCalls(ctors[i].parameters, resolve);
        if attempt.Success? {
          assert calls + [] == calls;
          return Success(Instance(t, i, attempt.value)), calls;
        }
        innerException := Some(attempt.error);
        i := i + 1;
      }
      assert calls + [] == calls;
      r := Failure(Nova(NoConstructorSatisfied, innerException));
    }

    /** `CurrentDomain_AssemblyResolve`: an assembly already loaded with the
        requested full name; else (reading the type finder, which throws when
        unset) one of the type finder's assemblies with that full name; else
        the fallback index. `name` is the short name parsed from `fullName`.
        `loaded` is what the first `GetAssemblies()` call returns; `loadedAtScan`
        is what the index build's own call returns, which may differ when the
        type finder loaded assemblies in between. */
    method CurrentDomainAssemblyResolve(fullName: string, name: string, loaded: seq<Assembly>,
                                        finderAssemblies: seq<Assembly>, loadedAtScan: seq<Assembly>,
                                        files: seq<Option<Assembly>>)
      returns (r: Result<Option<Assembly>, Error>)
      requires assemblyResolver.Valid()
      modifies assemblyResolver
      ensures assemblyResolver.Valid()
      ensures HasFullName(loaded, fullName) ==>
        r == Success(Some(loaded[FullNameIndex(loaded, fullName)])) && unchanged(assemblyResolver)
      ensures !HasFullName(loaded, fullName) && TypeFinderType !in singletons.instances ==>
        r == Failure(InvalidOperation(InstanceNotSet)) && unchanged(assemblyResolver)
      ensures !HasFullName(loaded, fullName) && TypeFinderType in singletons.instances && HasFullName(finderAssemblies, fullName) ==>
        r == Success(Some(finderAssemblies[FullNameIndex(finderAssemblies, fullName)])) && unchanged(assemblyResolver)
      ensures !HasFullName(loaded, fullName) && TypeFinderType in singletons.instances && !HasFullName(finderAssemblies, fullName) ==>
        && r == Success(Lookup(assemblyResolver.assemblies, fullName, name))
        && (old(assemblyResolver.assemblies) != map[] ==> assemblyResolver.assemblies == old(assemblyResolver.assemblies))
        && (old(assemblyResolver.assemblies) != map[] ==> assemblyResolver.builds == old(assemblyResolver.builds))
        && (old(assemblyResolver.assemblies) == map[] ==> assemblyResolver.assemblies == AddAll(map[], loadedAtScan + LoadedFiles(files)))
        && (old(assemblyResolver.assemblies) == map[] ==> assemblyResolver.builds == old(assemblyResolver.builds) + 1)
    {
      var assembly := FirstWithFullName(loaded, fullName);
      if assembly.Some? {
        return Success(assembly);
      }
      var typeFinder := singletons.GetInstance(TypeFinderType);
      if typeFinder.Failure? {
        return Failure(typeFinder.error);
      }
      assembly := FirstWithFullName(finderAssemblies, fullName);
      if assembly.Some? {
        return Success(assembly);
      }
      assembly := assemblyResolver.GetAssemblyByFullName(fullName, name, loadedAtScan, files);
      r := Success(assembly);
    }
  }
}
