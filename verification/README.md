# Nova.Core bootstrap, verified in Dafny

This project models the bootstrap and registry core of `Nova.Core`, the engine
library of the Nova ultrasound application. It covers four parts:

- **The singleton registry.** `Singleton<T>.Instance` sits over the static
  table `BaseSingleton.AllSingletons`, which every closed `Singleton<T>` shares.
  Reading an unset instance throws. Setting null throws. Any other set is
  last-write-wins and is mirrored into the table under `typeof(T)` only.
- **Startup orchestration** in `NovaEngine`. `ConfigureServices` does these
  steps in order:
  1. registers the engine;
  2. activates the discovered `INovaStartup` types, drops null instances,
     sorts the rest stably by `Order` and runs each one;
  3. registers the service collection;
  4. runs `RunStartupTasks`, which does the same with `IStartupTask`;
  5. attaches the assembly-resolve handler.

  An exception ends the call where it arises. The engine's observable effects
  form an append-only trace of events.
- **Service resolution**:
  - `GetServiceProvider` and `Resolve` act over a scope. A missing scope throws
    `ArgumentNullException`.
  - `ResolveUnregistered` tries constructors in the order reflection reports.
    It resolves each constructor's parameters left to right, stopping at the
    first that is null or throws.
  - The first constructor that succeeds gives the instance.
  - When none succeeds, a `NovaException` carries the last failure.
- **The assembly fallback index** `NovaEngine.AssemblyResolver`. It is a
  two-level map: short name (case-insensitive) → full name (exact) → assembly.
  - It is filled by scanning only while it is empty.
  - Its lookup (`getAssembly`) returns the exact full-name match, else the first
    entry under the short name.
  - `CurrentDomain_AssemblyResolve` wraps the index in a precedence chain:
    first the assemblies already loaded, then the type finder's assemblies,
    then the index.

Reflection, the DI container and the file system are replaced by plain data:
- a `Type` is a `TypeKey` (its full name);
- an object is an opaque handle `Obj`, and null is `None`;
- a constructor is its list of parameter types, plus whether its body throws;
- an assembly is a (short name, full name) pair;
- an `Activator.CreateInstance` result is an `Activation` value: an instance,
  null, or an exception;
- the engine's virtual `Resolve(type)` is a function parameter `resolve`;
- the files of the application directory are a sequence of load outcomes.

Files and modules:

| file | module | what it holds |
|---|---|---|
| core.dfy | `Core` | type keys, objects, `Option`/`Result`/`Status`, the exception type `Error`, message constants |
| singleton.dfy | `Singletons` | the `BaseSingleton` table class and the `Singleton` class (every closed `Singleton<T>` at once) |
| linq.dfy | `Linq` | `OrderBy` as a stable insertion sort, the per-key filter `WithKey`, `FirstWhere`, and the characterisation of `OrderBy` |
| startup.dfy | `Startup` | activations, startup records, trace events, and the specification functions and lemmas of both startup passes |
| resolution.dfy | `Resolution` | `GetServiceProvider`, `Resolve`, parameter resolution, constructor attempts, and the constructor search with its calls |
| assemblies.dfy | `Assemblies` | the index as functions (`Add`, `AddAll`, `Lookup`), its lemmas, and the `AssemblyResolver` class that fills it in place |
| engine.dfy | `Engine` | the `NovaEngine` class, whose methods are the loops of the source, each proved against the specification functions |

## Model

All paths are under `Libraries/Nova.Core/Infrastructure/`.

| member | source | states |
|---|---|---|
| Singletons.BaseSingleton.constructor | Libraries/Nova.Core/Infrastructure/BaseSingleton.cs:11-14 | the static constructor creates the shared table empty |
| Singletons.Singleton.constructor | Libraries/Nova.Core/Infrastructure/Singleton.cs:9-11 | before any set, every closed type's `_instance` is null; the registry is tied to one shared table, which is never replaced |
| Singletons.Singleton.GetInstance | Libraries/Nova.Core/Infrastructure/Singleton.cs:18 | the getter succeeds exactly when the type's instance is set, returns that instance, and otherwise throws `InvalidOperationException("Instance is not set.")` |
| Singletons.Singleton.SetInstance | Libraries/Nova.Core/Infrastructure/Singleton.cs:19-27 | a null value throws `ArgumentNullException("value")` and changes neither `_instance` nor the table; any other value replaces the instance and the table entry under that type key only (last write wins); every set instance stays mirrored in the table (`Valid`) |
| Singletons.RegistryLifecycle | Libraries/Nova.Core/Infrastructure/Singleton.cs:11-26 | on a fresh registry: reading before a set fails; a null set is refused and keeps the earlier value; a second set wins; another type's instance and table entry are untouched; the table ends holding exactly the two last values |
| Linq.InsertSorted | Libraries/Nova.Core/Infrastructure/NovaEngine.cs:36 | inserting into an ascending sequence keeps it ascending |
| Linq.InsertWithKey | Libraries/Nova.Core/Infrastructure/NovaEngine.cs:36 | insertion puts the new element before every element of its own key that was already there, and leaves every other key's elements as they were |
| Linq.OrderBySorted | Libraries/Nova.Core/Infrastructure/NovaEngine.cs:36 | `OrderBy` yields its elements in ascending key order |
| Linq.OrderByStable | Libraries/Nova.Core/Infrastructure/NovaEngine.cs:36 | `OrderBy` is stable: for every key, the elements with that key come out in input order |
| Linq.SortedStableUnique | Libraries/Nova.Core/Infrastructure/NovaEngine.cs:36 | two ascending sequences that agree on every key's elements are equal |
| Linq.OrderByCharacterized | Libraries/Nova.Core/Infrastructure/NovaEngine.cs:36 | a sequence is `OrderBy(s, key)` exactly when it is ascending and stable with respect to `s` (both directions) |
| Startup.Instances | Libraries/Nova.Core/Infrastructure/NovaEngine.cs:34-35 | the filter keeps exactly the created (non-null) instances |
| Startup.RunInOrderStopsAtFirstThrow | Libraries/Nova.Core/Infrastructure/NovaEngine.cs:39-40 | a `foreach` without `catch` performs the effects of every element up to and including the first that throws, then fails with that element's exception; if none throws, it performs them all |
| Startup.RunInOrderCompletes | Libraries/Nova.Core/Infrastructure/NovaEngine.cs:39-40 | such a loop completes exactly when no element throws, and then its effects are those of every element in order |
| Startup.NoActivationThrew | Libraries/Nova.Core/Infrastructure/NovaEngine.cs:33-34 | the search for a throwing activation runs off the end exactly when no activation threw |
| Startup.StartupTaskOrder | Libraries/Nova.Core/Infrastructure/NovaEngine.cs:33-36 | the tasks that run are a permutation of the non-null instances, in ascending `Order`, with equal `Order` in discovery order |
| Startup.ConfigurationOrderIsStable | Libraries/Nova.Core/Infrastructure/NovaEngine.cs:76-79 | the same for the startup configurations |
| Startup.NullInstancesDropped | Libraries/Nova.Core/Infrastructure/NovaEngine.cs:35-36 | an instance is in the sorted list exactly when its activation created it; null activations never run |
| Startup.StartupTasksComplete | Libraries/Nova.Core/Infrastructure/NovaEngine.cs:24-41 | `RunStartupTasks` completes exactly when the type finder is set, no activation throws and no task throws; then every task has run once, in sorted order |
| Startup.StartupTaskFailureAborts | Libraries/Nova.Core/Infrastructure/NovaEngine.cs:39-40 | a task that throws aborts the rest: the tasks executed are the sorted prefix ending with the first throwing task, and the failure names that task |
| Startup.TaskEffectsExecuted | Libraries/Nova.Core/Infrastructure/NovaEngine.cs:39-40 | running tasks appends one `Executed` event per task, in the order run |
| Startup.StartupTraceOrdered | Libraries/Nova.Core/Infrastructure/NovaEngine.cs:33-40 | the log of a completed `RunStartupTasks` is one `Executed` event per sorted task, ascending by `Order`, a permutation of the non-null instances, and stable on ties |
| Startup.EngineRegisteredFirst | Libraries/Nova.Core/Infrastructure/NovaEngine.cs:69 | whatever happens later, the engine's own registration is the first event of `ConfigureServices` |
| Startup.ConfigureServicesOrder | Libraries/Nova.Core/Infrastructure/NovaEngine.cs:66-92 | when `ConfigureServices` completes, the type finder was set and the trace is exactly: engine registration, each configuration in stable `Order` with its registrations, the service-collection registration, each startup task in stable `Order`, the resolve handler |
| Resolution.GetServiceProvider | Libraries/Nova.Core/Infrastructure/NovaEngine.cs:16-19 | it returns the scope's provider exactly when the scope and its provider are non-null, and otherwise throws `ArgumentNullException("scope")` |
| Resolution.Resolve | Libraries/Nova.Core/Infrastructure/NovaEngine.cs:111-114 | it throws exactly when `GetServiceProvider` does (a null scope, or a scope whose provider is null), and then always `ArgumentNullException("scope")`; otherwise the result is non-null exactly when the provider holds the type, and is then that service |
| Resolution.UnscopedResolveThrows | Libraries/Nova.Core/Infrastructure/NovaEngine.cs:111-114 | through `GetServiceProvider` (lines 16-19), the base engine's unscoped `Resolve` always throws `ArgumentNullException` and never returns a service |
| Resolution.FirstUnresolvedIsFirst | Libraries/Nova.Core/Infrastructure/NovaEngine.cs:138-144 | every parameter before the first unresolved one resolves, and that one does not |
| Resolution.ParametersLeftToRight | Libraries/Nova.Core/Infrastructure/NovaEngine.cs:138-147 | the argument array is built exactly when every parameter resolves, holding the services in parameter order, and then every parameter was asked for; otherwise it fails with the exception of the first parameter that is null (`"Unknown dependency"`) or throws, and no later parameter is asked for |
| Resolution.SearchOutcome | Libraries/Nova.Core/Infrastructure/NovaEngine.cs:133-154 | the loop's result is the first successful attempt from the current position, after only failures; if there is none, a `NovaException` whose inner exception is the last one caught |
| Resolution.SearchCallsTried | Libraries/Nova.Core/Infrastructure/NovaEngine.cs:134-152 | the `Resolve` calls made are those of the constructors tried, up to and including the one that succeeds |
| Resolution.ConstructorChosen | Libraries/Nova.Core/Infrastructure/NovaEngine.cs:131-147 | on success the instance comes from the first constructor whose attempt succeeds, every earlier one failed, and no later constructor is attempted |
| Resolution.NoConstructorChosen | Libraries/Nova.Core/Infrastructure/NovaEngine.cs:133-154 | on failure every constructor failed; the `NovaException("No constructor was found …")` carries the last failure, or no inner exception when the type has no constructors |
| Resolution.BaseEngineAttempt | Libraries/Nova.Core/Infrastructure/NovaEngine.cs:138-147 | in the base engine, whose `GetServiceProvider` (lines 16-19) rejects a missing scope, a constructor attempt succeeds exactly when it has no parameters and its body does not throw; otherwise it fails at its first parameter with the scope's `ArgumentNullException` |
| Assemblies.FullNameIndex | Libraries/Nova.Core/Infrastructure/NovaEngine.cs:48 | the position of the first assembly with that full name, or the length when there is none |
| Assemblies.FirstWithFullName | Libraries/Nova.Core/Infrastructure/NovaEngine.cs:48 | `FirstOrDefault(a => a.FullName == name)`, also used on line 54: some assembly has that full name exactly when the result is non-null, and then it is the first such assembly |
| Assemblies.Add | Libraries/Nova.Core/Infrastructure/NovaEngine.cs:196-210 | an empty short name changes nothing; otherwise the folded short name becomes a key; only that bucket changes; it gains the assembly at its end unless it already holds that full name |
| Assemblies.LoadedFiles | Libraries/Nova.Core/Infrastructure/NovaEngine.cs:220-228 | exactly the files whose load succeeded are kept; a failed load is skipped |
| Assemblies.Lookup | Libraries/Nova.Core/Infrastructure/NovaEngine.cs:176-194 | a miss exactly when the short name is empty, absent (ignoring case) or has an empty bucket; otherwise an entry of that bucket, namely the one with the requested full name if any, else the bucket's first entry |
| Assemblies.AddPreservesWellFormed | Libraries/Nova.Core/Infrastructure/NovaEngine.cs:196-210 | adding keeps the index's shape: no empty bucket, each entry under its own folded short name, full names unique per bucket |
| Assemblies.AddAllPreservesWellFormed | Libraries/Nova.Core/Infrastructure/NovaEngine.cs:217-228 | so does adding a whole sequence |
| Assemblies.AddAllExtends | Libraries/Nova.Core/Infrastructure/NovaEngine.cs:203-209 | entries are never removed or replaced: each bucket only grows at its end |
| Assemblies.AddAllKeys | Libraries/Nova.Core/Infrastructure/NovaEngine.cs:200-207 | the short-name keys are exactly the earlier keys plus the folded non-empty short names added |
| Assemblies.AddAllFrom | Libraries/Nova.Core/Infrastructure/NovaEngine.cs:203-209 | every entry of the index was there before or was added |
| Assemblies.IndexEmptyIff | Libraries/Nova.Core/Infrastructure/NovaEngine.cs:200-218 | a build leaves the index empty exactly when every assembly scanned had an empty short name, so only then does the next lookup scan again |
| Assemblies.FirstAddedKept | Libraries/Nova.Core/Infrastructure/NovaEngine.cs:209 | for a duplicate full name under one short name, the index holds the first assembly added |
| Assemblies.FirstLoadedHeadsBucket | Libraries/Nova.Core/Infrastructure/NovaEngine.cs:203-209 | the first assembly added under a short name heads its bucket after the whole build |
| Assemblies.LookupAfterBuild | Libraries/Nova.Core/Infrastructure/NovaEngine.cs:176-230 | after a build, a lookup by a short name that was added hits; it returns the exact full-name match if there is one, otherwise the first assembly added under that short name |
| Assemblies.AssemblyResolver.constructor | Libraries/Nova.Core/Infrastructure/NovaEngine.cs:172 | the static index starts empty and well-formed |
| Assemblies.AssemblyResolver.AddAssembly | Libraries/Nova.Core/Infrastructure/NovaEngine.cs:196-210 | the in-place `addAssembly` leaves the index equal to `Add` of the old index and keeps it well-formed |
| Assemblies.AssemblyResolver.AddEach | Libraries/Nova.Core/Infrastructure/NovaEngine.cs:217-218 | the loop over loaded assemblies adds each of them in order |
| Assemblies.AssemblyResolver.AddLoadable | Libraries/Nova.Core/Infrastructure/NovaEngine.cs:220-228 | the loop over files adds, in order, each assembly that loads and skips failed loads |
| Assemblies.AssemblyResolver.GetAssemblyByFullName | Libraries/Nova.Core/Infrastructure/NovaEngine.cs:174-231 | a non-empty index is left untouched and no scan happens; an empty one is built from the loaded assemblies and then the loadable files, with exactly one scan; the answer is `getAssembly` on the resulting index |
| Engine.ActivateAll | Libraries/Nova.Core/Infrastructure/NovaEngine.cs:33-36 | every discovered type is activated before anything runs; the pass fails exactly when an activation throws, with the first such exception; otherwise it yields the non-null instances in discovery order |
| Engine.NovaEngine.constructor | Libraries/Nova.Core/Infrastructure/NovaEngine.cs:14 | a new engine has an empty trace and is tied to the shared registry and index |
| Engine.NovaEngine.RunEach | Libraries/Nova.Core/Infrastructure/NovaEngine.cs:39-40 | the `foreach` (and its twin on lines 82-83) appends exactly what `RunInOrder` specifies and ends with its status |
| Engine.NovaEngine.RunPass | Libraries/Nova.Core/Infrastructure/NovaEngine.cs:33-40 | one pass (and its twin on lines 76-83), activating, filtering, sorting and then running, appends and returns what `ActivateAndRun` specifies |
| Engine.NovaEngine.RunStartupTasks | Libraries/Nova.Core/Infrastructure/NovaEngine.cs:24-41 | the trace grows by exactly the specified startup-task run, which fails first if the type finder is unset |
| Engine.NovaEngine.ConfigureServices | Libraries/Nova.Core/Infrastructure/NovaEngine.cs:66-92 | the trace grows by exactly the specified `ConfigureServices` run, with its status |
| Engine.NovaEngine.ResolveUnregistered | Libraries/Nova.Core/Infrastructure/NovaEngine.cs:131-155 | the loop over constructors returns the constructor search's result and makes exactly its `Resolve` calls |
| Engine.NovaEngine.CurrentDomainAssemblyResolve | Libraries/Nova.Core/Infrastructure/NovaEngine.cs:43-57 | precedence: a loaded assembly with the exact full name wins; otherwise the unset type finder throws; otherwise the type finder's match wins; otherwise the index answers. The index and its scan count are untouched unless the last stage is reached; there a non-empty index is not rescanned, and an empty one is built in exactly one scan from the assemblies loaded at that moment (read again, separately from the first stage) and the loadable files |

## Left out

- `ResolveAll<T>` (NovaEngine.cs:121-124) is not modelled. It delegates to the DI container's `GetServices`, and in the base class it always hits the null-scope throw shown by `Resolution.UnscopedResolveThrows`.
- The generic `Resolve<T>` (NovaEngine.cs:100-103) only casts the result of `Resolve(type)`. Casts are not modelled.
- The DI container is reduced to a partial map from type key to service: `IServiceCollection` is the append-only list of `Registered` events, and `IServiceProvider.GetService` is a map lookup. Registrations made inside an `INovaStartup.ConfigureServices` are given as data on the configuration record.
- Reflection is reduced to data:
  - `FindClassesOfType` and `GetAssemblies` are input sequences.
  - `Activator.CreateInstance` is an input outcome per type.
  - `GetConstructors`/`GetParameters` are a list of parameter types per constructor.
  - Binding `CreateInstance(type, args)` is taken to pick the constructor being tried.
  - An `AssemblyName` parse is the short name, passed in next to the full name; parse exceptions are not modelled.
- The file system and logging are inputs or absent. `GetFiles` is a sequence of per-file load outcomes, and `Trace.TraceError` is dropped.
- The `+=` that attaches the handler (NovaEngine.cs:91) is recorded as a trace event. AppDomain event dispatch is not modelled.
- Assemblies.Lookup: the bucket's first entry stands for `Values.First()` (NovaEngine.cs:193). This assumes that a `Dictionary` only ever added to enumerates in insertion order, which .NET does not promise.
- Short names compare with ASCII case folding only. `StringComparer.InvariantCultureIgnoreCase` also folds non-ASCII letters, which is not modelled.
- The `?.` on the type finder at NovaEngine.cs:54 cannot take effect, because the `Instance` getter throws rather than returning null. The model follows the throw.
- `AllSingletons` is public and mutable, so other code could write to it directly. Only writes through `Singleton<T>.Instance` are modelled.
- Concurrency is not modelled. The static `_instance`, `AllSingletons` and `_assemblies` are unsynchronised, so only single-threaded use is covered.
- The `ServiceProvider` property, `ITypeFinder`, `INovaStartup` and the plugin attribute classes have no logic to verify. `INovaStartup` becomes the `StartupConfiguration` record, and `ITypeFinder` becomes inputs.
- The application shell (App.xaml.cs, MainWindowViewModel.cs) is not part of this model.
