/** Shared vocabulary of the Nova bootstrap model.

    Reflection is replaced by plain data: a CLR `Type` is identified by its
    full name (a `TypeKey`), an object by an opaque handle, and every
    exception the core can raise or pass on is a value of `Error`.
 */
module Core {

  /** Identity of a CLR type, e.g. "Nova.Core.Infrastructure.ITypeFinder". */
  type TypeKey = string

  /** An opaque, non-null object reference. `null` is modelled by `None`. */
  datatype Obj = Obj(handle: nat)

  datatype Option<+T> = None | Some(value: T)

  datatype Result<+R, +E> = Success(value: R) | Failure(error: E)

  /** The outcome of a `void` operation: it returned, or it threw. */
  datatype Status = Ok | Fail(error: Error)

  /** The exceptions of the core, with the inner exception where the source keeps one. */
  datatype Error =
    | ArgumentNull(paramName: string)                    // ArgumentNullException
    | InvalidOperation(message: string)                  // InvalidOperationException
    | Nova(message: string, inner: Option<Error>)        // NovaException
    | ActivationFailed(activated: TypeKey)               // Activator.CreateInstance threw
    | TargetInvocation(constructed: TypeKey)             // a constructor body threw
    | Thrown(source: TypeKey)                            // a startup component's own code threw

  const InstanceNotSet := "Instance is not set."
  const UnknownDependency := "Unknown dependency"
  const NoConstructorSatisfied := "No constructor was found that had all the dependencies satisfied."

  /** Well-known service types. */
  const TypeFinderType: TypeKey := "Nova.Core.Infrastructure.ITypeFinder"
  const EngineType: TypeKey := "Nova.Core.Infrastructure.IEngine"
  const ServiceCollectionType: TypeKey := "Microsoft.Extensions.DependencyInjection.IServiceCollection"

  lemma AppendAssoc<T>(a: seq<T>, b: seq<T>, c: seq<T>)
    ensures a + b + c == a + (b + c)
  {
  }
}
