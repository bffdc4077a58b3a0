/** The process-wide singleton registry: `BaseSingleton.AllSingletons` and the
    static `_instance` field of every closed `Singleton<T>`.
 */
module Singletons {
  import opened Core

  /** `BaseSingleton`: owner of the shared `AllSingletons` dictionary. A `map`
      holds at most one value per type key, as the dictionary does. */
  class BaseSingleton {
    var allSingletons: map<TypeKey, Obj>

    /** The static constructor: the table is created empty, once. */
    constructor ()
      ensures allSingletons == map[]
    {
      allSingletons := map[];
    }
  }

  /** All closed `Singleton<T>` types at once: `instances[T]` is the static
      `_instance` of `Singleton<T>`, absent while it is still null. Every closed
      type reaches the same `table`, and the reference is never replaced. */
  class Singleton {
    var instances: map<TypeKey, Obj>
    const table: BaseSingleton

    /** Every instance that is set is mirrored in the shared table. */
    ghost predicate Valid()
      reads this, table
    {
      forall t :: t in instances ==> t in table.allSingletons && table.allSingletons[t] == instances[t]
    }

    /** Before any assignment every `_instance` is null. */
    constructor (table: BaseSingleton)
      ensures this.table == table && instances == map[]
      ensures Valid()
    {
      this.table := table;
      instances := map[];
    }

    /** The `Instance` getter of `Singleton<T>` for `T = t`. */
    method GetInstance(t: TypeKey) returns (r: Result<Obj, Error>)
      ensures r.Success? <==> t in instances
      ensures r.Success? ==> r.value == instances[t]
      ensures r.Failure? ==> r.error == InvalidOperation(InstanceNotSet)
    {
      if t in instances {
        r := Success(instances[t]);
      } else {
        r := Failure(InvalidOperation(InstanceNotSet));
      }
    }

    /** The `Instance` setter of `Singleton<T>` for `T = t`: null is refused and
        changes nothing; otherwise the new value replaces the old one, both in
        `_instance` and in the table, and only under the key `t`. */
    method SetInstance(t: TypeKey, value: Option<Obj>) returns (status: Status)
      requires Valid()
      modifies this, table
      ensures Valid()
      ensures value.None? ==> status == Fail(ArgumentNull("value"))
      ensures value.None? ==> instances == old(instances) && table.allSingletons == old(table.allSingletons)
      ensures value.Some? ==> status == Ok
      ensures value.Some? ==> instances == old(instances)[t := value.value]
      ensures value.Some? ==> table.allSingletons == old(table.allSingletons)[t := value.value]
    {
      if value.None? {
        return Fail(ArgumentNull("value"));
      }
      instances := instances[t := value.value];
      table.allSingletons := table.allSingletons[t := value.value];
      status := Ok;
    }
  }

  /** The registry's behaviour over a sequence of calls on a fresh process:
      reading before any set fails, a null set is refused and keeps the old
      value, the last write wins, and another type's entry is not touched. */
  method RegistryLifecycle(t: TypeKey, other: TypeKey, v1: Obj, v2: Obj, w: Obj)
    returns (unset: Result<Obj, Error>, nullSet: Status, afterFirst: Result<Obj, Error>,
             afterNull: Result<Obj, Error>, afterSecond: Result<Obj, Error>, otherAfter: Result<Obj, Error>,
             tableAfter: map<TypeKey, Obj>)
    requires t != other
    ensures unset == Failure(InvalidOperation(InstanceNotSet))
    ensures nullSet == Fail(ArgumentNull("value"))
    ensures afterFirst == Success(v1) && afterNull == Success(v1)
    ensures afterSecond == Success(v2)
    ensures otherAfter == Success(w)
    ensures tableAfter == map[other := w, t := v2]
  {
    var table := new BaseSingleton();
    var registry := new Singleton(table);
    unset := registry.GetInstance(t);
    var s := registry.SetInstance(other, Some(w));
    s := registry.SetInstance(t, Some(v1));
    afterFirst := registry.GetInstance(t);
    nullSet := registry.SetInstance(t, None);
    afterNull := registry.GetInstance(t);
    s := registry.SetInstance(t, Some(v2));
    afterSecond := registry.GetInstance(t);
    otherAfter := registry.GetInstance(other);
    tableAfter := table.allSingletons;
  }
}
