/** The assembly fallback index of `NovaEngine.AssemblyResolver`: a two-level
    map from short name (compared ignoring case) to full name (compared
    exactly) to assembly, filled once, and the lookup `getAssembly` over it.
 */
module Assemblies {
  import opened Core

  /** An assembly as the index sees it: `GetName().Name` ("" when null or
      empty) and `GetName().FullName`. */
  datatype Assembly = Assembly(name: string, fullName: string)

  function FoldChar(c: char): char {
    if 'A' <= c <= 'Z' then (c as int + 32) as char else c
  }

  /** Two short names are the same key of the outer dictionary exactly when
      they fold to the same string (ASCII case folding). */
  function FoldCase(s: string): string {
    seq(|s|, i requires 0 <= i < |s| => FoldChar(s[i]))
  }

  /** The outer dictionary, keyed by folded short name. Each inner dictionary
      is a sequence in insertion order, which is the order `Values` enumerates
      a `Dictionary` that is only ever added to. */
  type Index = map<string, seq<Assembly>>

  function Bucket(idx: Index, k: string): seq<Assembly> {
    if k in idx then idx[k] else []
  }

  /** Index of the first assembly named `f`, or `|s|`. */
  function FullNameIndex(s: seq<Assembly>, f: string): (n: nat)
    ensures n <= |s|
    ensures forall j :: 0 <= j < n ==> s[j].fullName != f
    ensures n < |s| ==> s[n].fullName == f
  {
    if s == [] then 0
    else if s[0].fullName == f then 0
    else 1 + FullNameIndex(s[1..], f)
  }

  predicate HasFullName(s: seq<Assembly>, f: string) {
    FullNameIndex(s, f) < |s|
  }

  /** `FirstOrDefault(a => a.FullName == f)`. */
  function FirstWithFullName(s: seq<Assembly>, f: string): (r: Option<Assembly>)
    ensures r.Some? <==> exists i :: 0 <= i < |s| && s[i].fullName == f
    ensures r.Some? ==> r.value == s[FullNameIndex(s, f)]
  {
    var n := FullNameIndex(s, f);
    if n < |s| then Some(s[n]) else None
  }

  /** The shape the index always has: no empty inner dictionary, every entry
      filed under its own folded short name, full names unique per bucket. */
  ghost predicate WellFormed(idx: Index) {
    forall k :: k in idx ==>
      && idx[k] != []
      && (forall i :: 0 <= i < |idx[k]| ==> idx[k][i].name != "" && FoldCase(idx[k][i].name) == k)
      && (forall i, j :: 0 <= i < j < |idx[k]| ==> idx[k][i].fullName != idx[k][j].fullName)
  }

  /** `addAssembly`: skip an empty short name; create the bucket on first use;
      `TryAdd` keeps an existing entry with the same full name. */
  function Add(idx: Index, a: Assembly): (r: Index)
    ensures a.name == "" ==> r == idx
    ensures a.name != "" ==> r.Keys == idx.Keys + {FoldCase(a.name)}
    ensures forall k :: k != FoldCase(a.name) ==> Bucket(r, k) == Bucket(idx, k)
    ensures a.name != "" ==>
      Bucket(r, FoldCase(a.name)) ==
        if HasFullName(Bucket(idx, FoldCase(a.name)), a.fullName) then Bucket(idx, FoldCase(a.name))
        else Bucket(idx, FoldCase(a.name)) + [a]
  {
    if a.name == "" then idx
    else
      var k := FoldCase(a.name);
      var b := Bucket(idx, k);
      if HasFullName(b, a.fullName) then idx else idx[k := b + [a]]
  }

  /** Adds every assembly of `s`, in order. */
  function AddAll(idx: Index, s: seq<Assembly>): Index {
    if s == [] then idx else Add(AddAll(idx, s[..|s| - 1]), s[|s| - 1])
  }

  /** The assemblies that loaded from the scanned files; a file whose load
      threw is skipped. */
  function LoadedFiles(files: seq<Option<Assembly>>): (r: seq<Assembly>)
    ensures |r| <= |files|
    ensures forall i :: 0 <= i < |files| && files[i].Some? ==> files[i].value in r
    ensures forall i :: 0 <= i < |r| ==> Some(r[i]) in files
  {
    if files == [] then []
    else
      var init := files[..|files| - 1];
      assert files == init + [files[|files| - 1]];
      LoadedFiles(init) + (if files[|files| - 1].Some? then [files[|files| - 1].value] else [])
  }

  /** `getAssembly`: miss on an empty short name, an absent key or an empty
      bucket; otherwise the exact full-name match, else the bucket's first entry. */
  function Lookup(idx: Index, fullName: string, name: string): (r: Option<Assembly>)
    ensures r.Some? <==> name != "" && Bucket(idx, FoldCase(name)) != []
    ensures r.Some? ==> r.value in Bucket(idx, FoldCase(name))
    ensures r.Some? && HasFullName(Bucket(idx, FoldCase(name)), fullName) ==> r.value.fullName == fullName
    ensures r.Some? && !HasFullName(Bucket(idx, FoldCase(name)), fullName) ==> r.value == Bucket(idx, FoldCase(name))[0]
  {
    if name == "" then None
    else
      var k := FoldCase(name);
      if k !in idx then None
      else
        var b := idx[k];
        if b == [] then None
        else match FirstWithFullName(b, fullName)
          case Some(a) => Some(a)
          case None => Some(b[0])
  }

  // ---------------------------------------------------------------------------
  // Properties of the index

  lemma AddPreservesWellFormed(idx: Index, a: Assembly)
    requires WellFormed(idx)
    ensures WellFormed(Add(idx, a))
  {
    var r: Index := Add(idx, a);
    forall k | k in r
      ensures r[k] != []
      ensures forall i :: 0 <= i < |r[k]| ==> r[k][i].name != "" && FoldCase(r[k][i].name) == k
      ensures forall i, j :: 0 <= i < j < |r[k]| ==> r[k][i].fullName != r[k][j].fullName
    {
      assert r[k] == Bucket(r, k);
      if a.name != "" && k == FoldCase(a.name) && !HasFullName(Bucket(idx, k), a.fullName) {
        var b := Bucket(idx, k);
        assert r[k] == b + [a];
        forall i, j | 0 <= i < j < |r[k]|
          ensures r[k][i].fullName != r[k][j].fullName
        {
          if j == |b| {
            assert r[k][i] == b[i];
          }
        }
      } else {
        assert k in idx;
      }
    }
  }

  lemma {:induction false} AddAllPreservesWellFormed(idx: Index, s: seq<Assembly>)
    requires WellFormed(idx)
    ensures WellFormed(AddAll(idx, s))
  {
    if s != [] {
      AddAllPreservesWellFormed(idx, s[..|s| - 1]);
      AddPreservesWellFormed(AddAll(idx, s[..|s| - 1]), s[|s| - 1]);
    }
  }

  lemma {:induction false} AddAllConcat(idx: Index, a: seq<Assembly>, b: seq<Assembly>)
    ensures AddAll(idx, a + b) == AddAll(AddAll(idx, a), b)
    decreases |b|
  {
    if b == [] {
      assert a + b == a;
    } else {
      var b' := b[..|b| - 1];
      assert (a + b)[..|a + b| - 1] == a + b';
      assert (a + b)[|a + b| - 1] == b[|b| - 1];
      AddAllConcat(idx, a, b');
    }
  }

  /** Entries are never removed or replaced: every bucket only grows at its end,
      so the first assembly filed under a short name stays first. */
  lemma {:induction false} AddAllExtends(idx: Index, s: seq<Assembly>, k: string)
    ensures Bucket(idx, k) <= Bucket(AddAll(idx, s), k)
  {
    if s != [] {
      AddAllExtends(idx, s[..|s| - 1], k);
    }
  }

  /** The short-name keys of the index are the folded names of the non-empty
      names added. */
  lemma {:induction false} AddAllKeys(idx: Index, s: seq<Assembly>, k: string)
    ensures k in AddAll(idx, s) <==> k in idx || exists i :: 0 <= i < |s| && s[i].name != "" && FoldCase(s[i].name) == k
  {
    if s != [] {
      var init := s[..|s| - 1];
      AddAllKeys(idx, init, k);
      if exists i :: 0 <= i < |init| && init[i].name != "" && FoldCase(init[i].name) == k {
        var i :| 0 <= i < |init| && init[i].name != "" && FoldCase(init[i].name) == k;
        assert s[i] == init[i];
      }
      if exists i :: 0 <= i < |s| && s[i].name != "" && FoldCase(s[i].name) == k {
        var i :| 0 <= i < |s| && s[i].name != "" && FoldCase(s[i].name) == k;
        if i < |init| {
          assert init[i] == s[i];
        }
      }
    }
  }

  /** Every entry of the index came from the index before or from `s`. */
  lemma {:induction false} AddAllFrom(idx: Index, s: seq<Assembly>, k: string, e: Assembly)
    requires e in Bucket(AddAll(idx, s), k)
    ensures e in Bucket(idx, k) || e in s
  {
    if s != [] {
      var init := s[..|s| - 1];
      if e in Bucket(AddAll(idx, init), k) {
        AddAllFrom(idx, init, k, e);
        if e in init {
          var i :| 0 <= i < |init| && init[i] == e;
          assert s[i] == e;
        }
      } else {
        assert e == s[|s| - 1];
      }
    }
  }

  /** Building the index from nothing leaves it empty exactly when every
      assembly had an empty short name; so only then does the next lookup scan
      again. */
  lemma IndexEmptyIff(s: seq<Assembly>)
    ensures AddAll(map[], s) == map[] <==> forall i :: 0 <= i < |s| ==> s[i].name == ""
  {
    if exists i :: 0 <= i < |s| && s[i].name != "" {
      var i :| 0 <= i < |s| && s[i].name != "";
      AddAllKeys(map[], s, FoldCase(s[i].name));
    } else {
      forall k ensures k !in AddAll(map[], s) {
        AddAllKeys(map[], s, k);
      }
    }
  }

  lemma AddAllStep(idx: Index, s: seq<Assembly>, j: int)
    requires 0 <= j < |s|
    ensures AddAll(idx, s[..j + 1]) == Add(AddAll(idx, s[..j]), s[j])
  {
    assert s[..j + 1][..j] == s[..j];
  }

  lemma AddAllPrefixExtends(idx: Index, s: seq<Assembly>, j: int, k: string)
    requires 0 <= j <= |s|
    ensures Bucket(AddAll(idx, s[..j]), k) <= Bucket(AddAll(idx, s), k)
  {
    var prefix, suffix := s[..j], s[j..];
    assert prefix + suffix == s;
    AddAllConcat(idx, prefix, suffix);
    AddAllExtends(AddAll(idx, prefix), suffix, k);
  }

  /** A duplicate full name keeps the first assembly added: the first assembly
      of `s` with a given short name (ignoring case) and full name is the one
      the index holds. */
  lemma FirstAddedKept(s: seq<Assembly>, j: int)
    requires 0 <= j < |s| && s[j].name != ""
    requires forall i :: 0 <= i < j ==> !(s[i].name != "" && FoldCase(s[i].name) == FoldCase(s[j].name) && s[i].fullName == s[j].fullName)
    ensures s[j] in Bucket(AddAll(map[], s), FoldCase(s[j].name))
  {
    var k := FoldCase(s[j].name);
    var before := AddAll(map[], s[..j]);
    AddAllPreservesWellFormed(map[], s[..j]);
    if HasFullName(Bucket(before, k), s[j].fullName) {
      var e := Bucket(before, k)[FullNameIndex(Bucket(before, k), s[j].fullName)];
      AddAllFrom(map[], s[..j], k, e);
      assert false;
    }
    AddAllStep(map[], s, j);
    assert s[j] in Bucket(AddAll(map[], s[..j + 1]), k);
    AddAllPrefixExtends(map[], s, j + 1, k);
  }

  /** The first assembly added under a short name heads its bucket for good. */
  lemma FirstLoadedHeadsBucket(s: seq<Assembly>, j: int)
    requires 0 <= j < |s| && s[j].name != ""
    requires forall i :: 0 <= i < j ==> !(s[i].name != "" && FoldCase(s[i].name) == FoldCase(s[j].name))
    ensures Bucket(AddAll(map[], s), FoldCase(s[j].name)) != []
    ensures Bucket(AddAll(map[], s), FoldCase(s[j].name))[0] == s[j]
  {
    var k := FoldCase(s[j].name);
    var before := AddAll(map[], s[..j]);
    AddAllKeys(map[], s[..j], k);
    assert k !in before;
    assert Bucket(before, k) == [];
    AddAllStep(map[], s, j);
    assert Bucket(AddAll(map[], s[..j + 1]), k) == [s[j]];
    AddAllPrefixExtends(map[], s, j + 1, k);
  }

  /** What a lookup answers once the index is built from `s`: the assembly
      with the requested full name if one was added under that short name,
      otherwise the first one added under that short name. */
  lemma LookupAfterBuild(s: seq<Assembly>, fullName: string, name: string, j: int)
    requires 0 <= j < |s| && s[j].name != "" && FoldCase(s[j].name) == FoldCase(name)
    requires forall i :: 0 <= i < j ==> !(s[i].name != "" && FoldCase(s[i].name) == FoldCase(name))
    ensures name != "" ==> Lookup(AddAll(map[], s), fullName, name).Some?
    ensures name != "" && !HasFullName(Bucket(AddAll(map[], s), FoldCase(name)), fullName) ==>
      Lookup(AddAll(map[], s), fullName, name) == Some(s[j])
    ensures name != "" && HasFullName(Bucket(AddAll(map[], s), FoldCase(name)), fullName) ==>
      Lookup(AddAll(map[], s), fullName, name).value.fullName == fullName
  {
    FirstLoadedHeadsBucket(s, j);
  }

  /** Adding one more assembly at the end is one more `Add`. */
  lemma AddAllSnoc(idx: Index, s: seq<Assembly>, a: Assembly)
    ensures AddAll(idx, s + [a]) == Add(AddAll(idx, s), a)
  {
    assert (s + [a])[..|s + [a]| - 1] == s;
  }

  lemma LoadedFilesStep(files: seq<Option<Assembly>>, j: int)
    requires 0 <= j < |files|
    ensures files[j].Some? ==> LoadedFiles(files[..j + 1]) == LoadedFiles(files[..j]) + [files[j].value]
    ensures files[j].None? ==> LoadedFiles(files[..j + 1]) == LoadedFiles(files[..j])
  {
    assert files[..j + 1][..j] == files[..j];
    assert LoadedFiles(files[..j]) + [] == LoadedFiles(files[..j]);
  }

  // ---------------------------------------------------------------------------
  // The resolver's state

  /** `NovaEngine.AssemblyResolver`: the static `_assemblies` index, filled in
      place the first time a lookup finds it empty. `builds` counts the scans. */
  class AssemblyResolver {
    var assemblies: Index
    ghost var builds: nat

    ghost predicate Valid()
      reads this
    {
      WellFormed(assemblies)
    }

    /** The static field initialiser: an empty index. */
    constructor ()
      ensures assemblies == map[] && builds == 0
      ensures Valid()
    {
      assemblies := map[];
      builds := 0;
    }

    /** `addAssembly`: file `a` under its folded short name, creating the
        bucket first if needed; `TryAdd` leaves an existing full name alone. */
    method AddAssembly(a: Assembly)
      requires Valid()
      modifies this
      ensures Valid()
      ensures assemblies == Add(old(assemblies), a)
      ensures builds == old(builds)
    {
      AddPreservesWellFormed(assemblies, a);
      if a.name == "" {
        return;
      }
      var k := FoldCase(a.name);
      if k !in assemblies {
        assemblies := assemblies[k := []];
      }
      var bucket := assemblies[k];
      assert bucket == Bucket(old(assemblies), k);
      if !HasFullName(bucket, a.fullName) {
        assemblies := assemblies[k := bucket + [a]];
      }
    }

    /** The first `foreach` of `GetAssemblyByFullName`: `addAssembly` for each
        assembly loaded in the application domain. */
    method AddEach(s: seq<Assembly>)
      requires Valid()
      modifies this
      ensures Valid()
      ensures assemblies == AddAll(old(assemblies), s) && builds == old(builds)
    {
      var i := 0;
      while i < |s|
        invariant 0 <= i <= |s|
        invariant Valid() && builds == old(builds)
        invariant assemblies == AddAll(old(assemblies), s[..i])
      {
        AddAllStep(old(assemblies), s, i);
        AddAssembly(s[i]);
        i := i + 1;
      }
      assert s[..i] == s;
    }

    /** The second `foreach`: `addAssembly` for each file that loads; a file
        whose load throws is skipped. */
    method AddLoadable(files: seq<Option<Assembly>>)
      requires Valid()
      modifies this
      ensures Valid()
      ensures assemblies == AddAll(old(assemblies), LoadedFiles(files)) && builds == old(builds)
    {
      var j := 0;
      assert LoadedFiles(files[..0]) == [];
      while j < |files|
        invariant 0 <= j <= |files|
        invariant Valid() && builds == old(builds)
        invariant assemblies == AddAll(old(assemblies), LoadedFiles(files[..j]))
      {
        LoadedFilesStep(files, j);
        if files[j].Some? {
          AddAllSnoc(old(assemblies), LoadedFiles(files[..j]), files[j].value);
          AddAssembly(files[j].value);
        }
        j := j + 1;
      }
      assert files[..j] == files;
    }

    /** `GetAssemblyByFullName`: when the index is empty, add every loaded
        assembly and then every assembly that loads from the application
        directory; answer with `getAssembly` either way. */
    method GetAssemblyByFullName(fullName: string, name: string, loaded: seq<Assembly>, files: seq<Option<Assembly>>)
      returns (r: Option<Assembly>)
      requires Valid()
      modifies this
      ensures Valid()
      ensures old(assemblies) != map[] ==> assemblies == old(assemblies) && builds == old(builds)
      ensures old(assemblies) == map[] ==> assemblies == AddAll(map[], loaded + LoadedFiles(files)) && builds == old(builds) + 1
      ensures r == Lookup(assemblies, fullName, name)
    {
      if assemblies != map[] {
        return Lookup(assemblies, fullName, name);
      }
      builds := builds + 1;
      AddEach(loaded);
      AddLoadable(files);
      AddAllConcat(map[], loaded, LoadedFiles(files));
      r := Lookup(assemblies, fullName, name);
    }
  }
}
