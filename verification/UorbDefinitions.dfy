/** The compressed uORB field definitions: dependency ordering by a flag-setting depth-first search, and
    the binary encoding of the ordered definitions. */
module UorbDefinitions {

  import opened Basics

  datatype Definition = Definition(orbIds: seq<nat>, dependencies: seq<string>, mainOrbId: int, fields: seq<byte>)

  type Definitions = map<string, Definition>

  // ---- Dependency graphs ----

  ghost predicate Depends(defs: Definitions, name: string, dep: string) {
    name in defs && dep in defs[name].dependencies
  }

  ghost predicate Closed(defs: Definitions) {
    forall name, dep :: Depends(defs, name, dep) ==> dep in defs
  }

  /** Each name is a dependency of the one before it. */
  ghost predicate IsPath(defs: Definitions, p: seq<string>) {
    forall i :: 0 < i < |p| ==> Depends(defs, p[i - 1], p[i])
  }

  ghost predicate Acyclic(defs: Definitions) {
    forall p: seq<string> :: IsPath(defs, p) && |p| >= 2 ==> p[0] != p[|p| - 1]
  }

  ghost predicate Distinct(names: seq<string>) {
    forall i, j :: 0 <= i < j < |names| ==> names[i] != names[j]
  }

  ghost function Names(names: seq<string>): set<string> { set n | n in names }

  ghost predicate Among(names: seq<string>, from: int, to: int, n: string)
    requires 0 <= from <= to <= |names|
  {
    exists j :: from <= j < to && names[j] == n
  }

  /** The dependencies of each listed definition are done or listed before it. */
  ghost predicate DependenciesFirst(defs: Definitions, names: seq<string>, done: set<string>) {
    forall i, dep :: 0 <= i < |names| && Depends(defs, names[i], dep) ==> dep in done || Among(names, 0, i, dep)
  }

  /** The dependencies of each listed definition are listed after it. */
  ghost predicate DependenciesLast(defs: Definitions, names: seq<string>) {
    forall i, dep :: 0 <= i < |names| && Depends(defs, names[i], dep) ==> Among(names, i + 1, |names|, dep)
  }

  /** On an acyclic graph a path never comes back to a name on it. */
  lemma {:induction false} NotOnPath(defs: Definitions, path: seq<string>, name: string)
    requires Acyclic(defs) && IsPath(defs, path + [name])
    ensures name !in path
  {
    forall i | 0 <= i < |path|
      ensures path[i] != name
    {
      var tail := (path + [name])[i..];
      assert IsPath(defs, tail);
      assert tail[0] == path[i] && tail[|tail| - 1] == name;
    }
  }

  lemma {:induction false} ExtendPath(defs: Definitions, path: seq<string>, name: string, dep: string)
    requires IsPath(defs, path + [name]) && Depends(defs, name, dep)
    ensures IsPath(defs, (path + [name]) + [dep])
  {
    var p := (path + [name]) + [dep];
    forall i | 0 < i < |p|
      ensures Depends(defs, p[i - 1], p[i])
    {
      if i < |p| - 1 {
        assert p[i - 1] == (path + [name])[i - 1] && p[i] == (path + [name])[i];
      }
    }
  }

  /** Lists that each put dependencies first do so one after the other. */
  lemma {:induction false} AppendOrdered(defs: Definitions, a: seq<string>, b: seq<string>, done: set<string>)
    requires DependenciesFirst(defs, a, done) && DependenciesFirst(defs, b, done + Names(a))
    ensures DependenciesFirst(defs, a + b, done)
  {
    var s := a + b;
    forall i, dep | 0 <= i < |s| && Depends(defs, s[i], dep)
      ensures dep in done || Among(s, 0, i, dep)
    {
      if dep !in done {
        var j;
        if i < |a| {
          assert Depends(defs, a[i], dep);
          j :| 0 <= j < i && a[j] == dep;
        } else {
          assert Depends(defs, b[i - |a|], dep);
          if dep in Names(a) {
            j :| 0 <= j < |a| && a[j] == dep;
          } else {
            assert Among(b, 0, i - |a|, dep);
            var k :| 0 <= k < i - |a| && b[k] == dep;
            j := |a| + k;
          }
        }
        assert s[j] == dep;
      }
    }
  }

  lemma {:induction false} AppendDistinct(a: seq<string>, b: seq<string>)
    requires Distinct(a) && Distinct(b) && Names(a) !! Names(b)
    ensures Distinct(a + b) && Names(a + b) == Names(a) + Names(b)
  {
    forall i, j | 0 <= i < j < |a + b|
      ensures (a + b)[i] != (a + b)[j]
    {
      if i < |a| <= j {
        assert a[i] in Names(a) && b[j - |a|] in Names(b);
      }
    }
  }

  /** Where the ordering stands: what is in the list, and what was completed before it. */
  ghost predicate Listed(defs: Definitions, ret: seq<string>, before: set<string>, now: set<string>) {
    && now == before + Names(ret) && Names(ret) !! before && Names(ret) <= defs.Keys
    && Distinct(ret) && DependenciesFirst(defs, ret, before)
  }

  lemma {:induction false} AppendListed(defs: Definitions, a: seq<string>, b: seq<string>, start: set<string>,
                                        mid: set<string>, end: set<string>)
    requires Listed(defs, a, start, mid) && Listed(defs, b, mid, end)
    ensures Listed(defs, a + b, start, end)
  {
    AppendOrdered(defs, a, b, start);
    AppendDistinct(a, b);
  }

  class Ordering {
    const defs: Definitions
    var completed: set<string>

    constructor (defs: Definitions)
      ensures this.defs == defs && completed == {}
    {
      this.defs, completed := defs, {};
    }

    /** The dependencies of `name` that are not completed, and then `name`; `path` is the chain of calls. */
    method GetOrderedList(name: string, ghost path: seq<string>) returns (ret: seq<string>)
      requires Closed(defs) && Acyclic(defs) && name in defs && IsPath(defs, path + [name])
      modifies this
      ensures Listed(defs, ret, old(completed), completed) && name in completed
      ensures Names(ret) !! Names(path)
      decreases defs.Keys - Names(path)
    {
      hide DependenciesFirst, Distinct, IsPath, Acyclic;
      ret := [];
      EmptyListed(defs, completed);
      if name in completed {
        return;
      }
      NotOnPath(defs, path, name);
      var dependencies := defs[name].dependencies;
      ghost var here := path + [name];
      assert Names(here) == Names(path) + {name};
      for i := 0 to |dependencies|
        invariant Listed(defs, ret, old(completed), completed)
        invariant Names(ret) !! Names(here)
        invariant forall j :: 0 <= j < i ==> dependencies[j] in completed
      {
        assert Depends(defs, name, dependencies[i]);
        ExtendPath(defs, path, name, dependencies[i]);
        ghost var mid := completed;
        var more := GetOrderedList(dependencies[i], here);
        AppendListed(defs, ret, more, old(completed), mid, completed);
        assert Names(ret + more) == Names(ret) + Names(more);
        ret := ret + more;
      }
      SingleListed(defs, name, completed);
      AppendListed(defs, ret, [name], old(completed), completed, completed + {name});
      assert Names(ret + [name]) == Names(ret) + {name};
      ret := ret + [name];
      completed := completed + {name};
    }
  }

  lemma {:induction false} EmptyListed(defs: Definitions, done: set<string>)
    ensures Listed(defs, [], done, done)
  {
  }

  lemma {:induction false} SingleListed(defs: Definitions, name: string, done: set<string>)
    requires name in defs && name !in done && forall dep <- defs[name].dependencies :: dep in done
    ensures Listed(defs, [name], done, done + {name})
  {
  }

  function Reverse(names: seq<string>): (r: seq<string>)
    ensures |r| == |names| && forall i :: 0 <= i < |r| ==> r[i] == names[|names| - 1 - i]
  {
    if names == [] then [] else Reverse(names[1..]) + [names[0]]
  }

  /** The ordering part of the main program: every definition exactly once, each before all its
      dependencies. `order` is the order of the definitions in the dictionary. */
  method OrderAll(defs: Definitions, order: seq<string>) returns (names: seq<string>)
    requires Closed(defs) && Acyclic(defs) && Names(order) == defs.Keys
    ensures Distinct(names) && Names(names) == defs.Keys && |names| == |defs|
    ensures DependenciesLast(defs, names)
  {
    hide DependenciesFirst, DependenciesLast, Distinct, Acyclic;
    var ordering := new Ordering(defs);
    names := [];
    EmptyListed(defs, {});
    for i := 0 to |order|
      invariant ordering.defs == defs && fresh(ordering)
      invariant Listed(defs, names, {}, ordering.completed)
      invariant forall j :: 0 <= j < i ==> order[j] in ordering.completed
    {
      assert order[i] in Names(order) && IsPath(defs, [] + [order[i]]);
      ghost var mid := ordering.completed;
      var more := ordering.GetOrderedList(order[i], []);
      AppendListed(defs, names, more, {}, mid, ordering.completed);
      names := names + more;
    }
    assert Names(names) == defs.Keys;
    ReverseOrdered(defs, names);
    names := Reverse(names);
    DistinctCount(names);
    assert |names| == |defs.Keys|;
  }

  lemma {:induction false} ReverseOrdered(defs: Definitions, names: seq<string>)
    requires Distinct(names) && DependenciesFirst(defs, names, {})
    ensures Distinct(Reverse(names)) && Names(Reverse(names)) == Names(names)
    ensures DependenciesLast(defs, Reverse(names))
  {
    var r, n := Reverse(names), |names|;
    forall x
      ensures x in Names(names) <==> x in Names(r)
    {
      if x in names {
        var i :| 0 <= i < n && names[i] == x;
        assert r[n - 1 - i] == x;
      }
    }
    forall i, dep | 0 <= i < n && Depends(defs, r[i], dep)
      ensures Among(r, i + 1, n, dep)
    {
      assert Depends(defs, names[n - 1 - i], dep);
      assert Among(names, 0, n - 1 - i, dep);
      var j :| 0 <= j < n - 1 - i && names[j] == dep;
      assert r[n - 1 - j] == dep;
    }
  }

  lemma {:induction false} DistinctCount(names: seq<string>)
    requires Distinct(names)
    ensures |Names(names)| == |names|
  {
    if names == [] {
    } else {
      DistinctCount(names[1..]);
      assert Names(names) == Names(names[1..]) + {names[0]};
      assert names[0] !in Names(names[1..]);
    }
  }

  // ---- The binary encoding ----

  /** What is written for one definition. */
  datatype Record = Record(orbIds: seq<nat>, dependencyIds: seq<nat>, fields: seq<byte>)

  predicate Small(ids: seq<nat>) { forall i :: 0 <= i < |ids| ==> ids[i] < 0x1_0000 }

  predicate Ids(ids: seq<nat>) { |ids| < 255 && Small(ids) }

  predicate Encodable(r: Record) { Ids(r.orbIds) && Ids(r.dependencyIds) }

  function Short(n: nat): seq<byte>
    requires n < 0x1_0000
  {
    [n % 256, n / 256]
  }

  function EncodeIds(ids: seq<nat>): seq<byte>
    requires Small(ids)
  {
    if ids == [] then []
    else
      EncodeIds(ids[..|ids| - 1]) + Short(ids[|ids| - 1])
  }

  /** Number of topic ids, the ids, number of dependency ids, those ids, the fields and a NUL. */
  function Encode(r: Record): seq<byte>
    requires Encodable(r)
  {
    [|r.orbIds| as byte] + EncodeIds(r.orbIds) + [|r.dependencyIds| as byte] + EncodeIds(r.dependencyIds)
    + r.fields + [0]
  }

  function EncodeAll(rs: seq<Record>): seq<byte>
    requires forall r <- rs :: Encodable(r)
  {
    if rs == [] then []
    else
      assert rs[|rs| - 1] in rs;
      EncodeAll(rs[..|rs| - 1]) + Encode(rs[|rs| - 1])
  }

  // ---- Where the bytes are ----

  function Pair(low: int, high: int): int { low + 256 * high }

  /** The ids from a position on, each as its low and then its high byte. */
  ghost predicate IdsAt(bytes: seq<byte>, p: nat, ids: seq<nat>) {
    && p + 2 * |ids| <= |bytes|
    && forall j :: 0 <= j < |ids| ==> Pair(bytes[p + 2 * j], bytes[p + 2 * j + 1]) == ids[j]
  }

  lemma {:induction false} EncodedIds(ids: seq<nat>)
    requires Small(ids)
    ensures |EncodeIds(ids)| == 2 * |ids| && IdsAt(EncodeIds(ids), 0, ids)
  {
    if ids == [] {
    } else {
      var n := |ids| - 1;
      EncodedIds(ids[..n]);
      var front, all := EncodeIds(ids[..n]), EncodeIds(ids);
      assert all == front + Short(ids[n]);
      forall j | 0 <= j < |ids|
        ensures Pair(all[2 * j], all[2 * j + 1]) == ids[j]
      {
        if j < n {
          assert Pair(front[0 + 2 * j], front[0 + 2 * j + 1]) == ids[..n][j];
        }
      }
    }
  }

  lemma {:induction false} IdsMoved(before: seq<byte>, bytes: seq<byte>, after: seq<byte>, ids: seq<nat>)
    requires |bytes| == 2 * |ids| && IdsAt(bytes, 0, ids)
    ensures IdsAt(before + bytes + after, |before|, ids)
  {
    var all := before + bytes + after;
    forall j | 0 <= j < |ids|
      ensures Pair(all[|before| + 2 * j], all[|before| + 2 * j + 1]) == ids[j]
    {
      assert Pair(bytes[0 + 2 * j], bytes[0 + 2 * j + 1]) == ids[j];
    }
  }

  /** A record is the number of topic ids, the ids in little-endian order, the number of dependencies, their ids, the
      fields and one NUL, and nothing else. */
  lemma {:induction false} EncodeAt(r: Record)
    requires Encodable(r)
    ensures var bytes, a, b := Encode(r), |r.orbIds|, |r.dependencyIds|;
      && |bytes| == 1 + 2 * a + 1 + 2 * b + |r.fields| + 1
      && bytes[0] == a && IdsAt(bytes, 1, r.orbIds)
      && bytes[1 + 2 * a] == b && IdsAt(bytes, 2 + 2 * a, r.dependencyIds)
      && bytes[2 + 2 * a + 2 * b..|bytes| - 1] == r.fields && bytes[|bytes| - 1] == 0
  {
    hide EncodeIds, IdsAt;
    var x, y, a, b := EncodeIds(r.orbIds), EncodeIds(r.dependencyIds), |r.orbIds|, |r.dependencyIds|;
    EncodedIds(r.orbIds);
    EncodedIds(r.dependencyIds);
    var bytes := Encode(r);
    IdsMoved([a as byte], x, [b as byte] + y + r.fields + [0], r.orbIds);
    assert bytes == [a as byte] + x + ([b as byte] + y + r.fields + [0]);
    IdsMoved([a as byte] + x + [b as byte], y, r.fields + [0], r.dependencyIds);
    assert bytes == [a as byte] + x + [b as byte] + y + (r.fields + [0]);
  }

  /** The record of a definition, if every dependency is defined and the asserted bounds hold. */
  function RecordOf(defs: Definitions, name: string): Option<Record>
    requires name in defs
  {
    var d := defs[name];
    if (forall dep <- d.dependencies :: dep in defs && 0 <= defs[dep].mainOrbId < 0x1_0000)
       && Ids(d.orbIds) && |d.dependencies| < 255
    then Some(Record(d.orbIds, MainIds(defs, d.dependencies), d.fields))
    else None
  }

  function MainIds(defs: Definitions, dependencies: seq<string>): (ids: seq<nat>)
    requires forall dep <- dependencies :: dep in defs && 0 <= defs[dep].mainOrbId < 0x1_0000
    ensures |ids| == |dependencies| && Small(ids)
  {
    if dependencies == [] then []
    else
      var dep := dependencies[|dependencies| - 1];
      assert dep in dependencies;
      MainIds(defs, dependencies[..|dependencies| - 1]) + [defs[dep].mainOrbId]
  }

  /** The loop over the topic ids of a definition; false is a failed assertion. */
  method PackIds(ids: seq<nat>) returns (ok: bool, bytes: seq<byte>)
    ensures ok <==> Small(ids)
    ensures ok ==> bytes == EncodeIds(ids)
  {
    bytes := [];
    assert ids[..0] == [];
    for i := 0 to |ids|
      invariant Small(ids[..i])
      invariant bytes == EncodeIds(ids[..i])
    {
      if ids[i] >= 0x1_0000 {
        return false, bytes;
      }
      assert ids[..i + 1][..i] == ids[..i] && ids[..i + 1][i] == ids[i];
      bytes := bytes + Short(ids[i]);
    }
    assert ids[..|ids|] == ids;
    return true, bytes;
  }

  /** The loop over the dependencies: each is looked up by name and its main id written. */
  method PackDependencies(defs: Definitions, names: seq<string>) returns (ok: bool, bytes: seq<byte>)
    ensures ok <==> forall dep <- names :: dep in defs && 0 <= defs[dep].mainOrbId < 0x1_0000
    ensures ok ==> bytes == EncodeIds(MainIds(defs, names))
  {
    bytes := [];
    assert names[..0] == [];
    for i := 0 to |names|
      invariant forall dep <- names[..i] :: dep in defs && 0 <= defs[dep].mainOrbId < 0x1_0000
      invariant bytes == EncodeIds(MainIds(defs, names[..i]))
    {
      if names[i] !in defs {
        return false, bytes;
      }
      var orbId := defs[names[i]].mainOrbId;
      if !(0x1_0000 > orbId >= 0) {
        return false, bytes;
      }
      assert names[..i + 1][..i] == names[..i] && names[..i + 1][i] == names[i];
      ghost var all := MainIds(defs, names[..i + 1]);
      assert all[..i] == MainIds(defs, names[..i]) && all[i] == orbId;
      bytes := bytes + Short(orbId);
    }
    assert names[..|names|] == names;
    return true, bytes;
  }

  /** The records of the named definitions, all or none. */
  function RecordsOf(defs: Definitions, names: seq<string>): Option<seq<Record>>
    requires forall n <- names :: n in defs
  {
    if names == [] then Some([])
    else
      assert names[|names| - 1] in names;
      match (RecordsOf(defs, names[..|names| - 1]), RecordOf(defs, names[|names| - 1]))
      case (Some(rs), Some(r)) => Some(rs + [r])
      case _ => None
  }

  // ---- What the records say ----

  /** The assertions about one definition hold. */
  ghost predicate Packable(defs: Definitions, name: string) {
    && name in defs && |defs[name].orbIds| < 255 && |defs[name].dependencies| < 255
    && (forall j :: 0 <= j < |defs[name].orbIds| ==> defs[name].orbIds[j] < 0x1_0000)
    && forall j :: 0 <= j < |defs[name].dependencies| ==>
         defs[name].dependencies[j] in defs && 0 <= defs[defs[name].dependencies[j]].mainOrbId < 0x1_0000
  }

  /** The record has the topic ids and the fields of the definition and, in order, the main id of each of its
      dependencies. */
  ghost predicate Describes(r: Record, defs: Definitions, name: string) {
    && name in defs && r.orbIds == defs[name].orbIds && r.fields == defs[name].fields
    && |r.dependencyIds| == |defs[name].dependencies|
    && forall j :: 0 <= j < |r.dependencyIds| ==>
         defs[name].dependencies[j] in defs && r.dependencyIds[j] == defs[defs[name].dependencies[j]].mainOrbId
  }

  ghost predicate AllDescribe(rs: seq<Record>, defs: Definitions, names: seq<string>) {
    |rs| == |names| && forall i :: 0 <= i < |rs| ==> Describes(rs[i], defs, names[i])
  }

  lemma {:induction false} MainIdsAt(defs: Definitions, dependencies: seq<string>)
    requires forall dep <- dependencies :: dep in defs && 0 <= defs[dep].mainOrbId < 0x1_0000
    ensures forall j :: 0 <= j < |dependencies| ==> MainIds(defs, dependencies)[j] == defs[dependencies[j]].mainOrbId
  {
    if dependencies == [] {
    } else {
      var n := |dependencies| - 1;
      MainIdsAt(defs, dependencies[..n]);
      assert dependencies[n] in dependencies;
    }
  }

  lemma {:induction false} RecordDescribes(defs: Definitions, name: string)
    requires name in defs
    ensures RecordOf(defs, name).Some? <==> Packable(defs, name)
    ensures RecordOf(defs, name).Some? ==> Describes(RecordOf(defs, name).value, defs, name)
  {
    var d := defs[name];
    if RecordOf(defs, name).Some? {
      MainIdsAt(defs, d.dependencies);
    }
    if Packable(defs, name) {
      forall dep <- d.dependencies
        ensures dep in defs && 0 <= defs[dep].mainOrbId < 0x1_0000
      {
        var j :| 0 <= j < |d.dependencies| && d.dependencies[j] == dep;
      }
    }
  }

  lemma {:induction false} RecordsDescribe(defs: Definitions, names: seq<string>)
    requires forall n <- names :: n in defs
    ensures RecordsOf(defs, names).Some? <==> forall i :: 0 <= i < |names| ==> Packable(defs, names[i])
    ensures RecordsOf(defs, names).Some? ==> AllDescribe(RecordsOf(defs, names).value, defs, names)
  {
    hide RecordOf, Packable, Describes;
    if names == [] {
    } else {
      var n := |names| - 1;
      assert names[n] in names;
      RecordsDescribe(defs, names[..n]);
      RecordDescribes(defs, names[n]);
      assert forall i :: 0 <= i < n ==> names[..n][i] == names[i];
    }
  }

  lemma {:induction false} RecordsEncodable(defs: Definitions, names: seq<string>)
    requires forall n <- names :: n in defs
    ensures RecordsOf(defs, names).Some? ==> forall r <- RecordsOf(defs, names).value :: Encodable(r)
  {
    if names == [] {
    } else {
      RecordsEncodable(defs, names[..|names| - 1]);
    }
  }

  /** One definition; false is a failed assertion. */
  method PackDefinition(defs: Definitions, name: string) returns (ok: bool, bytes: seq<byte>)
    requires name in defs
    ensures ok <==> RecordOf(defs, name).Some?
    ensures ok ==> bytes == Encode(RecordOf(defs, name).value)
  {
    var d := defs[name];
    if |d.orbIds| >= 255 || |d.dependencies| >= 255 {
      return false, [];
    }
    var packed;
    ok, packed := PackIds(d.orbIds);
    if !ok {
      return false, [];
    }
    bytes := [|d.orbIds| as byte] + packed + [|d.dependencies| as byte];
    ok, packed := PackDependencies(defs, d.dependencies);
    if !ok {
      return false, [];
    }
    bytes := bytes + packed + d.fields + [0];
  }

  /** All definitions in the given order, one record after the other. */
  method GetFieldDefinitions(defs: Definitions, names: seq<string>) returns (ok: bool, bytes: seq<byte>)
    requires forall n <- names :: n in defs
    ensures ok <==> RecordsOf(defs, names).Some?
    ensures ok ==> (forall r <- RecordsOf(defs, names).value :: Encodable(r))
                   && bytes == EncodeAll(RecordsOf(defs, names).value)
    ensures ok <==> forall i :: 0 <= i < |names| ==> Packable(defs, names[i])
    ensures ok && (forall n <- names :: 0 !in defs[n].fields) ==>
      DecodeAll(bytes).Some? && AllDescribe(DecodeAll(bytes).value, defs, names)
  {
    hide Encode, RecordOf, Encodable, DecodeAll, Packable, AllDescribe;
    RecordsDescribe(defs, names);
    bytes := [];
    RecordsEncodable(defs, names);
    assert names[..0] == [];
    for i := 0 to |names|
      invariant RecordsOf(defs, names[..i]).Some?
      invariant forall r <- RecordsOf(defs, names[..i]).value :: Encodable(r)
      invariant bytes == EncodeAll(RecordsOf(defs, names[..i]).value)
    {
      var packed;
      ok, packed := PackDefinition(defs, names[i]);
      assert names[..i + 1][..i] == names[..i] && names[..i + 1][i] == names[i];
      RecordsEncodable(defs, names[..i + 1]);
      if !ok {
        NoneStays(defs, names, i + 1);
        return false, [];
      }
      ghost var rs := RecordsOf(defs, names[..i + 1]).value;
      assert rs[..|rs| - 1] == RecordsOf(defs, names[..i]).value;
      bytes := bytes + packed;
    }
    assert names[..|names|] == names;
    if forall n <- names :: 0 !in defs[n].fields {
      ReadBack(defs, names);
    }
    return true, bytes;
  }

  /** Without a NUL in the texts the encoded records are read back as the definitions have them. */
  lemma {:induction false} ReadBack(defs: Definitions, names: seq<string>)
    requires (forall n <- names :: n in defs && 0 !in defs[n].fields) && RecordsOf(defs, names).Some?
    requires forall r <- RecordsOf(defs, names).value :: Encodable(r)
    ensures var bytes := EncodeAll(RecordsOf(defs, names).value);
      DecodeAll(bytes).Some? && AllDescribe(DecodeAll(bytes).value, defs, names)
  {
    hide Encode, RecordOf, Encodable, DecodeOne, RecordsOf;
    var rs := RecordsOf(defs, names).value;
    RecordsDescribe(defs, names);
    forall r <- rs
      ensures 0 !in r.fields
    {
      var i :| 0 <= i < |rs| && rs[i] == r;
      assert Describes(rs[i], defs, names[i]) && names[i] in names;
    }
    DecodeAllInverts(rs);
  }

  lemma {:induction false} NoneStays(defs: Definitions, names: seq<string>, i: nat)
    requires (forall n <- names :: n in defs) && i <= |names| && RecordsOf(defs, names[..i]).None?
    ensures RecordsOf(defs, names).None?
    decreases |names| - i
  {
    if i == |names| {
      assert names[..i] == names;
    } else {
      assert names[..i + 1][..i] == names[..i];
      NoneStays(defs, names, i + 1);
    }
  }

  // ---- The decoder ----

  /** n little-endian ids at the front, and the rest. */
  function DecodeIds(bytes: seq<byte>, n: nat): Option<(seq<nat>, seq<byte>)> {
    if n == 0 then Some(([], bytes))
    else if |bytes| < 2 then None
    else
      match DecodeIds(bytes[2..], n - 1)
      case None => None
      case Some((ids, rest)) => Some(([bytes[0] as int + 256 * bytes[1] as int] + ids, rest))
  }

  /** Bytes up to the first NUL, and the rest after it. */
  function DecodeText(bytes: seq<byte>): (r: Option<(seq<byte>, seq<byte>)>)
    ensures r.Some? ==> |r.value.1| < |bytes| && 0 !in r.value.0
  {
    if bytes == [] then None
    else if bytes[0] == 0 then Some(([], bytes[1..]))
    else
      match DecodeText(bytes[1..])
      case None => None
      case Some((text, rest)) => Some(([bytes[0]] + text, rest))
  }

  lemma {:induction false} DecodeIdsShrinks(bytes: seq<byte>, n: nat)
    ensures DecodeIds(bytes, n).Some? ==> |DecodeIds(bytes, n).value.1| <= |bytes|
  {
    if n == 0 || |bytes| < 2 {
    } else {
      DecodeIdsShrinks(bytes[2..], n - 1);
    }
  }

  function DecodeOne(bytes: seq<byte>): (r: Option<(Record, seq<byte>)>)
    ensures r.Some? ==> |r.value.1| < |bytes|
  {
    if bytes == [] then None
    else
      DecodeIdsShrinks(bytes[1..], bytes[0]);
      match DecodeIds(bytes[1..], bytes[0])
      case None => None
      case Some((orbIds, rest)) =>
        if rest == [] then None
        else
          DecodeIdsShrinks(rest[1..], rest[0]);
          match DecodeIds(rest[1..], rest[0])
          case None => None
          case Some((dependencyIds, more)) =>
            match DecodeText(more)
            case None => None
            case Some((fields, end)) => Some((Record(orbIds, dependencyIds, fields), end))
  }

  function DecodeAll(bytes: seq<byte>): Option<seq<Record>>
    decreases |bytes|
  {
    if bytes == [] then Some([])
    else
      match DecodeOne(bytes)
      case None => None
      case Some((r, rest)) =>
        match DecodeAll(rest)
        case None => None
        case Some(rs) => Some([r] + rs)
  }

  lemma {:induction false} EncodeIdsHead(id: nat, ids: seq<nat>)
    requires Small([id] + ids) && Small(ids) && id < 0x1_0000
    ensures EncodeIds([id] + ids) == Short(id) + EncodeIds(ids)
  {
    var all := [id] + ids;
    if ids == [] {
      assert all[..0] == [];
    } else {
      assert all[..|all| - 1] == [id] + ids[..|ids| - 1];
      EncodeIdsHead(id, ids[..|ids| - 1]);
    }
  }

  lemma {:induction false} DecodeIdsInverts(ids: seq<nat>, rest: seq<byte>)
    requires Small(ids)
    ensures DecodeIds(EncodeIds(ids) + rest, |ids|) == Some((ids, rest))
  {
    if ids == [] {
      assert EncodeIds(ids) + rest == rest;
    } else {
      var id := ids[0];
      assert ids == [id] + ids[1..];
      EncodeIdsHead(id, ids[1..]);
      DecodeIdsInverts(ids[1..], rest);
      assert (EncodeIds(ids) + rest)[2..] == EncodeIds(ids[1..]) + rest;
    }
  }

  /** The text comes back up to its first NUL. */
  lemma {:induction false} DecodeTextInverts(text: seq<byte>, rest: seq<byte>)
    ensures DecodeText(text + [0] + rest).Some?
    ensures DecodeText(text + [0] + rest).value.0 == text <==> 0 !in text
    ensures 0 !in text ==> DecodeText(text + [0] + rest).value.1 == rest
  {
    if text == [] || text[0] == 0 {
      assert text == [] ==> (text + [0] + rest)[1..] == rest;
    } else {
      assert (text + [0] + rest)[1..] == text[1..] + [0] + rest;
      assert text == [text[0]] + text[1..];
      DecodeTextInverts(text[1..], rest);
    }
  }

  /** A record in front of anything decodes to itself, unless its text has a NUL. */
  lemma {:induction false} DecodeOneInverts(r: Record, rest: seq<byte>)
    requires Encodable(r)
    ensures DecodeOne(Encode(r) + rest).Some?
    ensures DecodeOne(Encode(r) + rest).value.0 == r <==> 0 !in r.fields
    ensures 0 !in r.fields ==> DecodeOne(Encode(r) + rest).value.1 == rest
  {
    hide EncodeIds, DecodeIds, DecodeText;
    var bytes := Encode(r) + rest;
    var text := r.fields + [0] + rest;
    var deps := EncodeIds(r.dependencyIds) + text;
    assert bytes[1..] == EncodeIds(r.orbIds) + ([|r.dependencyIds| as byte] + deps);
    DecodeIdsInverts(r.orbIds, [|r.dependencyIds| as byte] + deps);
    assert ([|r.dependencyIds| as byte] + deps)[1..] == deps;
    DecodeIdsInverts(r.dependencyIds, text);
    DecodeTextInverts(r.fields, rest);
  }

  lemma {:induction false} EncodeAllHead(r: Record, rs: seq<Record>)
    requires Encodable(r) && forall x <- rs :: Encodable(x)
    ensures EncodeAll([r] + rs) == Encode(r) + EncodeAll(rs)
  {
    hide Encode, Encodable;
    var all := [r] + rs;
    if rs == [] {
      assert all[..0] == [] && all[0] == r;
    } else {
      assert all[..|all| - 1] == [r] + rs[..|rs| - 1];
      EncodeAllHead(r, rs[..|rs| - 1]);
    }
  }

  /** The concatenated records are uniquely decodable exactly as long as no field text holds a NUL. */
  lemma {:induction false} DecodeAllInverts(rs: seq<Record>)
    requires forall r <- rs :: Encodable(r)
    ensures DecodeAll(EncodeAll(rs)) == Some(rs) <==> forall r <- rs :: 0 !in r.fields
  {
    hide Encode, Encodable, DecodeOne;
    if rs == [] {
    } else {
      var r, rest := rs[0], rs[1..];
      assert rs == [r] + rest;
      EncodeAllHead(r, rest);
      DecodeOneInverts(r, EncodeAll(rest));
      DecodeAllInverts(rest);
    }
  }

  /** With a NUL in a text, two different lists have the same encoding. */
  lemma {:induction false} NulIsAmbiguous()
    ensures var empty := Record([], [], []);
            EncodeAll([Record([], [], [0, 0, 0])]) == EncodeAll([empty, empty])
  {
    var empty, odd := Record([], [], []), Record([], [], [0, 0, 0]);
    assert Encode(empty) == [0, 0, 0] && Encode(odd) == [0, 0, 0, 0, 0, 0];
    EncodeAllHead(odd, []);
    EncodeAllHead(empty, [empty]);
    EncodeAllHead(empty, []);
    assert [odd] + [] == [odd] && [empty] + [empty] == [empty, empty] && [empty] + [] == [empty];
  }
}
