/** What a snapshot says, leaf by leaf, in terms of the struct type and its tags alone. */
module Snapshots {
  import opened Wrappers
  import opened StoreTypes
  import opened ConfigTypes
  import opened FieldValues
  import opened Catalog
  import opened CatalogProperties
  import opened OverrideApplication

  /** No dynamic tag sits on a field whose type is a pointer to a scalar. */
  ghost predicate NoPointerLeaves(t: GoType) {
    forall path :: Managed(t, path) && ValidPath(t, path) ==> !TypeAt(t, path).TPointer?
  }

  /** The types the override step is meant for: the catalog can be built, and no managed field is
    * itself a pointer. */
  ghost predicate Supported(t: GoType) {
    t.TStruct? && Build(t).Ok? && NoPointerLeaves(t)
  }

  lemma {:induction false} ReachableIsValid(t: GoType, path: seq<nat>)
    requires Reachable(t, path)
    ensures ValidPath(t, path) && TypeAt(t, path) == FieldAt(t, path).value.typ
    decreases |path|
  {
    if |path| == 1 {
      assert path[1..] == [];
    } else {
      ReachableIsValid(Deref(t).fields[path[0]].typ, path[1..]);
    }
  }

  lemma BuiltCatalogFits(t: GoType)
    requires Supported(t)
    ensures CatalogFits(t, Build(t).value)
  {
    CatalogIsExact(t);
    var ds := Build(t).value;
    forall j | 0 <= j < |ds|
      ensures ValidPath(t, ds[j].fieldIndices) && !Nests(ds[j].fieldType)
      ensures TypeAt(t, ds[j].fieldIndices) == ds[j].fieldType
    {
      ReachableIsValid(t, ds[j].fieldIndices);
    }
  }

  /** The value the overrides give to the leaf at a path: there is one only if the leaf is managed,
    * its key is overridden, and the override parses. */
  ghost function OverrideOf(t: GoType, overrides: Overrides, decoders: Decoders, path: seq<nat>): Option<Leaf> {
    if Managed(t, path) && KeyAt("", t, path) in overrides
    then ParseFieldValue(overrides[KeyAt("", t, path)], Deref(FieldAt(t, path).value.typ), decoders)
    else None
  }

  function JobFor(t: GoType, base: Value, overrides: Overrides, decoders: Decoders): Job
    requires Build(t).Ok?
  {
    Job(t, base, Build(t).value, overrides, decoders)
  }

  /** The catalog's descriptor for a managed leaf applies its override. */
  lemma AppliedIsOverride(t: GoType, base: Value, overrides: Overrides, decoders: Decoders, j: nat)
    requires Supported(t) && j < |Build(t).value|
    ensures JobFor(t, base, overrides, decoders).Applied(j)
         == OverrideOf(t, overrides, decoders, Build(t).value[j].fieldIndices)
  {
    CatalogIsExact(t);
  }

  lemma {:induction false} LeafAfterIsOverride(t: GoType, base: Value, overrides: Overrides, decoders: Decoders,
                                               m: nat, path: seq<nat>)
    requires Supported(t) && m <= |Build(t).value| && ValidPath(t, path)
    ensures JobFor(t, base, overrides, decoders).LeafAfter(m, path)
         == if (exists j :: 0 <= j < m && Build(t).value[j].fieldIndices == path) &&
               OverrideOf(t, overrides, decoders, path).Some?
            then OverrideOf(t, overrides, decoders, path).value
            else JobFor(t, base, overrides, decoders).DefaultLeaf(path)
  {
    if m > 0 {
      LeafAfterIsOverride(t, base, overrides, decoders, m - 1, path);
      AppliedIsOverride(t, base, overrides, decoders, m - 1);
    }
  }

  /** The leafwise meaning of applyOverrides, with no mention of catalog or walk. At every leaf of the
    * type the result has the override where there is one, and otherwise the base leaf. The only
    * leaves that cannot be read are those behind a nil pointer below which nothing is overridden;
    * behind a pointer that an override opened, leaves without override are zero. */
  lemma LeafwiseMeaning(t: GoType, base: Value, overrides: Overrides, decoders: Decoders, path: seq<nat>)
    requires Supported(t) && ValidPath(t, path) && !Nests(TypeAt(t, path))
    ensures JobFor(t, base, overrides, decoders).Expected(path)
         == match OverrideOf(t, overrides, decoders, path)
            case Some(x) => Some(x)
            case None =>
              if Anchor(t, path) == [] || OverriddenBelow(t, overrides, decoders, Anchor(t, path))
              then Some(JobFor(t, base, overrides, decoders).DefaultLeaf(path))
              else None
  {
    var job := JobFor(t, base, overrides, decoders);
    var ds := Build(t).value;
    CatalogIsExact(t);
    LeafAfterIsOverride(t, base, overrides, decoders, |ds|, path);
    var a := Anchor(t, path);
    assert OverrideOf(t, overrides, decoders, path).Some? ==>
      exists j :: 0 <= j < |ds| && ds[j].fieldIndices == path by {
      if Managed(t, path) {
        var j :| 0 <= j < |ds| && ds[j] == DescriptorAt([], "", t, path);
        assert ds[j].fieldIndices == path;
      }
    }
    OpenedIsOverridden(t, base, overrides, decoders, a);
    if path != [] {
      AnchorIsProper(t, path);
    }
  }

  /** Some leaf below a pointer is overridden. */
  ghost predicate OverriddenBelow(t: GoType, overrides: Overrides, decoders: Decoders, pointer: seq<nat>) {
    exists leaf :: pointer < leaf && OverrideOf(t, overrides, decoders, leaf).Some?
  }

  /** A leaf with an override has a descriptor, which applies it. */
  lemma OverrideIsApplied(t: GoType, base: Value, overrides: Overrides, decoders: Decoders, leaf: seq<nat>)
    returns (j: nat)
    requires Supported(t) && OverrideOf(t, overrides, decoders, leaf).Some?
    ensures j < |Build(t).value| && Build(t).value[j].fieldIndices == leaf
    ensures JobFor(t, base, overrides, decoders).Applied(j).Some?
  {
    var ds := Build(t).value;
    CatalogIsExact(t);
    assert DescriptorAt([], "", t, leaf) in ds;
    j :| 0 <= j < |ds| && ds[j] == DescriptorAt([], "", t, leaf);
    assert [] + leaf == leaf;
    AppliedIsOverride(t, base, overrides, decoders, j);
  }

  lemma OpenedIsOverridden(t: GoType, base: Value, overrides: Overrides, decoders: Decoders, pointer: seq<nat>)
    requires Supported(t)
    ensures JobFor(t, base, overrides, decoders).OpenedBy(|Build(t).value|, pointer)
       <==> OverriddenBelow(t, overrides, decoders, pointer)
  {
    var job, ds := JobFor(t, base, overrides, decoders), Build(t).value;
    if job.OpenedBy(|ds|, pointer) {
      var j :| 0 <= j < |ds| && job.Applied(j).Some? && pointer < ds[j].fieldIndices;
      AppliedIsOverride(t, base, overrides, decoders, j);
    }
    if OverriddenBelow(t, overrides, decoders, pointer) {
      var leaf :| pointer < leaf && OverrideOf(t, overrides, decoders, leaf).Some?;
      var j := OverrideIsApplied(t, base, overrides, decoders, leaf);
    }
  }

  predicate PointerFree(t: GoType) {
    && !t.TPointer?
    && (t.TStruct? ==> forall i :: 0 <= i < |t.fields| ==> PointerFree(t.fields[i].typ))
  }

  lemma {:induction false} PointerFreeHasNoAnchors(t: GoType, path: seq<nat>)
    requires PointerFree(t) && ValidPath(t, path)
    ensures Anchor(t, path) == [] && PointerFree(TypeAt(t, path))
    decreases |path|
  {
    if path != [] {
      var init, _ := LastStep(t, path);
      PointerFreeHasNoAnchors(t, init);
    }
  }

  /** For a type without pointers every leaf is either overridden or as in the base. In particular
    * bootstrap, secret, untagged and hidden leaves are as in the base, whatever is stored. */
  lemma PointerFreeMeaning(t: GoType, base: Value, overrides: Overrides, decoders: Decoders, path: seq<nat>)
    requires Supported(t) && PointerFree(t) && BaseFits(t, base) && ValidPath(t, path) && !Nests(TypeAt(t, path))
    ensures GetField(base, path).Some? && GetField(base, path).value.VLeaf?
    ensures JobFor(t, base, overrides, decoders).Expected(path)
         == match OverrideOf(t, overrides, decoders, path)
            case Some(x) => Some(x)
            case None => Some(GetField(base, path).value.leaf)
    ensures !Managed(t, path) ==>
      JobFor(t, base, overrides, decoders).Expected(path) == Some(GetField(base, path).value.leaf)
  {
    PointerFreeHasNoAnchors(t, path);
    BaseHasShape(t, base, path);
    LeafwiseMeaning(t, base, overrides, decoders, path);
  }

  /** The tag restart-required does not keep a stored value out of the live snapshot: the leaf is
    * overwritten like any other managed leaf. */
  lemma RestartFieldsAreOverwritten(t: GoType, base: Value, overrides: Overrides, decoders: Decoders, path: seq<nat>)
    requires Supported(t) && Managed(t, path) && Dyn(FieldAt(t, path).value) == "restart-required"
    requires OverrideOf(t, overrides, decoders, path).Some?
    ensures ValidPath(t, path)
    ensures JobFor(t, base, overrides, decoders).Expected(path) == OverrideOf(t, overrides, decoders, path)
  {
    ReachableIsValid(t, path);
    LeafwiseMeaning(t, base, overrides, decoders, path);
  }

  // ---------------------------------------------------------------------------------------------
  // Whole snapshots
  // ---------------------------------------------------------------------------------------------

  /** A snapshot as its readers see it: what every leaf of the type reads as. */
  type Snapshot = map<seq<nat>, Option<Leaf>>

  ghost function LeafPaths(t: GoType): set<seq<nat>> {
    if !Nests(t) then {[]}
    else
      set i, p | 0 <= i < |Deref(t).fields| && p in LeafPaths(Deref(t).fields[i].typ) :: [i] + p
  }

  lemma {:induction false} LeafPathsAreLeaves(t: GoType, path: seq<nat>)
    ensures path in LeafPaths(t) <==> ValidPath(t, path) && !Nests(TypeAt(t, path))
    decreases |path|
  {
    if Nests(t) && path != [] && path[0] < |Deref(t).fields| {
      var f := Deref(t).fields[path[0]].typ;
      LeafPathsAreLeaves(f, path[1..]);
      assert path == [path[0]] + path[1..];
      if path in LeafPaths(t) {
        var i: nat, p :| 0 <= i < |Deref(t).fields| && p in LeafPaths(Deref(t).fields[i].typ) && path == [i] + p;
        assert p == path[1..];
      }
    }
  }

  ghost function View(h: seq<Value>, root: nat, t: GoType): Snapshot {
    map path | path in LeafPaths(t) :: ReadLeaf(h, root, path)
  }

  /** The snapshot that a listing of the store gives rise to. */
  ghost function Rebuild(job: Job): Snapshot {
    map path | path in LeafPaths(job.t) && ValidPath(job.t, path) :: job.Expected(path)
  }

  /** A snapshot has every leaf of the type and nothing else, each as it is expected. */
  lemma RebuildReads(job: Job, path: seq<nat>)
    ensures path in Rebuild(job) <==> ValidPath(job.t, path) && !Nests(TypeAt(job.t, path))
    ensures path in Rebuild(job) ==> Rebuild(job)[path] == job.Expected(path)
  {
    LeafPathsAreLeaves(job.t, path);
  }

  lemma PublishedIsRebuilt(h: seq<Value>, root: nat, job: Job, later: seq<Value>)
    requires Published(h, root, job) && h <= later
    ensures View(later, root, job.t) == Rebuild(job)
  {
    forall path
      ensures path in LeafPaths(job.t) <==> ValidPath(job.t, path) && !Nests(TypeAt(job.t, path))
    {
      LeafPathsAreLeaves(job.t, path);
    }
  }
}
