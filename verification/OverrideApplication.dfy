/** Applying overrides to a copy of the base config, in a memory where pointer fields share cells. */
module OverrideApplication {
  import opened Wrappers
  import opened ConfigTypes
  import opened FieldValues
  import opened StoreTypes

  // ---------------------------------------------------------------------------------------------
  // Memory
  // ---------------------------------------------------------------------------------------------

  /** The cells that pointers lead to, in order of allocation. Cells are never freed. */
  class Memory {
    var cells: seq<Value>

    constructor ()
      ensures cells == []
    {
      cells := [];
    }

    method New(v: Value) returns (address: nat)
      modifies this
      ensures address == |old(cells)| && cells == old(cells) + [v]
    {
      address := |cells|;
      cells := cells + [v];
    }

    method Write(place: Place, v: Value)
      requires place.cell < |cells|
      modifies this
      ensures cells == Written(old(cells), place, v)
    {
      cells := cells[place.cell := PutField(cells[place.cell], place.fields, v)];
    }
  }

  /** An addressable variable: a field inside a cell. */
  datatype Place = Place(cell: nat, fields: seq<nat>)

  function ReadAt(h: seq<Value>, place: Place): Option<Value> {
    if place.cell < |h| then GetField(h[place.cell], place.fields) else None
  }

  function Written(h: seq<Value>, place: Place, v: Value): seq<Value>
    requires place.cell < |h|
  {
    h[place.cell := PutField(h[place.cell], place.fields, v)]
  }

  lemma LowerCellsStay(h: seq<Value>, place: Place, v: Value, n: nat)
    requires n <= place.cell < |h|
    ensures Written(h, place, v)[..n] == h[..n]
  {
  }

  /** The place a program reaches from the root by selecting one field after another, following
    * pointers as it goes; None when it meets a nil pointer. */
  function Resolve(h: seq<Value>, root: nat, path: seq<nat>): Option<Place>
    decreases |path|
  {
    if path == [] then Some(Place(root, []))
    else
      match Resolve(h, root, path[..|path| - 1])
      case None => None
      case Some(p) => Select(h, p, path[|path| - 1])
  }

  /** The place of one field of the struct at `p`, or of the struct the pointer at `p` leads to. */
  function Select(h: seq<Value>, p: Place, i: nat): Option<Place> {
    match ReadAt(h, p)
    case Some(VPointer(Some(address))) => Some(Place(address, [i]))
    case Some(VStruct(_)) => Some(Place(p.cell, p.fields + [i]))
    case _ => None
  }

  /** What reading the leaf at a path gives. */
  function ReadLeaf(h: seq<Value>, root: nat, path: seq<nat>): Option<Leaf> {
    match Resolve(h, root, path)
    case None => None
    case Some(p) => (match ReadAt(h, p) case Some(VLeaf(x)) => Some(x) case _ => None)
  }

  // ---------------------------------------------------------------------------------------------
  // What the result should be, leaf by leaf
  // ---------------------------------------------------------------------------------------------

  /** One call of applyOverrides. */
  datatype Job = Job(t: GoType, base: Value, catalog: seq<Descriptor>, overrides: Overrides, decoders: Decoders) {

    /** The value the j-th descriptor sets, if its key is overridden by a text that parses. */
    function Applied(j: nat): Option<Leaf>
      requires j < |catalog|
    {
      var d := catalog[j];
      if d.key in overrides then ParseFieldValue(overrides[d.key], d.fieldType, decoders) else None
    }

    /** The leaf of the base, or the zero value where the base has only a nil pointer. */
    function DefaultLeaf(path: seq<nat>): Leaf
      requires ValidPath(t, path)
    {
      if Anchor(t, path) != [] then ZeroLeaf(TypeAt(t, path))
      else match GetField(base, path) case Some(VLeaf(x)) => x case _ => LOpaque(0)
    }

    /** The leaf at a path once the first m descriptors are done. */
    function LeafAfter(m: nat, path: seq<nat>): Leaf
      requires m <= |catalog| && ValidPath(t, path)
    {
      if m == 0 then DefaultLeaf(path)
      else if catalog[m - 1].fieldIndices == path && Applied(m - 1).Some? then Applied(m - 1).value
      else LeafAfter(m - 1, path)
    }

    /** Whether one of the first m descriptors was applied below a pointer. */
    ghost predicate OpenedBy(m: nat, pointer: seq<nat>)
      requires m <= |catalog|
    {
      exists j :: 0 <= j < m && Applied(j).Some? && pointer < catalog[j].fieldIndices
    }

    /** The leaf a reader sees, None behind a pointer that stays nil. */
    ghost function Expected(path: seq<nat>): Option<Leaf>
      requires ValidPath(t, path)
    {
      if Anchor(t, path) == [] || OpenedBy(|catalog|, Anchor(t, path)) then Some(LeafAfter(|catalog|, path))
      else None
    }

    /** The overrides that are present but do not parse, in catalog order. */
    function Rejected(m: nat): seq<(string, string)>
      requires m <= |catalog|
    {
      if m == 0 then []
      else
        var key := catalog[m - 1].key;
        Rejected(m - 1) + if key in overrides && Applied(m - 1).None? then [(key, overrides[key])] else []
    }
  }

  /** The report has exactly the overrides of catalogued keys that do not parse, in catalog order: one
    * entry for each such descriptor, even if another has the same key, and nothing for any other. */
  lemma {:induction false} RejectedIsExact(job: Job, m: nat)
    requires m <= |job.catalog|
    ensures forall key, raw :: (key, raw) in job.Rejected(m) <==>
      exists j :: 0 <= j < m && job.catalog[j].key == key && key in job.overrides && job.overrides[key] == raw &&
                  ParseFieldValue(raw, job.catalog[j].fieldType, job.decoders).None?
    ensures m < |job.catalog| ==>
      var d, before, after := job.catalog[m], job.Rejected(m), job.Rejected(m + 1);
      if d.key in job.overrides && ParseFieldValue(job.overrides[d.key], d.fieldType, job.decoders).None?
      then after == before + [(d.key, job.overrides[d.key])]
      else after == before
  {
    if m > 0 {
      RejectedIsExact(job, m - 1);
    }
  }

  /** No key is reported twice if the keys are distinct. */
  lemma {:induction false} RejectedKeysAreDistinct(job: Job, m: nat)
    requires m <= |job.catalog|
    requires forall j, k :: 0 <= j < k < m ==> job.catalog[j].key != job.catalog[k].key
    ensures forall j, k :: 0 <= j < k < |job.Rejected(m)| ==> job.Rejected(m)[j].0 != job.Rejected(m)[k].0
  {
    if m > 0 {
      RejectedKeysAreDistinct(job, m - 1);
      RejectedIsExact(job, m - 1);
      var before := job.Rejected(m - 1);
      forall k | 0 <= k < |before|
        ensures before[k].0 != job.catalog[m - 1].key
      {
        assert (before[k].0, before[k].1) in before;
      }
    }
  }

  lemma NothingRejected(job: Job, m: nat)
    requires m < |job.catalog| && (job.catalog[m].key !in job.overrides || job.Applied(m).Some?)
    ensures job.Rejected(m + 1) == job.Rejected(m)
  {
  }

  /** The path of the pointer whose cell a place lies in, [] for the root cell. */
  function Anchor(t: GoType, path: seq<nat>): (a: seq<nat>)
    requires ValidPath(t, path)
    ensures a <= path
    decreases |path|
  {
    if path == [] then []
    else
      var p := path[..|path| - 1];
      TypeSnoc(t, p, path[|path| - 1]);
      assert path == p + [path[|path| - 1]];
      if TypeAt(t, p).TPointer? then p else Anchor(t, p)
  }

  lemma {:induction false} TypeSnoc(t: GoType, path: seq<nat>, i: nat)
    ensures ValidPath(t, path + [i])
       <==> ValidPath(t, path) && Nests(TypeAt(t, path)) && i < |Deref(TypeAt(t, path)).fields|
    ensures ValidPath(t, path + [i]) ==> TypeAt(t, path + [i]) == Deref(TypeAt(t, path)).fields[i].typ
    decreases |path|
  {
    if path == [] {
      assert path + [i] == [i];
    } else {
      assert (path + [i])[1..] == path[1..] + [i];
      if Nests(t) && path[0] < |Deref(t).fields| {
        TypeSnoc(Deref(t).fields[path[0]].typ, path[1..], i);
      }
    }
  }

  /** Every index path of the catalog leads to a leaf of the type it was recorded with. */
  ghost predicate CatalogFits(t: GoType, catalog: seq<Descriptor>) {
    forall j :: 0 <= j < |catalog| ==>
      && ValidPath(t, catalog[j].fieldIndices)
      && !Nests(catalog[j].fieldType)
      && TypeAt(t, catalog[j].fieldIndices) == catalog[j].fieldType
  }

  /** A value of the type whose nested struct pointers are nil. */
  ghost predicate BaseFits(t: GoType, base: Value) {
    if t.TStruct? then
      base.VStruct? && |base.fields| == |t.fields| &&
      forall i :: 0 <= i < |t.fields| ==> BaseFits(t.fields[i].typ, base.fields[i])
    else if Nests(t) then base == VPointer(None)
    else base.VLeaf?
  }

  // ---------------------------------------------------------------------------------------------
  // Navigating and writing
  // ---------------------------------------------------------------------------------------------

  /** The cells of the copy under construction, by the path of the pointer that leads to each. */
  type Cells = map<seq<nat>, nat>

  function Rest(t: GoType, path: seq<nat>): seq<nat>
    requires ValidPath(t, path)
  {
    path[|Anchor(t, path)|..]
  }

  /** The place a path leads to, once the cell it lies in exists. */
  function PlaceOf(t: GoType, cellOf: Cells, path: seq<nat>): Place
    requires ValidPath(t, path) && Anchor(t, path) in cellOf
  {
    Place(cellOf[Anchor(t, path)], Rest(t, path))
  }

  /** What has to be at a path after the first m descriptors. */
  ghost predicate Holds(h: seq<Value>, job: Job, m: nat, cellOf: Cells, path: seq<nat>)
    requires m <= |job.catalog| && ValidPath(job.t, path) && Anchor(job.t, path) in cellOf
  {
    var t := TypeAt(job.t, path);
    var v := ReadAt(h, PlaceOf(job.t, cellOf, path));
    if t.TStruct? then v.Some? && v.value.VStruct? && |v.value.fields| == |t.fields|
    else if Nests(t) then v == Some(VPointer(if path in cellOf then Some(cellOf[path]) else None))
    else v == Some(VLeaf(job.LeafAfter(m, path)))
  }

  /** The pointer that leads to a cell lies in a cell itself. */
  ghost predicate Hangs(t: GoType, cellOf: Cells, a: seq<nat>) {
    a != [] ==> ValidPath(t, a) && TypeAt(t, a).TPointer? && Nests(TypeAt(t, a)) && Anchor(t, a) in cellOf
  }

  /** The copy lies in its own cells from `root` on: each is reached by one pointer only, and each
    * holds what it should. */
  ghost predicate Lays(h: seq<Value>, root: nat, job: Job, m: nat, cellOf: Cells)
    requires m <= |job.catalog|
  {
    && [] in cellOf && cellOf[[]] == root
    && (forall a :: a in cellOf ==> root <= cellOf[a] < |h|)
    && (forall a, b :: a in cellOf && b in cellOf && a != b ==> cellOf[a] != cellOf[b])
    && (forall a {:trigger Hangs(job.t, cellOf, a)} :: a in cellOf ==> Hangs(job.t, cellOf, a))
    && (forall path {:trigger Holds(h, job, m, cellOf, path)} ::
          ValidPath(job.t, path) && Anchor(job.t, path) in cellOf ==> Holds(h, job, m, cellOf, path))
  }

  /** Exactly the pointers above applied leaves, and above the path being navigated, have cells. */
  ghost predicate Opens(job: Job, m: nat, navigated: seq<nat>, cellOf: Cells)
    requires m <= |job.catalog|
  {
    forall a :: ValidPath(job.t, a) && TypeAt(job.t, a).TPointer? && Nests(TypeAt(job.t, a)) ==>
      (a in cellOf <==> job.OpenedBy(m, a) || a < navigated)
  }

  // Facts about paths

  /** Taking the last step off a path. */
  lemma LastStep(t: GoType, path: seq<nat>) returns (init: seq<nat>, i: nat)
    requires path != [] && ValidPath(t, path)
    ensures init == path[..|path| - 1] && path == init + [i]
    ensures ValidPath(t, init) && Nests(TypeAt(t, init)) && i < |Deref(TypeAt(t, init)).fields|
    ensures TypeAt(t, path) == Deref(TypeAt(t, init)).fields[i].typ
    ensures Anchor(t, path) == if TypeAt(t, init).TPointer? then init else Anchor(t, init)
  {
    init, i := path[..|path| - 1], path[|path| - 1];
    assert path == init + [i];
    TypeSnoc(t, init, i);
  }

  lemma PrefixOfLonger(p: seq<nat>, init: seq<nat>, i: nat)
    requires p < init + [i]
    ensures p == init || p < init
  {
    assert p == (init + [i])[..|p|] == init[..|p|];
  }

  lemma {:induction false} PrefixNests(t: GoType, p: seq<nat>, q: seq<nat>)
    requires ValidPath(t, q) && p < q
    ensures ValidPath(t, p) && Nests(TypeAt(t, p))
    decreases |q|
  {
    var init, i := LastStep(t, q);
    PrefixOfLonger(p, init, i);
    if p != init {
      PrefixNests(t, p, init);
    }
  }

  /** A pointer on the way to a place is above that place's cell. */
  lemma {:induction false} AnchorCovers(t: GoType, p: seq<nat>, q: seq<nat>)
    requires ValidPath(t, q) && p < q && ValidPath(t, p) && TypeAt(t, p).TPointer?
    ensures p <= Anchor(t, q)
    decreases |q|
  {
    var init, i := LastStep(t, q);
    PrefixOfLonger(p, init, i);
    if p != init {
      AnchorCovers(t, p, init);
      assert p <= Anchor(t, init) <= init;
    }
  }

  /** Two paths into the same cell: neither passes through the other's pointers. */
  lemma SameCell(t: GoType, p: seq<nat>, q: seq<nat>)
    requires ValidPath(t, p) && ValidPath(t, q) && t.TStruct? && Anchor(t, p) == Anchor(t, q)
    ensures p < q ==> TypeAt(t, p).TStruct?
    ensures Rest(t, p) <= Rest(t, q) <==> p <= q
    ensures Rest(t, q) == Rest(t, p) <==> p == q
  {
    var a := Anchor(t, p);
    assert p == a + Rest(t, p) && q == a + Rest(t, q);
    if p < q {
      PrefixNests(t, p, q);
      if TypeAt(t, p).TPointer? {
        AnchorCovers(t, p, q);
        AnchorIsProper(t, p);
      }
    }
  }

  lemma AnchorIsProper(t: GoType, p: seq<nat>)
    requires ValidPath(t, p) && p != []
    ensures Anchor(t, p) < p
  {
    var _, _ := LastStep(t, p);
  }

  /** The part of the base outside any pointer has the type's shape. */
  lemma {:induction false} BaseHasShape(t: GoType, base: Value, path: seq<nat>)
    requires t.TStruct? && BaseFits(t, base) && ValidPath(t, path) && Anchor(t, path) == []
    ensures GetField(base, path).Some? && BaseFits(TypeAt(t, path), GetField(base, path).value)
    decreases |path|
  {
    if path != [] {
      var init, i := LastStep(t, path);
      BaseHasShape(t, base, init);
      GetConcat(base, init, [i]);
    }
  }

  /** So has a new cell. */
  lemma {:induction false} ZeroHasShape(t: GoType, a: seq<nat>, path: seq<nat>)
    requires t.TStruct? && ValidPath(t, a) && TypeAt(t, a).TPointer? && Nests(TypeAt(t, a))
    requires ValidPath(t, path) && Anchor(t, path) == a && path != a
    ensures GetField(Zero(Deref(TypeAt(t, a))), path[|a|..]) == Some(Zero(TypeAt(t, path)))
    decreases |path|
  {
    var cell := Zero(Deref(TypeAt(t, a)));
    var init, i := LastStep(t, path);
    if init == a {
      assert path[|a|..] == [i];
      assert GetField(cell, [i]) == GetField(cell.fields[i], []);
    } else {
      AnchorIsProper(t, init);
      ZeroHasShape(t, a, init);
      GetConcat(cell, init[|a|..], [i]);
      assert path[|a|..] == init[|a|..] + [i];
    }
  }

  // Steps

  lemma {:induction false} UnopenedIsDefault(job: Job, m: nat, a: seq<nat>, path: seq<nat>)
    requires m <= |job.catalog| && ValidPath(job.t, path) && a < path && !job.OpenedBy(m, a)
    ensures job.LeafAfter(m, path) == job.DefaultLeaf(path)
  {
    if m > 0 {
      assert !job.OpenedBy(m - 1, a);
      assert job.catalog[m - 1].fieldIndices == path ==> job.Applied(m - 1).None?;
      UnopenedIsDefault(job, m - 1, a, path);
    }
  }

  /** Copying the base into a new cell starts the copy. */
  lemma CopyLays(h: seq<Value>, job: Job)
    requires job.t.TStruct? && BaseFits(job.t, job.base)
    ensures Lays(h + [job.base], |h|, job, 0, map[[] := |h|]) && Opens(job, 0, [], map[[] := |h|])
  {
    var cellOf: Cells := map[[] := |h|];
    forall path | ValidPath(job.t, path) && Anchor(job.t, path) in cellOf
      ensures Holds(h + [job.base], job, 0, cellOf, path)
    {
      BaseHasShape(job.t, job.base, path);
      if path != [] {
        AnchorIsProper(job.t, path);
      }
    }
  }

  /** A descriptor that is not applied leaves everything as it is. */
  lemma SkipLays(h: seq<Value>, root: nat, job: Job, m: nat, cellOf: Cells)
    requires m < |job.catalog| && job.Applied(m).None?
    requires Lays(h, root, job, m, cellOf) && Opens(job, m, [], cellOf)
    ensures Lays(h, root, job, m + 1, cellOf) && Opens(job, m + 1, [], cellOf)
  {
    forall path | ValidPath(job.t, path) && Anchor(job.t, path) in cellOf
      ensures Holds(h, job, m + 1, cellOf, path)
    {
      assert Holds(h, job, m, cellOf, path);
    }
    forall a
      ensures job.OpenedBy(m + 1, a) <==> job.OpenedBy(m, a)
    {
    }
  }

  /** Writing the parsed value at the descriptor's place changes what that place holds, and no other. */
  lemma WrittenHolds(h: seq<Value>, job: Job, m: nat, cellOf: Cells, p: seq<nat>, q: seq<nat>)
    requires job.t.TStruct? && m < |job.catalog| && job.Applied(m).Some? && p == job.catalog[m].fieldIndices
    requires ValidPath(job.t, p) && !Nests(TypeAt(job.t, p))
    requires ValidPath(job.t, q) && Anchor(job.t, p) in cellOf && Anchor(job.t, q) in cellOf
    requires Holds(h, job, m, cellOf, p) && Holds(h, job, m, cellOf, q)
    requires cellOf[Anchor(job.t, p)] < |h| && cellOf[Anchor(job.t, q)] < |h|
    requires cellOf[Anchor(job.t, p)] == cellOf[Anchor(job.t, q)] ==> Anchor(job.t, p) == Anchor(job.t, q)
    ensures Holds(Written(h, PlaceOf(job.t, cellOf, p), VLeaf(job.Applied(m).value)), job, m + 1, cellOf, q)
  {
    var x, place := VLeaf(job.Applied(m).value), PlaceOf(job.t, cellOf, p);
    if Anchor(job.t, q) == Anchor(job.t, p) {
      GetAfterPut(h[place.cell], place.fields, x, Rest(job.t, q));
      SameCell(job.t, p, q);
      SameCell(job.t, q, p);
    }
  }

  /** So it finishes the descriptor. */
  lemma WriteLays(h: seq<Value>, root: nat, job: Job, m: nat, cellOf: Cells)
    requires job.t.TStruct? && m < |job.catalog| && job.Applied(m).Some? && CatalogFits(job.t, job.catalog)
    requires Lays(h, root, job, m, cellOf) && Opens(job, m, job.catalog[m].fieldIndices, cellOf)
    requires Anchor(job.t, job.catalog[m].fieldIndices) in cellOf
    ensures var place := PlaceOf(job.t, cellOf, job.catalog[m].fieldIndices);
            Lays(Written(h, place, VLeaf(job.Applied(m).value)), root, job, m + 1, cellOf)
    ensures Opens(job, m + 1, [], cellOf)
  {
    var p := job.catalog[m].fieldIndices;
    assert Holds(h, job, m, cellOf, p);
    var after := Written(h, PlaceOf(job.t, cellOf, p), VLeaf(job.Applied(m).value));
    forall q | ValidPath(job.t, q) && Anchor(job.t, q) in cellOf
      ensures Holds(after, job, m + 1, cellOf, q)
    {
      assert Holds(h, job, m, cellOf, q);
      WrittenHolds(h, job, m, cellOf, p, q);
    }
    forall a | ValidPath(job.t, a) && TypeAt(job.t, a).TPointer? && Nests(TypeAt(job.t, a))
      ensures a in cellOf <==> job.OpenedBy(m + 1, a)
    {
      if a < p {
        assert job.OpenedBy(m + 1, a);
      }
    }
  }

  /** A new cell holds what is expected below a pointer that nothing was applied under. */
  lemma NewCellHolds(h: seq<Value>, job: Job, m: nat, cellOf: Cells, p: seq<nat>, q: seq<nat>)
    requires job.t.TStruct? && m <= |job.catalog| && !job.OpenedBy(m, p)
    requires ValidPath(job.t, p) && TypeAt(job.t, p).TPointer? && Nests(TypeAt(job.t, p))
    requires p in cellOf && cellOf[p] < |h| && h[cellOf[p]] == Zero(Deref(TypeAt(job.t, p)))
    requires ValidPath(job.t, q) && q != [] && Anchor(job.t, q) == p && q !in cellOf
    ensures Holds(h, job, m, cellOf, q)
  {
    AnchorIsProper(job.t, q);
    ZeroHasShape(job.t, p, q);
    UnopenedIsDefault(job, m, p, q);
  }

  /** Storing the new cell's address keeps what the other places hold. */
  lemma OldCellHolds(h: seq<Value>, z: Value, job: Job, m: nat, cellOf: Cells, p: seq<nat>, q: seq<nat>)
    requires job.t.TStruct? && m <= |job.catalog| && p !in cellOf
    requires ValidPath(job.t, p) && TypeAt(job.t, p).TPointer? && Nests(TypeAt(job.t, p))
    requires ValidPath(job.t, q) && Anchor(job.t, p) in cellOf && Anchor(job.t, q) in cellOf
    requires Holds(h, job, m, cellOf, p) && Holds(h, job, m, cellOf, q)
    requires cellOf[Anchor(job.t, p)] < |h| && cellOf[Anchor(job.t, q)] < |h|
    requires cellOf[Anchor(job.t, p)] == cellOf[Anchor(job.t, q)] ==> Anchor(job.t, p) == Anchor(job.t, q)
    ensures Holds(Written(h + [z], PlaceOf(job.t, cellOf, p), VPointer(Some(|h|))), job, m, cellOf[p := |h|], q)
  {
    var x, place := VPointer(Some(|h|)), PlaceOf(job.t, cellOf, p);
    if Anchor(job.t, q) == Anchor(job.t, p) {
      GetAfterPut(h[place.cell], place.fields, x, Rest(job.t, q));
      SameCell(job.t, p, q);
      SameCell(job.t, q, p);
    }
  }

  /** Allocating the target of a nil pointer and storing its address there. */
  lemma OpenLays(h: seq<Value>, root: nat, job: Job, m: nat, cellOf: Cells, p: seq<nat>)
    requires job.t.TStruct? && m <= |job.catalog| && Lays(h, root, job, m, cellOf)
    requires ValidPath(job.t, p) && TypeAt(job.t, p).TPointer? && Nests(TypeAt(job.t, p))
    requires Anchor(job.t, p) in cellOf && p !in cellOf && !job.OpenedBy(m, p)
    ensures Lays(Written(h + [Zero(Deref(TypeAt(job.t, p)))], PlaceOf(job.t, cellOf, p), VPointer(Some(|h|))),
                 root, job, m, cellOf[p := |h|])
  {
    var z := Zero(Deref(TypeAt(job.t, p)));
    var after := Written(h + [z], PlaceOf(job.t, cellOf, p), VPointer(Some(|h|)));
    var cells := cellOf[p := |h|];
    assert Holds(h, job, m, cellOf, p);
    forall a | a in cells
      ensures Hangs(job.t, cells, a)
    {
      assert a in cellOf ==> Hangs(job.t, cellOf, a);
    }
    forall q | ValidPath(job.t, q) && Anchor(job.t, q) in cells
      ensures Holds(after, job, m, cells, q)
    {
      if Anchor(job.t, q) == p {
        if q != [] {
          AnchorIsProper(job.t, q);
          assert q in cellOf ==> Hangs(job.t, cellOf, q);
          NewCellHolds(after, job, m, cells, p, q);
        }
      } else {
        assert Holds(h, job, m, cellOf, q);
        OldCellHolds(h, z, job, m, cellOf, p, q);
      }
    }
  }

  /** navigateField: follows the index path from the root, allocating the target of every nil
    * pointer on the way. It writes only into cells of the copy. */
  method NavigateField(mem: Memory, root: nat, t: GoType, indices: seq<nat>,
                       ghost job: Job, ghost m: nat, ghost cellsBefore: Cells)
    returns (place: Place, ghost cellOf: Cells)
    requires job.t == t && t.TStruct? && m <= |job.catalog| && ValidPath(t, indices)
    requires Lays(mem.cells, root, job, m, cellsBefore) && Opens(job, m, [], cellsBefore)
    modifies mem
    ensures root <= |old(mem.cells)| <= |mem.cells| && mem.cells[..root] == old(mem.cells)[..root]
    ensures Lays(mem.cells, root, job, m, cellOf) && Opens(job, m, indices, cellOf)
    ensures Anchor(t, indices) in cellOf && place == PlaceOf(t, cellOf, indices)
  {
    place := Place(root, []);
    var typ := t;
    cellOf := cellsBefore;
    for k := 0 to |indices|
      invariant root <= |old(mem.cells)| <= |mem.cells| && mem.cells[..root] == old(mem.cells)[..root]
      invariant ValidPath(t, indices[..k]) && typ == TypeAt(t, indices[..k])
      invariant Lays(mem.cells, root, job, m, cellOf) && Opens(job, m, indices[..k], cellOf)
      invariant Anchor(t, indices[..k]) in cellOf && place == PlaceOf(t, cellOf, indices[..k])
    {
      ghost var p := indices[..k];
      OneStep(t, indices, k);
      ghost var cellsSoFar := cellOf;
      if typ.TPointer? {
        place, cellOf := Elem(mem, root, place, typ, job, m, cellOf, p);
        typ := typ.elem;
      }
      StepOpens(job, m, p, indices[k], cellsSoFar, cellOf);
      place := Place(place.cell, place.fields + [indices[k]]);
      typ := typ.fields[indices[k]].typ;
    }
    assert indices[..|indices|] == indices;
  }

  /** The pointer case of one navigation step: allocates if nil, then follows. */
  method Elem(mem: Memory, root: nat, pointer: Place, typ: GoType,
              ghost job: Job, ghost m: nat, ghost cellsBefore: Cells, ghost p: seq<nat>)
    returns (place: Place, ghost cellOf: Cells)
    requires job.t.TStruct? && m <= |job.catalog| && Lays(mem.cells, root, job, m, cellsBefore)
    requires ValidPath(job.t, p) && TypeAt(job.t, p) == typ && typ.TPointer? && Nests(typ)
    requires Anchor(job.t, p) in cellsBefore && pointer == PlaceOf(job.t, cellsBefore, p)
    requires p !in cellsBefore ==> !job.OpenedBy(m, p)
    modifies mem
    ensures root <= |old(mem.cells)| <= |mem.cells| && mem.cells[..root] == old(mem.cells)[..root]
    ensures Lays(mem.cells, root, job, m, cellOf)
    ensures cellOf.Keys == cellsBefore.Keys + {p} && place == Place(cellOf[p], [])
    ensures p in cellsBefore ==> cellOf == cellsBefore
    ensures Anchor(job.t, p) in cellOf
  {
    assert Holds(mem.cells, job, m, cellsBefore, p);
    cellOf := cellsBefore;
    var target := ReadAt(mem.cells, pointer).value.target;
    if target.None? {
      OpenLays(mem.cells, root, job, m, cellOf, p);
      var address := mem.New(Zero(typ.elem));
      mem.Write(pointer, VPointer(Some(address)));
      cellOf := cellOf[p := address];
      place := Place(address, []);
    } else {
      place := Place(target.value, []);
    }
  }

  lemma OneStep(t: GoType, indices: seq<nat>, k: nat)
    requires ValidPath(t, indices) && k < |indices|
    ensures var p, q := indices[..k], indices[..k + 1];
      && q == p + [indices[k]]
      && ValidPath(t, p) && Nests(TypeAt(t, p)) && indices[k] < |Deref(TypeAt(t, p)).fields|
      && ValidPath(t, q) && TypeAt(t, q) == Deref(TypeAt(t, p)).fields[indices[k]].typ
      && Anchor(t, q) == (if TypeAt(t, p).TPointer? then p else Anchor(t, p))
      && Rest(t, q) == (if TypeAt(t, p).TPointer? then [] else Rest(t, p)) + [indices[k]]
  {
    var p, q := indices[..k], indices[..k + 1];
    if k + 1 < |indices| {
      PrefixNests(t, q, indices);
    } else {
      assert q == indices;
    }
    var init, i := LastStep(t, q);
    assert init == p;
  }

  /** Navigating one index further opens nothing but the pointer at the current path. */
  lemma StepOpens(job: Job, m: nat, p: seq<nat>, i: nat, cellOf: Cells, after: Cells)
    requires m <= |job.catalog| && Opens(job, m, p, cellOf)
    requires ValidPath(job.t, p) && Nests(TypeAt(job.t, p))
    requires after.Keys == cellOf.Keys + (if TypeAt(job.t, p).TPointer? then {p} else {})
    ensures Opens(job, m, p + [i], after)
  {
    forall a | ValidPath(job.t, a) && TypeAt(job.t, a).TPointer? && Nests(TypeAt(job.t, a))
      ensures a in after <==> job.OpenedBy(m, a) || a < p + [i]
    {
      assert a < p + [i] <==> a < p || a == p;
    }
  }

  /** The result of a job, as every reader sees it now and after any later allocation: at each leaf
    * of the type, what is expected there. */
  ghost predicate Published(h: seq<Value>, root: nat, job: Job) {
    forall later, path :: h <= later && ValidPath(job.t, path) && !Nests(TypeAt(job.t, path)) ==>
      ReadLeaf(later, root, path) == job.Expected(path)
  }

  /** applyOverrides: a new cell gets a copy of the base, and every override that parses is written
    * through its index path. Nothing that existed before is written to. The reader's view of the
    * result is the expected one at every leaf of the type, and the overrides that do not parse are
    * reported once each, in catalog order. */
  method ApplyOverrides(mem: Memory, t: GoType, base: Value, overrides: Overrides, catalog: seq<Descriptor>,
                        decoders: Decoders)
    returns (root: nat, rejected: seq<(string, string)>)
    requires t.TStruct? && BaseFits(t, base) && CatalogFits(t, catalog)
    modifies mem
    ensures root == |old(mem.cells)| < |mem.cells| && old(mem.cells) <= mem.cells
    ensures Published(mem.cells, root, Job(t, base, catalog, overrides, decoders))
    ensures rejected == Job(t, base, catalog, overrides, decoders).Rejected(|catalog|)
  {
    ghost var job := Job(t, base, catalog, overrides, decoders);
    CopyLays(mem.cells, job);
    root := mem.New(base);
    ghost var cellOf: Cells := map[[] := root];
    rejected := [];
    for i := 0 to |catalog|
      invariant root == |old(mem.cells)| < |mem.cells| && mem.cells[..root] == old(mem.cells)
      invariant Lays(mem.cells, root, job, i, cellOf) && Opens(job, i, [], cellOf)
      invariant rejected == job.Rejected(i)
    {
      var d := catalog[i];
      if d.key !in overrides {
        NothingRejected(job, i);
        SkipLays(mem.cells, root, job, i, cellOf);
        continue;
      }
      var raw := overrides[d.key];
      var parsed := ParseFieldValue(raw, d.fieldType, decoders);
      if parsed.None? {
        SkipLays(mem.cells, root, job, i, cellOf);
        rejected := rejected + [(d.key, raw)];
        continue;
      }
      var field;
      field, cellOf := NavigateField(mem, root, t, d.fieldIndices, job, i, cellOf);
      NothingRejected(job, i);
      WriteLays(mem.cells, root, job, i, cellOf);
      LowerCellsStay(mem.cells, field, VLeaf(parsed.value), root);
      mem.Write(field, VLeaf(parsed.value));
    }
    LaidIsPublished(mem.cells, root, job, cellOf);
  }

  /** Following pointers in the finished copy finds a path's place whenever its cell exists. */
  lemma {:induction false} LaidResolves(h: seq<Value>, root: nat, job: Job, m: nat, cellOf: Cells, path: seq<nat>)
    requires job.t.TStruct? && m <= |job.catalog| && Lays(h, root, job, m, cellOf) && ValidPath(job.t, path)
    ensures Resolve(h, root, path)
         == if Anchor(job.t, path) in cellOf then Some(PlaceOf(job.t, cellOf, path)) else None
    decreases |path|
  {
    if path != [] {
      var init, i := LastStep(job.t, path);
      LaidResolves(h, root, job, m, cellOf, init);
      assert init in cellOf ==> Hangs(job.t, cellOf, init);
      if Anchor(job.t, init) in cellOf {
        assert Holds(h, job, m, cellOf, init);
        LaidSelects(h, job, m, cellOf, init, i, path);
      }
    }
  }

  /** Selecting a field leads from a place to the next one, or into the cell behind a pointer. */
  lemma LaidSelects(h: seq<Value>, job: Job, m: nat, cellOf: Cells, init: seq<nat>, i: nat, path: seq<nat>)
    requires m <= |job.catalog| && path == init + [i]
    requires ValidPath(job.t, path) && ValidPath(job.t, init) && Anchor(job.t, init) in cellOf
    requires Nests(TypeAt(job.t, init))
    requires Anchor(job.t, path) == if TypeAt(job.t, init).TPointer? then init else Anchor(job.t, init)
    requires Holds(h, job, m, cellOf, init)
    ensures Select(h, PlaceOf(job.t, cellOf, init), i)
         == if Anchor(job.t, path) in cellOf then Some(PlaceOf(job.t, cellOf, path)) else None
  {
    var from := ReadAt(h, PlaceOf(job.t, cellOf, init));
    var rest := Rest(job.t, path);
    if TypeAt(job.t, init).TPointer? {
      assert rest == [i];
      assert from == Some(VPointer(if init in cellOf then Some(cellOf[init]) else None));
    } else {
      assert rest == Rest(job.t, init) + [i];
      assert from.Some? && from.value.VStruct?;
    }
  }

  lemma LaidReads(h: seq<Value>, root: nat, job: Job, cellOf: Cells, path: seq<nat>)
    requires job.t.TStruct? && Lays(h, root, job, |job.catalog|, cellOf) && Opens(job, |job.catalog|, [], cellOf)
    requires ValidPath(job.t, path) && !Nests(TypeAt(job.t, path))
    ensures ReadLeaf(h, root, path) == job.Expected(path)
  {
    LaidResolves(h, root, job, |job.catalog|, cellOf, path);
    var a := Anchor(job.t, path);
    if a != [] {
      AnchorIsPointer(job.t, path);
    }
    if a in cellOf {
      assert Holds(h, job, |job.catalog|, cellOf, path);
    }
  }

  lemma {:induction false} AnchorIsPointer(t: GoType, path: seq<nat>)
    requires t.TStruct? && ValidPath(t, path) && Anchor(t, path) != []
    ensures ValidPath(t, Anchor(t, path)) && TypeAt(t, Anchor(t, path)).TPointer? && Nests(TypeAt(t, Anchor(t, path)))
    decreases |path|
  {
    var init, _ := LastStep(t, path);
    if Anchor(t, path) != init {
      AnchorIsPointer(t, init);
    }
  }

  lemma LaidIsPublished(h: seq<Value>, root: nat, job: Job, cellOf: Cells)
    requires job.t.TStruct? && Lays(h, root, job, |job.catalog|, cellOf) && Opens(job, |job.catalog|, [], cellOf)
    ensures Published(h, root, job)
  {
    forall later, path | h <= later && ValidPath(job.t, path) && !Nests(TypeAt(job.t, path))
      ensures ReadLeaf(later, root, path) == job.Expected(path)
    {
      forall q | ValidPath(job.t, q) && Anchor(job.t, q) in cellOf
        ensures Holds(later, job, |job.catalog|, cellOf, q)
      {
        assert Holds(h, job, |job.catalog|, cellOf, q);
      }
      forall a | a in cellOf
        ensures Hangs(job.t, cellOf, a)
      {
      }
      LaidReads(later, root, job, cellOf, path);
    }
  }
}
