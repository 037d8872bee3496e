/** Building the catalog: a walk over the struct type that collects one descriptor for every
  * dynamic leaf, or stops at the first field it cannot accept. */
module Catalog {
  import opened Wrappers
  import opened StringLists
  import opened ConfigTypes
  import opened GoSlices
  import opened Sequences

  /** What the walk does with the fields from the i-th on. */
  function Walk(t: GoType, i: nat, indices: seq<nat>, prefix: string): Result<seq<Descriptor>, CatalogError>
    requires t.TStruct?
    decreases t, 1, |t.fields| - i
  {
    if i >= |t.fields| then Ok([])
    else
      match WalkField(t, i, indices, prefix)
      case Err(e) => Err(e)
      case Ok(here) =>
        match Walk(t, i + 1, indices, prefix)
        case Err(e) => Err(e)
        case Ok(rest) => Ok(here + rest)
  }

  function WalkField(t: GoType, i: nat, indices: seq<nat>, prefix: string): Result<seq<Descriptor>, CatalogError>
    requires t.TStruct? && i < |t.fields|
    decreases t, 0, |t.fields| - i
  {
    var f := t.fields[i];
    if !Visible(f) then Ok([])
    else
      var fullKey := FullKey(prefix, JsonKeyName(f));
      var ft := Deref(f.typ);
      if Dyn(f) != "" && Dyn(f) !in VALID_DYN_VALUES then Err(UnknownDyn(fullKey, Dyn(f)))
      else if ft.TStruct? then
        if Dyn(f) == "secret" then Ok([]) else Walk(ft, 0, indices + [i], fullKey)
      else
        match ParseDynTag(Dyn(f))
        case None => Ok([])
        case Some(strategy) =>
          if !SupportedLeaf(ft) then Err(UnsupportedType(fullKey, Dyn(f)))
          else Ok([FieldDescriptor(fullKey, Trim(f.desc), strategy, indices + [i], ft)])
  }

  function Build(t: GoType): Result<seq<Descriptor>, CatalogError> {
    if t.TStruct? then Walk(t, 0, [], "") else Err(NotStruct)
  }

  // ---------------------------------------------------------------------------------------------
  // The walk as the program runs it
  // ---------------------------------------------------------------------------------------------

  type RawDescriptor = FieldDescriptor<GoSlice<nat>>

  /** The slice variable the walk appends to through a pointer. */
  class DescriptorList {
    var items: seq<RawDescriptor>

    constructor ()
      ensures items == []
    {
      items := [];
    }
  }

  ghost function Content(d: RawDescriptor): Descriptor
    requires d.fieldIndices.Valid()
    reads d.fieldIndices.arr
  {
    FieldDescriptor(d.key, d.description, d.strategy, d.fieldIndices.View(), d.fieldType)
  }

  /** The descriptors say `ds`, each index path being what its slice holds in this heap. */
  ghost predicate Shows(items: seq<RawDescriptor>, ds: seq<Descriptor>)
    reads set d | d in items :: d.fieldIndices.arr
  {
    && |items| == |ds|
    && forall k :: 0 <= k < |items| ==>
         && items[k].fieldIndices.Valid()
         && ds[k] == Content(items[k])
  }

  /** Appends to `out`. Every path it records sits on a backing array of its own: the walk writes
    * to no array that existed before, so what `out` already holds keeps its contents, and later
    * iterations cannot reach what earlier ones recorded. */
  method WalkStruct(t: GoType, indices: GoSlice<nat>, prefix: string, out: DescriptorList)
    returns (err: Option<CatalogError>)
    requires t.TStruct? && indices.Valid()
    modifies out
    ensures match Walk(t, 0, indices.View(), prefix)
            case Err(e) => err == Some(e)
            case Ok(ds) => err == None && old(out.items) <= out.items && Shows(out.items[|old(out.items)|..], ds)
    decreases t, 1
  {
    ghost var path := indices.View();
    ghost var before := out.items;
    ghost var done: seq<Descriptor> := [];
    AfterNothing(Walk(t, 0, path, prefix));
    for i := 0 to |t.fields|
      invariant indices.View() == path
      invariant before <= out.items && Shows(out.items[|before|..], done)
      invariant Walk(t, 0, path, prefix) == After(done, Walk(t, i, path, prefix))
    {
      ghost var middle := out.items;
      WalkOn(t, i, path, prefix, done);
      err := VisitField(t, i, indices, prefix, out);
      if err.Some? {
        return err;
      }
      ghost var here := WalkField(t, i, path, prefix).value;
      AddedInTwo(before, middle, out.items);
      ShowsConcat(out.items[|before|..], middle[|before|..], done, out.items[|middle|..], here);
      done := done + here;
    }
    err := None;
  }

  /** The body of the loop over the fields. */
  method VisitField(t: GoType, i: nat, indices: GoSlice<nat>, prefix: string, out: DescriptorList)
    returns (err: Option<CatalogError>)
    requires t.TStruct? && i < |t.fields| && indices.Valid()
    modifies out
    ensures match WalkField(t, i, indices.View(), prefix)
            case Err(e) => err == Some(e)
            case Ok(ds) => err == None && old(out.items) <= out.items && Shows(out.items[|old(out.items)|..], ds)
    decreases t, 0
  {
    var f := t.fields[i];
    if !f.exported {
      return None;
    }
    var ft := Deref(f.typ);
    var keyPart := JsonKeyName(f);
    if keyPart == "-" {
      return None;
    }
    var fullKey := FullKey(prefix, keyPart);
    var cloned := Clone(indices);
    var idxPath := Append(cloned, i);
    var dynRaw := Dyn(f);
    if dynRaw != "" && dynRaw !in VALID_DYN_VALUES {
      return Some(UnknownDyn(fullKey, dynRaw));
    }
    if ft.TStruct? {
      if dynRaw == "secret" {
        return None;
      }
      err := WalkStruct(ft, idxPath, fullKey, out);
      return err;
    }
    var strategy := ParseDynTag(dynRaw);
    if strategy.None? {
      return None;
    }
    if !SupportedLeaf(ft) {
      return Some(UnsupportedType(fullKey, dynRaw));
    }
    var d := FieldDescriptor(fullKey, Trim(f.desc), strategy.value, idxPath, ft);
    out.items := out.items + [d];
    assert out.items[|old(out.items)|..] == [d];
    err := None;
  }

  ghost function After(done: seq<Descriptor>, r: Result<seq<Descriptor>, CatalogError>)
    : Result<seq<Descriptor>, CatalogError>
  {
    match r
    case Err(e) => Err(e)
    case Ok(rest) => Ok(done + rest)
  }

  lemma AfterNothing(r: Result<seq<Descriptor>, CatalogError>)
    ensures After([], r) == r
  {
    if r.Ok? {
      assert [] + r.value == r.value;
    }
  }

  lemma WalkOn(t: GoType, i: nat, indices: seq<nat>, prefix: string, done: seq<Descriptor>)
    requires t.TStruct? && i < |t.fields|
    ensures match WalkField(t, i, indices, prefix)
            case Err(e) => Walk(t, i, indices, prefix) == Err(e)
            case Ok(here) =>
              After(done, Walk(t, i, indices, prefix)) == After(done + here, Walk(t, i + 1, indices, prefix))
    ensures WalkField(t, i, indices, prefix) == Ok([]) ==> done + [] == done
  {
    var here, rest := WalkField(t, i, indices, prefix), Walk(t, i + 1, indices, prefix);
    if here.Ok? && rest.Ok? {
      assert done + (here.value + rest.value) == done + here.value + rest.value;
    }
  }

  lemma ShowsConcat(all: seq<RawDescriptor>, a: seq<RawDescriptor>, da: seq<Descriptor>,
                    b: seq<RawDescriptor>, db: seq<Descriptor>)
    requires all == a + b && Shows(a, da) && Shows(b, db)
    ensures Shows(all, da + db)
  {
  }

  method BuildCatalog(t: GoType) returns (r: Result<seq<RawDescriptor>, CatalogError>)
    ensures match Build(t)
            case Err(e) => r == Err(e)
            case Ok(ds) => r.Ok? && Shows(r.value, ds)
  {
    if !t.TStruct? {
      return Err(NotStruct);
    }
    var out := new DescriptorList();
    var none := new nat[0];
    var err := WalkStruct(t, GoSlice(none, 0), "", out);
    if err.Some? {
      return Err(err.value);
    }
    assert out.items[0..] == out.items;
    r := Ok(out.items);
  }
}
