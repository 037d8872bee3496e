/** What the tags of a config struct mean, with the tag texts spelled out. */
module TagMeanings {
  import opened Wrappers
  import opened Sequences
  import opened StringLists
  import opened ConfigTypes
  import opened FieldValues
  import opened Catalog
  import opened CatalogProperties

  // ---------------------------------------------------------------------------------------------
  // Fields
  // ---------------------------------------------------------------------------------------------

  /** Blank margins of a dyn tag do not count. */
  lemma TagsAreTrimmed(f: Field, left: string, tag: string, right: string)
    requires f.dyn == left + tag + right && Blank(left) && Blank(right) && Trimmed(tag)
    ensures Dyn(f) == tag
  {
    TrimUnpads(left, tag, right);
  }

  /** Without a name in its json tag a field is keyed by its own name with A-Z made lower case and every
    * other ASCII character as it is. */
  lemma UntaggedNamesAreLowered(f: Field, i: nat)
    requires f.json == "" && i < |f.name|
    ensures |JsonKeyName(f)| == |f.name|
    ensures 'A' <= f.name[i] <= 'Z' ==>
      'a' <= JsonKeyName(f)[i] <= 'z' && JsonKeyName(f)[i] as int - f.name[i] as int == 32
    ensures !('A' <= f.name[i] <= 'Z') ==> JsonKeyName(f)[i] == f.name[i]
  {
  }

  /** A pointer to a struct nests like the struct; time.Time and a pointer to a pointer do not nest. */
  lemma PointersAreLookedThrough(fields: seq<Field>, t: GoType)
    ensures Nests(TStruct(fields)) && Nests(TPointer(TStruct(fields)))
    ensures Deref(TStruct(fields)).fields == Deref(TPointer(TStruct(fields))).fields == fields
    ensures !Nests(TTime) && !Nests(TPointer(TTime)) && !Nests(TPointer(TPointer(t)))
  {
  }

  /** The fields that a path steps through, whatever their tags. */
  function FieldsAlong(t: GoType, path: seq<nat>): (fields: seq<Field>)
    requires ValidPath(t, path)
    ensures |fields| == |path|
  {
    if path == [] then []
    else [Deref(t).fields[path[0]]] + FieldsAlong(Deref(t).fields[path[0]].typ, path[1..])
  }

  /** The walk enters the field, and goes on below it unless it is the last one. */
  ghost predicate Passes(f: Field, last: bool) {
    f.exported && JsonKeyName(f) != "-" && (last || Dyn(f) != "secret")
  }

  ghost predicate AllPass(fields: seq<Field>) {
    forall k :: 0 <= k < |fields| ==> Passes(fields[k], k == |fields| - 1)
  }

  lemma AllPassBelow(f: Field, below: seq<Field>)
    ensures AllPass([f] + below) <==> if below == [] then Passes(f, true) else Passes(f, false) && AllPass(below)
  {
    var all := [f] + below;
    assert all[0] == f;
    if AllPass(all) {
      forall k | 0 <= k < |below|
        ensures Passes(below[k], k == |below| - 1)
      {
        assert Passes(all[k + 1], k + 1 == |all| - 1);
      }
    }
  }

  /** The walk gets to a field exactly if every field on the way, and the field itself, is exported and not
    * named "-", and no struct on the way is tagged secret. */
  lemma {:induction false} ReachableMeans(t: GoType, path: seq<nat>)
    ensures Reachable(t, path) <==> path != [] && ValidPath(t, path) && AllPass(FieldsAlong(t, path))
    ensures Reachable(t, path) ==> FieldAt(t, path) == Some(FieldsAlong(t, path)[|path| - 1])
    decreases |path|
  {
    if path != [] && Nests(t) && path[0] < |Deref(t).fields| {
      var f, rest := Deref(t).fields[path[0]], path[1..];
      if rest != [] {
        ReachableMeans(f.typ, rest);
      }
      if ValidPath(f.typ, rest) {
        AllPassBelow(f, FieldsAlong(f.typ, rest));
      } else {
        assert !Reachable(f.typ, rest);
      }
    }
  }

  /** The walk rejects a field exactly if its dyn tag is none of the five known values nor empty, or if it
    * is a leaf with a dynamic tag into whose type no text could ever be parsed. */
  lemma BadFieldMeans(f: Field)
    ensures BadField(f)
       <==> || Dyn(f) !in ["", "live", "recreate-on-change", "restart-required", "bootstrap", "secret"]
            || (&& !Nests(f.typ) && Dyn(f) in ["live", "recreate-on-change", "restart-required"]
                && forall raw, decoders :: ParseFieldValue(raw, Deref(f.typ), decoders).None?)
  {
    SupportIsExact(Deref(f.typ));
  }

  /** A leaf is managed exactly if the walk gets to it and its tag is one of the three dynamic ones. */
  lemma ManagedMeans(t: GoType, path: seq<nat>)
    ensures Managed(t, path)
       <==> && Reachable(t, path) && !Nests(FieldAt(t, path).value.typ)
            && Dyn(FieldAt(t, path).value) in ["live", "recreate-on-change", "restart-required"]
  {
  }

  // ---------------------------------------------------------------------------------------------
  // Keys and errors
  // ---------------------------------------------------------------------------------------------

  function Names(fields: seq<Field>): seq<string> {
    seq(|fields|, i requires 0 <= i < |fields| => JsonKeyName(fields[i]))
  }

  function Dotted(names: seq<string>): string {
    if names == [] then "" else if |names| == 1 then names[0] else names[0] + "." + Dotted(names[1..])
  }

  /** A key is the key names along its path, joined with dots. (Go's field names are never empty.) */
  lemma {:induction false} KeyIsDotted(prefix: string, t: GoType, path: seq<nat>)
    requires Reachable(t, path) && ValidPath(t, path)
    requires forall k :: 0 <= k < |path| ==> FieldsAlong(t, path)[k].name != ""
    ensures KeyAt(prefix, t, path)
         == (if prefix == "" then "" else prefix + ".") + Dotted(Names(FieldsAlong(t, path)))
    decreases |path|
  {
    var f, rest := Deref(t).fields[path[0]], path[1..];
    var all, name := FieldsAlong(t, path), JsonKeyName(f);
    var below := FieldsAlong(f.typ, rest);
    assert all == [f] + below && all[0] == f;
    NamesSplit(f, below);
    NameIsNotEmpty(f);
    if rest != [] {
      assert forall k :: 0 <= k < |rest| ==> below[k] == all[k + 1];
      KeyIsDotted(FullKey(prefix, name), f.typ, rest);
      JoinedKeys(prefix, name, Dotted(Names(below)));
    }
  }

  lemma NamesSplit(f: Field, below: seq<Field>)
    ensures Names([f] + below) == [JsonKeyName(f)] + Names(below)
    ensures Dotted(Names([f] + below))
         == if below == [] then JsonKeyName(f) else JsonKeyName(f) + "." + Dotted(Names(below))
  {
    assert Names([f] + below)[1..] == Names(below);
  }

  lemma NameIsNotEmpty(f: Field)
    requires f.name != ""
    ensures JsonKeyName(f) != ""
  {
    assert |Lower(f.name)| == |f.name|;
  }

  /** The error that a bad field gives rise to. */
  ghost predicate Reports(e: CatalogError, prefix: string, t: GoType, path: seq<nat>) {
    BadAt(t, path) &&
    var f, key := FieldAt(t, path).value, KeyAt(prefix, t, path);
    if Dyn(f) in ["", "live", "recreate-on-change", "restart-required", "bootstrap", "secret"]
    then e == UnsupportedType(key, Dyn(f))
    else e == UnknownDyn(key, Dyn(f))
  }

  /** Nothing bad comes before the path, among the fields from the i-th on. */
  ghost predicate FirstBad(t: GoType, i: nat, path: seq<nat>) {
    forall q :: BadAt(t, q) && q[0] >= i ==> path <= q || Before(path, q)
  }

  lemma {:induction false} WalkError(t: GoType, i: nat, indices: seq<nat>, prefix: string) returns (path: seq<nat>)
    requires t.TStruct? && Walk(t, i, indices, prefix).Err?
    ensures Reports(Walk(t, i, indices, prefix).error, prefix, t, path) && path[0] >= i && FirstBad(t, i, path)
    decreases t, 1, |t.fields| - i
  {
    if WalkField(t, i, indices, prefix).Err? {
      path := FieldError(t, i, indices, prefix);
    } else {
      path := WalkError(t, i + 1, indices, prefix);
      FieldFailsOnBadFields(t, i, indices, prefix);
    }
  }

  lemma {:induction false} FieldError(t: GoType, i: nat, indices: seq<nat>, prefix: string) returns (path: seq<nat>)
    requires t.TStruct? && i < |t.fields| && WalkField(t, i, indices, prefix).Err?
    ensures Reports(WalkField(t, i, indices, prefix).error, prefix, t, path) && path[0] == i && FirstBad(t, i, path)
    decreases t, 0, |t.fields| - i
  {
    var f := t.fields[i];
    if BadField(f) {
      path := [i];
      assert FieldAt(t, path) == Some(f);
      assert forall q :: BadAt(t, q) && q[0] == i ==> path <= q;
    } else {
      var ft, key := Deref(f.typ), FullKey(prefix, JsonKeyName(f));
      var rest := WalkError(ft, 0, indices + [i], key);
      path := [i] + rest;
      assert path[1..] == rest;
      FieldAtDeref(f.typ, rest);
      KeyAtDeref(key, f.typ, rest);
      forall q | BadAt(t, q) && q[0] >= i
        ensures path <= q || Before(path, q)
      {
        if q[0] == i {
          BadBelow(t, i, q);
          assert q == [i] + q[1..];
        }
      }
    }
  }

  lemma BadBelow(t: GoType, i: nat, q: seq<nat>)
    requires t.TStruct? && i < |t.fields| && BadAt(t, q) && q[0] == i && !BadField(t.fields[i])
    ensures |q| > 1 && BadAt(Deref(t.fields[i].typ), q[1..])
  {
    FieldAtDeref(t.fields[i].typ, q[1..]);
  }

  /** When building the catalog fails, the error names the first bad field in index-path order, by its key
    * and its tag, and says which of the two things is wrong with it. */
  lemma BuildReportsTheFirstBadField(t: GoType) returns (path: seq<nat>)
    requires Build(t).Err?
    ensures !t.TStruct? <==> Build(t) == Err(NotStruct)
    ensures t.TStruct? ==> Reports(Build(t).error, "", t, path) && FirstBad(t, 0, path)
  {
    path := [];
    if t.TStruct? {
      path := WalkError(t, 0, [], "");
    }
  }

  // ---------------------------------------------------------------------------------------------
  // Descriptors
  // ---------------------------------------------------------------------------------------------

  /** Each descriptor of the catalog says what the tags of its field say: the strategy is that of the dyn
    * tag, the description the trimmed desc tag, the type the field's own without its pointer. */
  lemma DescriptorsFollowTheTags(t: GoType, k: nat)
    requires t.TStruct? && Build(t).Ok? && k < |Build(t).value|
    ensures var d := Build(t).value[k];
      && Managed(t, d.fieldIndices) && d.key == KeyAt("", t, d.fieldIndices)
      && var f := FieldAt(t, d.fieldIndices).value;
         && (d.strategy == Live <==> Dyn(f) == "live")
         && (d.strategy == Recreate <==> Dyn(f) == "recreate-on-change")
         && (d.strategy == Restart <==> Dyn(f) == "restart-required")
         && d.description == Trim(f.desc) && (f.typ == d.fieldType || f.typ == TPointer(d.fieldType))
  {
    CatalogIsExact(t);
  }

  ghost predicate HasKey(t: GoType, path: seq<nat>, key: string) {
    Managed(t, path) && KeyAt("", t, path) == key
  }

  ghost predicate IsLast(t: GoType, path: seq<nat>, key: string) {
    HasKey(t, path, key) && forall q :: HasKey(t, q, key) ==> q == path || Before(q, path)
  }

  lemma OneLast(t: GoType, a: seq<nat>, b: seq<nat>, key: string)
    requires IsLast(t, a, key) && IsLast(t, b, key)
    ensures a == b
  {
    if a != b {
      BeforeIsAsymmetric(a, b);
    }
  }

  lemma DescriptorWithKey(t: GoType, path: seq<nat>, key: string) returns (i: nat)
    requires t.TStruct? && Build(t).Ok? && HasKey(t, path, key)
    ensures i < |Build(t).value| && Build(t).value[i].fieldIndices == path && Build(t).value[i].key == key
  {
    CatalogIsExact(t);
    var ds := Build(t).value;
    assert DescriptorAt([], "", t, path) in ds;
    i :| 0 <= i < |ds| && ds[i] == DescriptorAt([], "", t, path);
    assert [] + path == path;
  }

  /** The table finds a key exactly if a managed leaf has it, and then the last one that has it. */
  lemma TableFindsTheLast(t: GoType, key: string)
    requires t.TStruct? && Build(t).Ok?
    ensures key in ByKey(Build(t).value) ==>
      && ByKey(Build(t).value)[key] < |Build(t).value|
      && IsLast(t, Build(t).value[ByKey(Build(t).value)[key]].fieldIndices, key)
    ensures key !in ByKey(Build(t).value) ==> forall path :: !HasKey(t, path, key)
  {
    var ds := Build(t).value;
    CatalogIsExact(t);
    ByKeyFinds(ds);
    forall path | HasKey(t, path, key)
      ensures key in ByKey(ds) && (path == ds[ByKey(ds)[key]].fieldIndices ||
                                   Before(path, ds[ByKey(ds)[key]].fieldIndices))
    {
      var i := DescriptorWithKey(t, path, key);
    }
  }

  /** Whether changes of a key are passed to subscribers, for any names: exactly if some managed leaf has
    * the key, and the last one that has it, in index-path order, is tagged recreate-on-change. */
  lemma RecreatesFollowsTheLastTag(t: GoType, key: string)
    requires t.TStruct? && Build(t).Ok?
    ensures RecreatesKey(Build(t).value, ByKey(Build(t).value), key)
       <==> exists path :: IsLast(t, path, key) && Dyn(FieldAt(t, path).value) == "recreate-on-change"
  {
    var ds := Build(t).value;
    TableFindsTheLast(t, key);
    if key in ByKey(ds) {
      var j := ByKey(ds)[key];
      DescriptorsFollowTheTags(t, j);
      forall path | IsLast(t, path, key)
        ensures path == ds[j].fieldIndices
      {
        OneLast(t, path, ds[j].fieldIndices, key);
      }
    }
  }

  lemma {:induction false} BeforeIsAsymmetric(a: seq<nat>, b: seq<nat>)
    requires Before(a, b)
    ensures !Before(b, a)
  {
    if a[0] == b[0] {
      BeforeIsAsymmetric(a[1..], b[1..]);
    }
  }

  /** With distinct, dot-free names the table finds for the key of every managed leaf the strategy of that
    * leaf's own tag, so a change of the key is passed to subscribers exactly if the tag is
    * recreate-on-change; a change of any other key never is. */
  lemma TableFollowsTheTags(t: GoType, path: seq<nat>)
    requires t.TStruct? && DistinctNames(t) && Build(t).Ok? && Managed(t, path)
    ensures var ds, key, tag := Build(t).value, KeyAt("", t, path), Dyn(FieldAt(t, path).value);
      && key in ByKey(ds) && ByKey(ds)[key] < |ds|
      && (ds[ByKey(ds)[key]].strategy == Live <==> tag == "live")
      && (ds[ByKey(ds)[key]].strategy == Recreate <==> tag == "recreate-on-change")
      && (ds[ByKey(ds)[key]].strategy == Restart <==> tag == "restart-required")
      && (RecreatesKey(ds, ByKey(ds), key) <==> tag == "recreate-on-change")
  {
    var ds := Build(t).value;
    CatalogIsExact(t);
    var i :| 0 <= i < |ds| && ds[i] == DescriptorAt([], "", t, path);
    assert ds[i].fieldIndices == path;
    TableInvertsCatalog(t, i);
    DescriptorsFollowTheTags(t, i);
  }

  lemma OtherKeysAreNeverFannedOut(t: GoType, key: string)
    requires t.TStruct? && Build(t).Ok? && forall path :: !HasKey(t, path, key)
    ensures !RecreatesKey(Build(t).value, ByKey(Build(t).value), key)
  {
    RecreatesFollowsTheLastTag(t, key);
  }
}
