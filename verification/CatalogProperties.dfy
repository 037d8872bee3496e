/** What the catalog contains, said without the walk: by paths through the type. */
module CatalogProperties {
  import opened ConfigTypes
  import opened Catalog

  // ---------------------------------------------------------------------------------------------
  // When the walk fails
  // ---------------------------------------------------------------------------------------------

  /** A reachable bad field among the fields from the i-th on. */
  ghost predicate BadFrom(t: GoType, i: nat)
    requires t.TStruct?
  {
    exists path :: BadAt(t, path) && path[0] >= i
  }

  ghost predicate BadAt(t: GoType, path: seq<nat>) {
    Reachable(t, path) && BadField(FieldAt(t, path).value)
  }

  /** The walk from the i-th field on fails exactly when one of those fields is bad or leads
    * to a bad one. */
  lemma {:induction false} WalkFailsOnBadFields(t: GoType, i: nat, indices: seq<nat>, prefix: string)
    requires t.TStruct?
    ensures Walk(t, i, indices, prefix).Err? <==> BadFrom(t, i)
    decreases t, 1, |t.fields| - i
  {
    if i >= |t.fields| {
      assert forall path :: Reachable(t, path) ==> path[0] < |t.fields|;
    } else {
      FieldFailsOnBadFields(t, i, indices, prefix);
      WalkFailsOnBadFields(t, i + 1, indices, prefix);
      if BadFrom(t, i) {
        var path :| BadAt(t, path) && path[0] >= i;
        assert path[0] == i || path[0] >= i + 1;
      }
    }
  }

  lemma {:induction false} FieldFailsOnBadFields(t: GoType, i: nat, indices: seq<nat>, prefix: string)
    requires t.TStruct? && i < |t.fields|
    ensures WalkField(t, i, indices, prefix).Err? <==> exists path :: BadAt(t, path) && path[0] == i
    decreases t, 0, |t.fields| - i
  {
    var f := t.fields[i];
    if Visible(f) {
      if Descends(f) {
        WalkFailsOnBadFields(Deref(f.typ), 0, indices + [i], FullKey(prefix, JsonKeyName(f)));
      }
      BadAtField(t, i);
    }
  }

  /** What the walk can reach through a visible field is bad if the field is, or something below it. */
  lemma BadAtField(t: GoType, i: nat)
    requires t.TStruct? && i < |t.fields| && Visible(t.fields[i])
    ensures (exists path :: BadAt(t, path) && path[0] == i)
       <==> BadField(t.fields[i]) || (Descends(t.fields[i]) && BadFrom(Deref(t.fields[i].typ), 0))
  {
    var f, ft := t.fields[i], Deref(t.fields[i].typ);
    if BadField(f) {
      assert BadAt(t, [i]);
    }
    if Descends(f) && BadFrom(ft, 0) {
      var rest :| BadAt(ft, rest) && rest[0] >= 0;
      assert ([i] + rest)[1..] == rest;
      FieldAtDeref(f.typ, rest);
      assert BadAt(t, [i] + rest);
    }
    forall path | BadAt(t, path) && path[0] == i
      ensures BadField(f) || (Descends(f) && BadFrom(ft, 0))
    {
      if |path| == 1 {
        assert path == [i];
      } else {
        FieldAtDeref(f.typ, path[1..]);
        assert BadAt(ft, path[1..]);
      }
    }
  }

  lemma FieldAtDeref(t: GoType, path: seq<nat>)
    requires path != [] && Nests(t)
    ensures FieldAt(t, path) == FieldAt(Deref(t), path)
  {
  }

  // ---------------------------------------------------------------------------------------------
  // What it lists
  // ---------------------------------------------------------------------------------------------

  /** At the first index where two paths differ, the first is smaller; neither is a prefix
    * of the other. */
  ghost predicate Before(a: seq<nat>, b: seq<nat>) {
    a != [] && b != [] && (a[0] < b[0] || (a[0] == b[0] && Before(a[1..], b[1..])))
  }

  /** `d` describes the dynamic leaf that its own index path leads to, below `indices`. */
  ghost predicate Describes(d: Descriptor, indices: seq<nat>, prefix: string, t: GoType) {
    && indices <= d.fieldIndices
    && Managed(t, d.fieldIndices[|indices|..])
    && d == DescriptorAt(indices, prefix, t, d.fieldIndices[|indices|..])
  }

  ghost predicate Ordered(ds: seq<Descriptor>) {
    forall j, k :: 0 <= j < k < |ds| ==> Before(ds[j].fieldIndices, ds[k].fieldIndices)
  }

  /** The descriptors for the managed leaves whose first index is in a range, in order. */
  ghost predicate Lists(ds: seq<Descriptor>, t: GoType, lo: nat, hi: nat, indices: seq<nat>, prefix: string) {
    && (forall k :: 0 <= k < |ds| ==>
          && Describes(ds[k], indices, prefix, t)
          && lo <= ds[k].fieldIndices[|indices|] < hi)
    && (forall path :: Managed(t, path) && lo <= path[0] < hi ==> DescriptorAt(indices, prefix, t, path) in ds)
    && Ordered(ds)
  }

  lemma {:induction false} BeforeBelow(indices: seq<nat>, a: seq<nat>, b: seq<nat>)
    requires Before(a, b)
    ensures Before(indices + a, indices + b)
  {
    if indices == [] {
      assert indices + a == a && indices + b == b;
    } else {
      assert (indices + a)[1..] == indices[1..] + a && (indices + b)[1..] == indices[1..] + b;
      BeforeBelow(indices[1..], a, b);
    }
  }

  lemma BranchesBefore(indices: seq<nat>, x: seq<nat>, y: seq<nat>)
    requires indices < x && indices < y && x[|indices|] < y[|indices|]
    ensures Before(x, y)
  {
    var a, b := x[|indices|..], y[|indices|..];
    BeforeBelow(indices, a, b);
    assert x == indices + a && y == indices + b;
  }

  lemma {:induction false} WalkLists(t: GoType, i: nat, indices: seq<nat>, prefix: string)
    requires t.TStruct? && i <= |t.fields| && Walk(t, i, indices, prefix).Ok?
    ensures Lists(Walk(t, i, indices, prefix).value, t, i, |t.fields|, indices, prefix)
    decreases t, 1, |t.fields| - i
  {
    if i < |t.fields| {
      FieldLists(t, i, indices, prefix);
      WalkLists(t, i + 1, indices, prefix);
      ListsAppend(WalkField(t, i, indices, prefix).value, Walk(t, i + 1, indices, prefix).value, t, i, indices, prefix);
    }
  }

  lemma ListsAppend(here: seq<Descriptor>, rest: seq<Descriptor>, t: GoType, i: nat, indices: seq<nat>, prefix: string)
    requires t.TStruct? && i < |t.fields|
    requires Lists(here, t, i, i + 1, indices, prefix) && Lists(rest, t, i + 1, |t.fields|, indices, prefix)
    ensures Lists(here + rest, t, i, |t.fields|, indices, prefix)
  {
    forall j, k | 0 <= j < |here| && 0 <= k < |rest|
      ensures Before(here[j].fieldIndices, rest[k].fieldIndices)
    {
      BranchesBefore(indices, here[j].fieldIndices, rest[k].fieldIndices);
    }
  }

  lemma {:induction false} FieldLists(t: GoType, i: nat, indices: seq<nat>, prefix: string)
    requires t.TStruct? && i < |t.fields| && WalkField(t, i, indices, prefix).Ok?
    ensures Lists(WalkField(t, i, indices, prefix).value, t, i, i + 1, indices, prefix)
    decreases t, 0, |t.fields| - i
  {
    var f := t.fields[i];
    if Visible(f) && Nests(f.typ) && Descends(f) {
      var key := FullKey(prefix, JsonKeyName(f));
      WalkLists(Deref(f.typ), 0, indices + [i], key);
      NestedLists(WalkField(t, i, indices, prefix).value, t, i, indices, prefix);
    } else {
      LeafLists(t, i, indices, prefix);
    }
  }

  /** The list for a nested struct, walked with its own key as prefix, is the list for its field. */
  lemma NestedLists(ds: seq<Descriptor>, t: GoType, i: nat, indices: seq<nat>, prefix: string)
    requires t.TStruct? && i < |t.fields| && Visible(t.fields[i]) && Descends(t.fields[i])
    requires var f, ft := t.fields[i], Deref(t.fields[i].typ);
      Lists(ds, ft, 0, |ft.fields|, indices + [i], FullKey(prefix, JsonKeyName(f)))
    ensures Lists(ds, t, i, i + 1, indices, prefix)
  {
    var f, ft := t.fields[i], Deref(t.fields[i].typ);
    var key := FullKey(prefix, JsonKeyName(f));
    forall k | 0 <= k < |ds|
      ensures Describes(ds[k], indices, prefix, t) && ds[k].fieldIndices[|indices|] == i
    {
      NestedDescribes(ds[k], t, i, indices, prefix);
    }
    forall path | Managed(t, path) && path[0] == i
      ensures DescriptorAt(indices, prefix, t, path) in ds
    {
      NestedDescriptor(t, path, indices, prefix);
      assert DescriptorAt(indices + [i], key, ft, path[1..]) in ds;
    }
  }

  lemma PathGoesOn(t: GoType, path: seq<nat>, prefix: string)
    requires t.TStruct? && Managed(t, path) && Descends(t.fields[path[0]])
    ensures |path| > 1
    ensures var f := t.fields[path[0]];
      && FieldAt(t, path) == FieldAt(f.typ, path[1..])
      && KeyAt(prefix, t, path) == KeyAt(FullKey(prefix, JsonKeyName(f)), f.typ, path[1..])
  {
  }

  lemma NestedDescriptor(t: GoType, path: seq<nat>, indices: seq<nat>, prefix: string)
    requires t.TStruct? && Managed(t, path)
    requires Descends(t.fields[path[0]])
    ensures var f := t.fields[path[0]];
      && Managed(Deref(f.typ), path[1..])
      && DescriptorAt(indices + [path[0]], FullKey(prefix, JsonKeyName(f)), Deref(f.typ), path[1..])
         == DescriptorAt(indices, prefix, t, path)
  {
    var f, rest := t.fields[path[0]], path[1..];
    PathGoesOn(t, path, prefix);
    FieldAtDeref(f.typ, rest);
    assert indices + path == indices + [path[0]] + rest;
    KeyAtDeref(FullKey(prefix, JsonKeyName(f)), f.typ, rest);
  }

  lemma LeafLists(t: GoType, i: nat, indices: seq<nat>, prefix: string)
    requires t.TStruct? && i < |t.fields| && WalkField(t, i, indices, prefix).Ok?
    requires !(Visible(t.fields[i]) && Descends(t.fields[i]))
    ensures Lists(WalkField(t, i, indices, prefix).value, t, i, i + 1, indices, prefix)
  {
    var ds := WalkField(t, i, indices, prefix).value;
    forall path | Managed(t, path) && path[0] == i
      ensures path == [i] && DescriptorAt(indices, prefix, t, path) in ds
    {
    }
    if ds != [] {
      assert ds[0].fieldIndices[|indices|..] == [i];
      assert Managed(t, [i]);
    }
  }

  lemma KeyAtDeref(prefix: string, t: GoType, path: seq<nat>)
    requires path != [] && Nests(t) && FieldAt(t, path).Some?
    ensures FieldAt(Deref(t), path).Some? && KeyAt(prefix, t, path) == KeyAt(prefix, Deref(t), path)
  {
  }

  lemma PathBelow(indices: seq<nat>, i: nat, full: seq<nat>)
    requires indices + [i] <= full
    ensures indices <= full && indices + full[|indices|..] == full
    ensures full[|indices|..] == [i] + full[|indices + [i]|..]
  {
  }

  lemma NestedDescribes(d: Descriptor, t: GoType, i: nat, indices: seq<nat>, prefix: string)
    requires t.TStruct? && i < |t.fields| && Visible(t.fields[i]) && Descends(t.fields[i])
    requires Describes(d, indices + [i], FullKey(prefix, JsonKeyName(t.fields[i])), Deref(t.fields[i].typ))
    ensures Describes(d, indices, prefix, t) && d.fieldIndices[|indices|] == i
  {
    PathBelow(indices, i, d.fieldIndices);
    var rest, path := d.fieldIndices[|indices + [i]|..], d.fieldIndices[|indices|..];
    assert path[0] == i && path[1..] == rest;
    FieldAtDeref(t.fields[i].typ, rest);
    assert Managed(t, path);
    NestedDescriptor(t, path, indices, prefix);
  }

  /** The catalog of a struct type: building it fails exactly when the walk can reach a field with
    * an unknown tag value or a dynamic leaf of unsupported type. Otherwise it describes exactly the
    * reachable dynamic leaves, each once and in index-path order, no path being a prefix of another. */
  lemma CatalogIsExact(t: GoType)
    requires t.TStruct?
    ensures Build(t).Err? <==> exists path :: BadAt(t, path)
    ensures Build(t).Ok? ==>
      && (forall k :: 0 <= k < |Build(t).value| ==>
            Managed(t, Build(t).value[k].fieldIndices) &&
            Build(t).value[k] == DescriptorAt([], "", t, Build(t).value[k].fieldIndices))
      && (forall path :: Managed(t, path) ==> DescriptorAt([], "", t, path) in Build(t).value)
      && Ordered(Build(t).value)
    ensures Build(t).Ok? ==> forall j, k :: 0 <= j < |Build(t).value| && 0 <= k < |Build(t).value| && j != k ==>
      !(Build(t).value[j].fieldIndices <= Build(t).value[k].fieldIndices)
  {
    WalkFailsOnBadFields(t, 0, [], "");
    if Build(t).Ok? {
      var ds := Build(t).value;
      WalkLists(t, 0, [], "");
      forall k | 0 <= k < |ds|
        ensures ds[k].fieldIndices[0..] == ds[k].fieldIndices
      {
      }
      forall j, k | 0 <= j < |ds| && 0 <= k < |ds| && j != k
        ensures !(ds[j].fieldIndices <= ds[k].fieldIndices)
      {
        if j < k {
          BeforeIsNotPrefix(ds[j].fieldIndices, ds[k].fieldIndices);
        } else {
          BeforeIsNotPrefix(ds[k].fieldIndices, ds[j].fieldIndices);
        }
      }
    }
  }

  lemma {:induction false} BeforeIsNotPrefix(a: seq<nat>, b: seq<nat>)
    requires Before(a, b)
    ensures !(a <= b) && !(b <= a)
  {
    if a[0] == b[0] {
      var c, d := a[1..], b[1..];
      BeforeIsNotPrefix(c, d);
      assert a <= b ==> c <= d;
      assert b <= a ==> d <= c;
    }
  }

  // ---------------------------------------------------------------------------------------------
  // Keys
  // ---------------------------------------------------------------------------------------------

  predicate DotFree(s: string) {
    forall i :: 0 <= i < |s| ==> s[i] != '.'
  }

  /** In every struct the walk enters, the visible fields have distinct, dot-free, non-empty key names. */
  predicate DistinctNames(t: GoType) {
    Nests(t) ==>
      var fs := Deref(t).fields;
      && (forall i :: 0 <= i < |fs| && Visible(fs[i]) ==> JsonKeyName(fs[i]) != "" && DotFree(JsonKeyName(fs[i])))
      && (forall i, j :: 0 <= i < j < |fs| && Visible(fs[i]) && Visible(fs[j]) ==>
            JsonKeyName(fs[i]) != JsonKeyName(fs[j]))
      && (forall i :: 0 <= i < |fs| && Visible(fs[i]) && Descends(fs[i]) ==> DistinctNames(fs[i].typ))
  }

  /** What follows a path's first key name in its key: nothing, or a dot and the rest. */
  function KeyTail(t: GoType, path: seq<nat>): string
    requires path != [] && FieldAt(t, path).Some?
  {
    if |path| == 1 then "" else "." + KeyAt("", Deref(t).fields[path[0]].typ, path[1..])
  }

  /** Stepping along a path keeps the names distinct. */
  lemma NamesBelow(t: GoType, path: seq<nat>)
    requires path != [] && FieldAt(t, path).Some? && DistinctNames(t)
    ensures var f := Deref(t).fields[path[0]];
      JsonKeyName(f) != "" && DotFree(JsonKeyName(f)) && (|path| > 1 ==> DistinctNames(f.typ))
  {
  }

  lemma SameNameSameField(t: GoType, p: seq<nat>, q: seq<nat>)
    requires p != [] && FieldAt(t, p).Some? && q != [] && FieldAt(t, q).Some? && DistinctNames(t)
    requires JsonKeyName(Deref(t).fields[p[0]]) == JsonKeyName(Deref(t).fields[q[0]])
    ensures p[0] == q[0]
  {
  }

  lemma JoinedKeys(prefix: string, name: string, tail: string)
    ensures (prefix + "." + name) + "." + tail == prefix + "." + (name + "." + tail)
  {
  }

  lemma {:induction false} KeyBelowPrefix(prefix: string, t: GoType, path: seq<nat>)
    requires path != [] && FieldAt(t, path).Some? && prefix != "" && DistinctNames(t)
    ensures KeyAt(prefix, t, path) == prefix + "." + KeyAt("", t, path)
    decreases |path|
  {
    NamesBelow(t, path);
    var f := Deref(t).fields[path[0]];
    var name := JsonKeyName(f);
    if |path| > 1 {
      var rest := path[1..];
      var tail := KeyAt("", f.typ, rest);
      KeyBelowPrefix(prefix + "." + name, f.typ, rest);
      KeyBelowPrefix(name, f.typ, rest);
      JoinedKeys(prefix, name, tail);
    }
  }

  lemma FirstSegment(a: string, b: string, x: string, y: string)
    requires DotFree(a) && DotFree(b)
    requires x == "" || x[0] == '.'
    requires y == "" || y[0] == '.'
    requires a + x == b + y
    ensures a == b && x == y
  {
    var s := a + x;
    assert forall i :: 0 <= i < |a| ==> s[i] == a[i];
    assert forall i :: 0 <= i < |b| ==> s[i] == b[i];
    assert |a| < |s| ==> s[|a|] == '.';
    assert |b| < |s| ==> s[|b|] == '.';
    assert a == (a + x)[..|a|] && b == (b + y)[..|b|];
    assert x == (a + x)[|a|..] && y == (b + y)[|b|..];
  }

  /** With distinct, dot-free names, a key names one field: no two paths have the same key. */
  lemma {:induction false} KeysAreInjective(t: GoType, p: seq<nat>, q: seq<nat>)
    requires DistinctNames(t) && Reachable(t, p) && Reachable(t, q)
    requires KeyAt("", t, p) == KeyAt("", t, q)
    ensures p == q
    decreases |p|
  {
    var f, g := Deref(t).fields[p[0]], Deref(t).fields[q[0]];
    KeySplits(t, p);
    KeySplits(t, q);
    NamesBelow(t, p);
    NamesBelow(t, q);
    FirstSegment(JsonKeyName(f), JsonKeyName(g), KeyTail(t, p), KeyTail(t, q));
    SameNameSameField(t, p, q);
    if |p| > 1 && |q| > 1 {
      assert KeyTail(t, p)[1..] == KeyAt("", f.typ, p[1..]);
      assert KeyTail(t, q)[1..] == KeyAt("", g.typ, q[1..]);
      KeysAreInjective(f.typ, p[1..], q[1..]);
    }
    assert p == [p[0]] + p[1..] && q == [q[0]] + q[1..];
  }

  lemma JoinedTail(name: string, tail: string)
    ensures name + "." + tail == name + ("." + tail)
  {
  }

  lemma KeySplits(t: GoType, path: seq<nat>)
    requires path != [] && FieldAt(t, path).Some? && DistinctNames(t)
    ensures KeyAt("", t, path) == JsonKeyName(Deref(t).fields[path[0]]) + KeyTail(t, path)
  {
    var f := Deref(t).fields[path[0]];
    NamesBelow(t, path);
    if |path| > 1 {
      var name, tail := JsonKeyName(f), KeyAt("", f.typ, path[1..]);
      KeyBelowPrefix(name, f.typ, path[1..]);
      JoinedTail(name, tail);
    }
  }

  /** The lookup table by key, as New fills it: the last descriptor with a key wins. */
  function ByKey<P>(catalog: seq<FieldDescriptor<P>>): map<string, nat> {
    if catalog == [] then map[]
    else ByKey(catalog[..|catalog| - 1])[catalog[|catalog| - 1].key := |catalog| - 1]
  }

  /** Whether a change of the key is passed to subscribers, by the strategy the table finds for it. */
  predicate RecreatesKey<P>(catalog: seq<FieldDescriptor<P>>, byKey: map<string, nat>, key: string) {
    key in byKey && byKey[key] < |catalog| && catalog[byKey[key]].strategy == Recreate
  }

  method IndexByKey<P>(catalog: seq<FieldDescriptor<P>>) returns (byKey: map<string, nat>)
    ensures byKey == ByKey(catalog)
  {
    byKey := map[];
    for i := 0 to |catalog|
      invariant byKey == ByKey(catalog[..i])
    {
      assert catalog[..i + 1][..i] == catalog[..i];
      byKey := byKey[catalog[i].key := i];
    }
    assert catalog[..|catalog|] == catalog;
  }

  lemma {:induction false} ByKeyFinds<P>(catalog: seq<FieldDescriptor<P>>)
    ensures forall key :: key in ByKey(catalog) ==>
      ByKey(catalog)[key] < |catalog| && catalog[ByKey(catalog)[key]].key == key
    ensures forall i :: 0 <= i < |catalog| ==>
      catalog[i].key in ByKey(catalog) && i <= ByKey(catalog)[catalog[i].key]
  {
    if catalog != [] {
      ByKeyFinds(catalog[..|catalog| - 1]);
    }
  }

  /** With distinct, dot-free names the table is the exact inverse of the catalog: looking up the
    * key of any managed leaf gives that leaf's own descriptor, and with it its own strategy. */
  lemma TableInvertsCatalog(t: GoType, i: nat)
    requires t.TStruct? && DistinctNames(t) && Build(t).Ok? && i < |Build(t).value|
    ensures Build(t).value[i].key in ByKey(Build(t).value)
    ensures ByKey(Build(t).value)[Build(t).value[i].key] == i
  {
    var ds := Build(t).value;
    CatalogIsExact(t);
    ByKeyFinds(ds);
    var j := ByKey(ds)[ds[i].key];
    KeysAreInjective(t, ds[i].fieldIndices, ds[j].fieldIndices);
  }
}
