/** Why the base must have nil nested pointers: a copy of a struct shares what its pointers lead to. */
module SharedPointers {
  import opened Wrappers
  import opened FieldValues
  import opened OverrideApplication

  /** No pointer in memory dangles. */
  ghost predicate Closed(h: seq<Value>) {
    forall place, a: nat :: ReadAt(h, place) == Some(VPointer(Some(a))) ==> a < |h|
  }

  /** A path into a copy of cell `b` ends either in the copy, where the original has the same place of its
    * own, or behind a pointer, and then it ends in the same place as from the original. */
  lemma {:induction false} CopySharesPointers(h: seq<Value>, b: nat, path: seq<nat>)
    requires Closed(h) && b < |h|
    ensures match Resolve(h + [h[b]], |h|, path)
      case None => Resolve(h + [h[b]], b, path) == None
      case Some(p) =>
        if p.cell == |h| then p.fields == path && Resolve(h + [h[b]], b, path) == Some(Place(b, path))
        else p.cell < |h| && Resolve(h + [h[b]], b, path) == Some(p)
    decreases |path|
  {
    if path != [] {
      var init, i := path[..|path| - 1], path[|path| - 1];
      CopySharesPointers(h, b, init);
      assert path == init + [i];
      match Resolve(h + [h[b]], |h|, init)
      case None =>
      case Some(p) =>
        if p.cell == |h| {
          SelectInCopy(h, b, init, i);
        } else {
          SelectBehindPointer(h, h[b], p, i);
        }
    }
  }

  lemma SelectInCopy(h: seq<Value>, b: nat, path: seq<nat>, i: nat)
    requires Closed(h) && b < |h|
    ensures var all := h + [h[b]];
      match Select(all, Place(|h|, path), i)
      case None => Select(all, Place(b, path), i) == None
      case Some(p) =>
        if p.cell == |h| then p.fields == path + [i] && Select(all, Place(b, path), i) == Some(Place(b, path + [i]))
        else p.cell < |h| && Select(all, Place(b, path), i) == Some(p)
  {
    var all := h + [h[b]];
    assert ReadAt(all, Place(|h|, path)) == ReadAt(h, Place(b, path)) == ReadAt(all, Place(b, path));
  }

  lemma SelectBehindPointer(h: seq<Value>, copy: Value, p: Place, i: nat)
    requires Closed(h) && p.cell < |h|
    ensures Select(h + [copy], p, i).Some? ==> Select(h + [copy], p, i).value.cell < |h|
  {
    assert ReadAt(h + [copy], p) == ReadAt(h, p);
  }

  /** A path that leads to a place inside the value meets no pointer. */
  lemma {:induction false} OwnPath(h: seq<Value>, root: nat, path: seq<nat>)
    requires root < |h| && GetField(h[root], path).Some?
    ensures Resolve(h, root, path) == Some(Place(root, path))
    decreases |path|
  {
    if path != [] {
      var init, i := path[..|path| - 1], path[|path| - 1];
      assert path == init + [i];
      GetConcat(h[root], init, [i]);
      OwnPath(h, root, init);
    }
  }

  /** Overwriting a leaf leads no path astray. */
  lemma {:induction false} ResolveAfterWrite(h: seq<Value>, place: Place, x: Leaf, root: nat, path: seq<nat>)
    requires place.cell < |h| && ReadAt(h, place).Some? && ReadAt(h, place).value.VLeaf?
    ensures Resolve(Written(h, place, VLeaf(x)), root, path) == Resolve(h, root, path)
    decreases |path|
  {
    if path != [] {
      var init, i := path[..|path| - 1], path[|path| - 1];
      ResolveAfterWrite(h, place, x, root, init);
      match Resolve(h, root, init)
      case None =>
      case Some(p) => SelectAfterWrite(h, place, x, p, i);
    }
  }

  lemma SelectAfterWrite(h: seq<Value>, place: Place, x: Leaf, p: Place, i: nat)
    requires place.cell < |h| && ReadAt(h, place).Some? && ReadAt(h, place).value.VLeaf?
    ensures Select(Written(h, place, VLeaf(x)), p, i) == Select(h, p, i)
  {
    if p.cell == place.cell {
      GetAfterPut(h[place.cell], place.fields, VLeaf(x), p.fields);
      if place.fields <= p.fields {
        var rest := p.fields[|place.fields|..];
        assert p.fields == place.fields + rest;
        GetConcat(h[place.cell], place.fields, rest);
      }
    }
  }

  /** The exact condition. An override written into a copy of a base leaves everything that existed
    * before alone if and only if its path meets no pointer (or it writes what was there). Through a
    * pointer it changes the base, and with it every later copy. */
  lemma PointersAreWrittenThrough(h: seq<Value>, b: nat, path: seq<nat>, x: Leaf)
    requires Closed(h) && b < |h| && ReadLeaf(h + [h[b]], |h|, path).Some?
    ensures var all := h + [h[b]];
      var place := Resolve(all, |h|, path).value;
      && (place.cell == |h| <==> GetField(h[b], path).Some?)
      && place.cell < |all|
      && var after := Written(all, place, VLeaf(x));
         && ReadLeaf(after, |h|, path) == Some(x)
         && ReadLeaf(after, b, path) == (if GetField(h[b], path).Some? then ReadLeaf(all, b, path) else Some(x))
         && (after[..|h|] == h <==> GetField(h[b], path).Some? || ReadLeaf(all, b, path) == Some(x))
  {
    var all := h + [h[b]];
    var place := Resolve(all, |h|, path).value;
    CopySharesPointers(h, b, path);
    if GetField(h[b], path).Some? {
      OwnPath(all, |h|, path);
    }
    var after := Written(all, place, VLeaf(x));
    ResolveAfterWrite(all, place, x, |h|, path);
    ResolveAfterWrite(all, place, x, b, path);
    GetAfterPut(all[place.cell], place.fields, VLeaf(x), place.fields);
    if place.cell < |h| && ReadLeaf(all, b, path) == Some(x) {
      PutSame(all[place.cell], place.fields, VLeaf(x));
    }
  }

  lemma {:induction false} PutSame(v: Value, path: seq<nat>, x: Value)
    requires GetField(v, path) == Some(x)
    ensures PutField(v, path, x) == v
    decreases |path|
  {
    if path != [] {
      PutSame(v.fields[path[0]], path[1..], x);
    }
  }
}
