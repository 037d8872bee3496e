/** What each kind of leaf reads as in a snapshot, with the decoded values spelled out. */
module LeafReadings {
  import opened Wrappers
  import opened StoreTypes
  import opened StringLists
  import opened ConfigTypes
  import opened FieldValues
  import opened Catalog
  import opened CatalogProperties
  import opened OverrideApplication
  import opened Snapshots

  /** Go's zero values. */
  lemma ZeroLeaves(t: GoType)
    ensures t.TString? ==> ZeroLeaf(t) == LString("")
    ensures t.TBool? ==> ZeroLeaf(t) == LBool(false)
    ensures t.TInt? ==> ZeroLeaf(t) == LInt(0)
    ensures t.TUint? ==> ZeroLeaf(t) == LUint(0)
    ensures t.TFloat? ==> ZeroLeaf(t) == LFloat(0.0)
    ensures t.TDuration? ==> ZeroLeaf(t) == LDuration(0)
    ensures t == TSlice(TString) ==> ZeroLeaf(t) == LStrings([])
    ensures SupportedLeaf(t) ==> LeafFits(ZeroLeaf(t), t)
  {
  }

  /** What the leaf reads as when no override is set on it: the base leaf; behind a pointer the zero value
    * if some other override opened the pointer, and nothing otherwise. */
  ghost function Unset(t: GoType, base: Value, overrides: Overrides, decoders: Decoders, path: seq<nat>): Option<Leaf>
    requires ValidPath(t, path)
  {
    if Anchor(t, path) == [] then
      (match GetField(base, path) case Some(VLeaf(x)) => Some(x) case _ => None)
    else if OverriddenBelow(t, overrides, decoders, Anchor(t, path)) then Some(ZeroLeaf(TypeAt(t, path)))
    else None
  }

  lemma UnsetReads(t: GoType, base: Value, overrides: Overrides, decoders: Decoders, path: seq<nat>)
    requires Supported(t) && BaseFits(t, base) && ValidPath(t, path) && !Nests(TypeAt(t, path))
    requires OverrideOf(t, overrides, decoders, path).None?
    ensures JobFor(t, base, overrides, decoders).Expected(path) == Unset(t, base, overrides, decoders, path)
    ensures Anchor(t, path) == [] ==> Unset(t, base, overrides, decoders, path).Some?
  {
    LeafwiseMeaning(t, base, overrides, decoders, path);
    if Anchor(t, path) == [] {
      BaseHasShape(t, base, path);
    }
  }

  /** How a managed leaf with a stored override reads, kind by kind: a string leaf as the stored text, any
    * other as what its decoder makes of the text, and as if nothing was stored exactly if the decoder
    * rejects it. */
  lemma OverriddenLeafReads(t: GoType, base: Value, overrides: Overrides, decoders: Decoders, path: seq<nat>)
    requires Supported(t) && BaseFits(t, base) && Managed(t, path) && KeyAt("", t, path) in overrides
    ensures ValidPath(t, path) && !Nests(TypeAt(t, path))
    ensures var raw, leaf := overrides[KeyAt("", t, path)], TypeAt(t, path);
      var got := JobFor(t, base, overrides, decoders).Expected(path);
      var unset := Unset(t, base, overrides, decoders, path);
      && (leaf.TString? ==> got == Some(LString(raw)))
      && (leaf.TBool? ==>
            got == match decoders.bool_(raw) case Some(b) => Some(LBool(b)) case None => unset)
      && (leaf.TDuration? ==>
            got == match decoders.duration(raw) case Some(d) => Some(LDuration(d)) case None => unset)
      && (leaf.TFloat? ==>
            got == match decoders.float(leaf.bits, raw) case Some(x) => Some(LFloat(x)) case None => unset)
  {
    ManagedIsLeaf(t, path);
    LeafwiseMeaning(t, base, overrides, decoders, path);
    if OverrideOf(t, overrides, decoders, path).None? {
      UnsetReads(t, base, overrides, decoders, path);
    }
  }

  /** The text writes the list with commas, blank margins and blank pieces. */
  ghost predicate IsWrittenAs(items: seq<string>, raw: string) {
    exists pieces :: Writes(pieces, items) && raw == Join(pieces)
  }

  /** Numbers and lists: an integer reads as the number its decoder reads if the type can hold it, and
    * otherwise as the one number of the type that agrees with it in the low bits; a list as decoded from
    * JSON, or as the plain items that the text writes. */
  lemma OverriddenNumbersAndListsRead(t: GoType, base: Value, overrides: Overrides, decoders: Decoders,
                                      path: seq<nat>, items: seq<string>)
    requires Supported(t) && BaseFits(t, base) && Managed(t, path) && KeyAt("", t, path) in overrides
    ensures ValidPath(t, path) && !Nests(TypeAt(t, path))
    ensures var raw, leaf := overrides[KeyAt("", t, path)], TypeAt(t, path);
      var got := JobFor(t, base, overrides, decoders).Expected(path);
      var unset := Unset(t, base, overrides, decoders, path);
      && (leaf.TInt? && 0 < leaf.bits && decoders.int_(raw).Some? ==>
            got.Some? && got.value.LInt? && InSigned(got.value.n, leaf.bits) &&
            SameLowBits(got.value.n, decoders.int_(raw).value, leaf.bits))
      && (leaf.TInt? && decoders.int_(raw).None? ==> got == unset)
      && (leaf.TUint? && decoders.uint(raw).Some? ==>
            got.Some? && got.value.LUint? && got.value.u < Pow2(leaf.bits) &&
            SameLowBits(got.value.u, decoders.uint(raw).value, leaf.bits))
      && (leaf.TUint? && decoders.uint(raw).None? ==> got == unset)
      && (leaf.TSlice? && IsJson(raw) ==>
            got == match decoders.json(Trim(raw)) case Some(parts) => Some(LStrings(parts)) case None => unset)
      && (leaf.TSlice? && !IsJson(raw) && AllPlain(items) && IsWrittenAs(items, raw) ==> got == Some(LStrings(items)))
  {
    ManagedIsLeaf(t, path);
    LeafwiseMeaning(t, base, overrides, decoders, path);
    var raw, leaf := overrides[KeyAt("", t, path)], TypeAt(t, path);
    if OverrideOf(t, overrides, decoders, path).None? {
      UnsetReads(t, base, overrides, decoders, path);
    }
    if leaf.TInt? && 0 < leaf.bits && decoders.int_(raw).Some? {
      WrappedAgrees(decoders.int_(raw).value, leaf.bits);
    }
    if leaf.TUint? && decoders.uint(raw).Some? {
      WrappedUnsignedAgrees(decoders.uint(raw).value, leaf.bits);
    }
    if leaf.TSlice? && !IsJson(raw) && AllPlain(items) && IsWrittenAs(items, raw) {
      var pieces :| Writes(pieces, items) && raw == Join(pieces);
      CommaListRoundTrip(pieces, items, decoders.json);
    }
  }

  lemma ManagedIsLeaf(t: GoType, path: seq<nat>)
    requires Supported(t) && Managed(t, path)
    ensures ValidPath(t, path) && !Nests(TypeAt(t, path))
    ensures TypeAt(t, path) == Deref(FieldAt(t, path).value.typ) && SupportedLeaf(TypeAt(t, path))
  {
    ReachableIsValid(t, path);
    CatalogIsExact(t);
    assert !BadAt(t, path);
  }
}
