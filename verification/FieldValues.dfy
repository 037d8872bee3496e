/** Values of config structs, and parsing an override into the value of a leaf. */
module FieldValues {
  import opened Wrappers
  import opened StringLists
  import opened ConfigTypes

  datatype Leaf =
    | LString(s: string)
    | LBool(b: bool)
    | LInt(n: int)
    | LUint(u: nat)
    | LFloat(x: real)
    | LDuration(d: int)
    | LStrings(parts: seq<string>)
    | LOpaque(id: int)

  /** A struct value in memory. Pointers to structs lead to other memory cells; a leaf holds
    * anything else, pointers to scalars included. */
  datatype Value =
    | VLeaf(leaf: Leaf)
    | VStruct(fields: seq<Value>)
    | VPointer(target: Option<nat>)

  /** The decoders of the standard library: strconv, time.ParseDuration and encoding/json.
    * None stands for the error they return. */
  datatype Decoders = Decoders(
    duration: string -> Option<int>,
    bool_: string -> Option<bool>,
    int_: string -> Option<int>,
    uint: string -> Option<nat>,
    float: (nat, string) -> Option<real>,
    json: string -> Option<seq<string>>)

  function Pow2(n: nat): (p: nat)
    ensures 1 <= p
  {
    if n == 0 then 1 else 2 * Pow2(n - 1)
  }

  /** Converting a 64-bit integer to a narrower type keeps its low bits. */
  function WrapSigned(n: int, bits: nat): int
    requires 0 < bits
  {
    (n + Pow2(bits - 1)) % Pow2(bits) - Pow2(bits - 1)
  }

  function WrapUnsigned(n: nat, bits: nat): nat {
    n % Pow2(bits)
  }

  function ParseFieldValue(raw: string, t: GoType, decoders: Decoders): Option<Leaf> {
    match t
    case TDuration =>
      (match decoders.duration(raw) case Some(d) => Some(LDuration(d)) case None => None)
    case TString => Some(LString(raw))
    case TBool =>
      (match decoders.bool_(raw) case Some(b) => Some(LBool(b)) case None => None)
    case TInt(bits) =>
      (match decoders.int_(raw)
       case Some(n) => Some(LInt(if bits == 0 then 0 else WrapSigned(n, bits)))
       case None => None)
    case TUint(bits) =>
      (match decoders.uint(raw) case Some(u) => Some(LUint(WrapUnsigned(u, bits))) case None => None)
    case TFloat(bits) =>
      (match decoders.float(bits, raw) case Some(x) => Some(LFloat(x)) case None => None)
    case TSlice(elem) =>
      if !elem.TString? then None
      else (match StringList(raw, decoders.json) case Some(parts) => Some(LStrings(parts)) case None => None)
    case _ => None
  }

  /** An integer override takes effect as written exactly when the field's type can hold it;
    * otherwise the field silently gets the wrapped number. */
  lemma IntegerOverrideIsExact(raw: string, bits: nat, decoders: Decoders)
    requires 0 < bits
    ensures decoders.int_(raw).Some? ==>
      (ParseFieldValue(raw, TInt(bits), decoders) == Some(LInt(decoders.int_(raw).value))
       <==> 0 - Pow2(bits - 1) <= decoders.int_(raw).value < Pow2(bits - 1))
    ensures decoders.uint(raw).Some? ==>
      (ParseFieldValue(raw, TUint(bits), decoders) == Some(LUint(decoders.uint(raw).value))
       <==> decoders.uint(raw).value < Pow2(bits))
  {
    var half := Pow2(bits - 1);
    assert Pow2(bits) == 2 * half;
    if decoders.int_(raw).Some? {
      RemainderIsSame(decoders.int_(raw).value + half, 2 * half);
    }
    if decoders.uint(raw).Some? {
      RemainderIsSame(decoders.uint(raw).value, 2 * half);
    }
  }

  predicate InSigned(n: int, bits: nat)
    requires 0 < bits
  {
    0 - Pow2(bits - 1) <= n < Pow2(bits - 1)
  }

  /** The two numbers differ by a multiple of 2 to the power of the width. */
  ghost predicate SameLowBits(a: int, b: int, bits: nat) {
    exists k: int {:trigger k * Pow2(bits)} :: b == a + k * Pow2(bits)
  }

  /** A number out of range becomes the one in range with the same low bits. */
  lemma WrappedAgrees(n: int, bits: nat)
    requires 0 < bits
    ensures InSigned(WrapSigned(n, bits), bits) && SameLowBits(WrapSigned(n, bits), n, bits)
  {
    var half, all := Pow2(bits - 1), Pow2(bits);
    assert all == 2 * half;
    var k := (n + half) / all;
    assert n + half == k * all + (n + half) % all;
    assert n == WrapSigned(n, bits) + k * Pow2(bits);
  }

  lemma WrappedUnsignedAgrees(n: nat, bits: nat)
    ensures WrapUnsigned(n, bits) < Pow2(bits) && SameLowBits(WrapUnsigned(n, bits), n, bits)
  {
    var k := n / Pow2(bits);
    assert n == WrapUnsigned(n, bits) + k * Pow2(bits);
  }

  /** The stored text 300 puts 44 into an int8 field. */
  lemma NarrowIntegerWraps(raw: string, decoders: Decoders)
    requires decoders.int_(raw) == Some(300)
    ensures ParseFieldValue(raw, TInt(8), decoders) == Some(LInt(44))
  {
    assert Pow2(4) == 16;
    assert Pow2(7) == 8 * Pow2(4) && Pow2(8) == 2 * Pow2(7);
  }

  /** A leaf that a field of the type can hold. */
  predicate LeafFits(x: Leaf, t: GoType) {
    match t
    case TString => x.LString?
    case TBool => x.LBool?
    case TInt(bits) => x.LInt? && (0 < bits ==> 0 - Pow2(bits - 1) <= x.n < Pow2(bits - 1))
    case TUint(bits) => x.LUint? && x.u < Pow2(bits)
    case TFloat(_) => x.LFloat?
    case TDuration => x.LDuration?
    case TSlice(elem) => elem.TString? && x.LStrings?
    case _ => false
  }

  /** Parsing mirrors the list of supported types: a result always fits the field it is for, and for
    * an unsupported type there is none. */
  lemma ParsingMirrorsSupport(raw: string, t: GoType, decoders: Decoders)
    ensures ParseFieldValue(raw, t, decoders).Some? ==>
      SupportedLeaf(t) && LeafFits(ParseFieldValue(raw, t, decoders).value, t)
    ensures SupportedLeaf(t) && (t.TString? || (t.TSlice? && !IsJson(raw))) ==>
      ParseFieldValue(raw, t, decoders).Some?
  {
    if t.TInt? && 0 < t.bits && decoders.int_(raw).Some? {
      assert Pow2(t.bits) == 2 * Pow2(t.bits - 1);
    }
  }

  /** The list of supported types is exact: a type is on it exactly if some text can be parsed into it. */
  lemma SupportIsExact(t: GoType)
    ensures SupportedLeaf(t) <==> exists raw, decoders :: ParseFieldValue(raw, t, decoders).Some?
  {
    if SupportedLeaf(t) {
      var lenient := Decoders(_ => Some(0), _ => Some(false), _ => Some(0), _ => Some(0), (_, _) => Some(0.0),
                              _ => Some([]));
      assert ParseFieldValue("", t, lenient).Some?;
    }
  }

  /** A plain list of strings, written with commas, reaches a []string field unchanged. */
  lemma StringListOverride(items: seq<string>, decoders: Decoders)
    requires AllPlain(items) && (items == [] || items[0][0] != '[')
    ensures ParseFieldValue(Join(items), TSlice(TString), decoders) == Some(LStrings(items))
  {
    PlainWritesItself(items);
    JoinedLooksLikeJson(items);
    CommaListRoundTrip(items, items, decoders.json);
    assert StringList(Join(items), decoders.json) == Some(items);
  }

  lemma RemainderIsSame(n: int, m: nat)
    requires 0 < m
    ensures n % m == n <==> 0 <= n < m
  {
  }

  function ZeroLeaf(t: GoType): Leaf {
    match t
    case TString => LString("")
    case TBool => LBool(false)
    case TInt(_) => LInt(0)
    case TUint(_) => LUint(0)
    case TFloat(_) => LFloat(0.0)
    case TDuration => LDuration(0)
    case TSlice(elem) => if elem.TString? then LStrings([]) else LOpaque(0)
    case _ => LOpaque(0)
  }

  /** Go's zero value, which reflect.New puts into a new cell. */
  function Zero(t: GoType): Value {
    if t.TStruct? then VStruct(seq(|t.fields|, i requires 0 <= i < |t.fields| => Zero(t.fields[i].typ)))
    else if Nests(t) then VPointer(None)
    else VLeaf(ZeroLeaf(t))
  }

  // ---------------------------------------------------------------------------------------------
  // Places inside a value
  // ---------------------------------------------------------------------------------------------

  function GetField(v: Value, path: seq<nat>): Option<Value>
    decreases |path|
  {
    if path == [] then Some(v)
    else if v.VStruct? && path[0] < |v.fields| then GetField(v.fields[path[0]], path[1..])
    else None
  }

  function PutField(v: Value, path: seq<nat>, x: Value): Value
    decreases |path|
  {
    if path == [] then x
    else if v.VStruct? && path[0] < |v.fields| then
      v.(fields := v.fields[path[0] := PutField(v.fields[path[0]], path[1..], x)])
    else v
  }

  /** What reading one place says after writing another. */
  lemma {:induction false} GetAfterPut(v: Value, p: seq<nat>, x: Value, q: seq<nat>)
    requires GetField(v, p).Some?
    ensures p <= q ==> GetField(PutField(v, p, x), q) == GetField(x, q[|p|..])
    ensures q < p ==> GetField(v, q).Some? && GetField(v, q).value.VStruct? &&
                      GetField(PutField(v, p, x), q).Some? && GetField(PutField(v, p, x), q).value.VStruct? &&
                      |GetField(PutField(v, p, x), q).value.fields| == |GetField(v, q).value.fields|
    ensures !(p <= q) && !(q <= p) ==> GetField(PutField(v, p, x), q) == GetField(v, q)
    decreases |p|
  {
    if p != [] && q != [] {
      if p[0] == q[0] {
        GetAfterPut(v.fields[p[0]], p[1..], x, q[1..]);
        assert p <= q <==> p[1..] <= q[1..];
        assert q <= p <==> q[1..] <= p[1..];
        assert p <= q ==> q[|p|..] == q[1..][|p[1..]|..];
      }
    }
  }

  lemma {:induction false} GetConcat(v: Value, p: seq<nat>, q: seq<nat>)
    ensures GetField(v, p + q) == match GetField(v, p) case Some(w) => GetField(w, q) case None => None
    decreases |p|
  {
    if p == [] {
      assert p + q == q;
    } else if v.VStruct? && p[0] < |v.fields| {
      assert (p + q)[1..] == p[1..] + q;
      GetConcat(v.fields[p[0]], p[1..], q);
    }
  }
}
