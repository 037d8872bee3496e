/** Config struct types as the reflection walk sees them, and the meaning of struct tags. */
module ConfigTypes {
  import opened Wrappers
  import opened StringLists

  datatype GoType =
    | TString
    | TBool
    | TInt(bits: nat)
    | TUint(bits: nat)
    | TFloat(bits: nat)
    | TDuration
    | TTime
    | TSlice(elem: GoType)
    | TPointer(elem: GoType)
    | TStruct(fields: seq<Field>)
    | TOther(name: string)

  /** A struct field with the raw texts of its tags. */
  datatype Field = Field(name: string, exported: bool, json: string, dyn: string, desc: string, typ: GoType)

  datatype ReloadStrategy = Live | Recreate | Restart

  /** `Path` is seq<nat> in specifications and a slice of ints in the program. */
  datatype FieldDescriptor<Path> = FieldDescriptor(
    key: string, description: string, strategy: ReloadStrategy, fieldIndices: Path, fieldType: GoType)

  type Descriptor = FieldDescriptor<seq<nat>>

  datatype CatalogError =
    | NotStruct
    | UnknownDyn(key: string, value: string)
    | UnsupportedType(key: string, value: string)

  function Lower(s: string): string {
    seq(|s|, i requires 0 <= i < |s| => if 'A' <= s[i] <= 'Z' then s[i] - 'A' + 'a' else s[i])
  }

  /** The first segment of the json tag, or the lower-cased field name when that is empty. */
  function JsonKeyName(f: Field): string {
    if f.json == "" then Lower(f.name)
    else if Split(f.json)[0] == "" then Lower(f.name)
    else Split(f.json)[0]
  }

  /** A tag "name" or "name,options" names the key; an absent or empty name leaves the field name,
    * in lower case. */
  lemma JsonTagNamesTheKey(f: Field, name: string, options: string)
    requires CommaFree(name)
    ensures f.json == name + "," + options || f.json == name ==>
      JsonKeyName(f) == if name == "" then Lower(f.name) else name
  {
    SplitFirst(name, options);
    SplitJoin([name]);
  }

  function Dyn(f: Field): string {
    Trim(f.dyn)
  }

  const VALID_DYN_VALUES: set<string> :=
    {"live", "recreate-on-change", "restart-required", "bootstrap", "secret"}

  function ParseDynTag(dyn: string): Option<ReloadStrategy> {
    if dyn == "live" then Some(Live)
    else if dyn == "recreate-on-change" then Some(Recreate)
    else if dyn == "restart-required" then Some(Restart)
    else None
  }

  predicate SupportedLeaf(t: GoType) {
    || t.TDuration? || t.TString? || t.TBool? || t.TInt? || t.TUint? || t.TFloat?
    || (t.TSlice? && t.elem.TString?)
  }

  /** A pointer field is walked as what it points to; only one level is looked through. */
  function Deref(t: GoType): GoType {
    if t.TPointer? then t.elem else t
  }

  /** Struct types other than time.Time nest; everything else is a leaf. */
  predicate Nests(t: GoType) {
    Deref(t).TStruct?
  }

  function FullKey(prefix: string, keyPart: string): string {
    if prefix != "" then prefix + "." + keyPart else keyPart
  }

  // ---------------------------------------------------------------------------------------------
  // Paths through a type
  // ---------------------------------------------------------------------------------------------

  /** Index paths that lead through nested structs, whatever the tags say. */
  predicate ValidPath(t: GoType, path: seq<nat>) {
    path != [] ==>
      && Nests(t) && path[0] < |Deref(t).fields|
      && ValidPath(Deref(t).fields[path[0]].typ, path[1..])
  }

  function TypeAt(t: GoType, path: seq<nat>): GoType
    requires ValidPath(t, path)
  {
    if path == [] then t else TypeAt(Deref(t).fields[path[0]].typ, path[1..])
  }

  /** The walk looks at exported fields whose key name is not "-". */
  predicate Visible(f: Field) {
    f.exported && JsonKeyName(f) != "-"
  }

  predicate Descends(f: Field) {
    Nests(f.typ) && Dyn(f) != "secret"
  }

  /** The field at a path, provided the walk gets there: every step is to a visible field, and
    * no struct on the way is tagged secret. */
  function FieldAt(t: GoType, path: seq<nat>): Option<Field>
    requires path != []
    decreases |path|
  {
    if !Nests(t) || path[0] >= |Deref(t).fields| then None
    else
      var f := Deref(t).fields[path[0]];
      if !Visible(f) then None
      else if |path| == 1 then Some(f)
      else if Descends(f) then FieldAt(f.typ, path[1..])
      else None
  }

  ghost predicate Reachable(t: GoType, path: seq<nat>) {
    path != [] && FieldAt(t, path).Some?
  }

  /** A tag value nobody knows, or a dynamic leaf whose type no override can be parsed into. */
  predicate BadField(f: Field) {
    || (Dyn(f) != "" && Dyn(f) !in VALID_DYN_VALUES)
    || (!Nests(f.typ) && ParseDynTag(Dyn(f)).Some? && !SupportedLeaf(Deref(f.typ)))
  }

  predicate DynamicLeaf(f: Field) {
    !Nests(f.typ) && ParseDynTag(Dyn(f)).Some?
  }

  ghost predicate Managed(t: GoType, path: seq<nat>) {
    Reachable(t, path) && DynamicLeaf(FieldAt(t, path).value)
  }

  /** The dot-joined key names along a path, below `prefix`. */
  function KeyAt(prefix: string, t: GoType, path: seq<nat>): string
    requires path != [] && FieldAt(t, path).Some?
    decreases |path|
  {
    var f := Deref(t).fields[path[0]];
    var key := FullKey(prefix, JsonKeyName(f));
    if |path| == 1 then key else KeyAt(key, f.typ, path[1..])
  }

  ghost function DescriptorAt(indices: seq<nat>, prefix: string, t: GoType, path: seq<nat>): Descriptor
    requires Managed(t, path)
  {
    var f := FieldAt(t, path).value;
    FieldDescriptor(KeyAt(prefix, t, path), Trim(f.desc), ParseDynTag(Dyn(f)).value, indices + path, Deref(f.typ))
  }
}
