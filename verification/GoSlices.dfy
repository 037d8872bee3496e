/** Go slices: a length over a backing array that other slices may share.
  * The backing array may have spare capacity behind the length; that is where
  * an append writes in place, and what makes shared slices dangerous. */
module GoSlices {
  import opened Sequences

  datatype GoSlice<T> = GoSlice(arr: array<T>, len: nat) {
    ghost predicate Valid() {
      len <= arr.Length
    }

    ghost function View(): seq<T>
      requires Valid()
      reads arr
    {
      arr[..len]
    }
  }

  /** A fresh array that starts with the first `len` elements of `src` and has room for more.
    * Go picks the capacity; nothing here depends on which one it picks. */
  method Reallocate<T>(src: array<T>, len: nat, filler: T, minimum: nat) returns (arr: array<T>)
    requires len <= src.Length && len <= minimum
    ensures fresh(arr) && arr.Length >= minimum
    ensures arr[..len] == src[..len]
  {
    var spare :| 0 <= spare;
    arr := new T[minimum + spare](_ => filler);
    for k := 0 to len
      invariant arr[..k] == src[..k]
    {
      arr[k] := src[k];
    }
  }

  /** Go's append of one element: in place when there is spare capacity, on a new
    * backing array otherwise. */
  method Append<T>(s: GoSlice<T>, x: T) returns (r: GoSlice<T>)
    requires s.Valid()
    modifies s.arr
    ensures r.Valid() && r.View() == old(s.View()) + [x]
    ensures s.len < s.arr.Length ==> r.arr == s.arr
    ensures s.len == s.arr.Length ==> fresh(r.arr) && unchanged(s.arr)
    ensures forall k :: 0 <= k < s.arr.Length && k != s.len ==> s.arr[k] == old(s.arr[k])
  {
    if s.len < s.arr.Length {
      s.arr[s.len] := x;
      r := GoSlice(s.arr, s.len + 1);
    } else {
      var arr := Reallocate(s.arr, s.len, x, s.len + 1);
      arr[s.len] := x;
      r := GoSlice(arr, s.len + 1);
    }
  }

  /** slices.Clone: the same elements on a backing array nobody else holds, possibly
    * with spare capacity of its own. */
  method Clone<T>(s: GoSlice<T>) returns (r: GoSlice<T>)
    requires s.Valid()
    ensures r.Valid() && r.View() == s.View()
    ensures fresh(r.arr)
  {
    if s.len == 0 {
      var empty := new T[0];
      r := GoSlice(empty, 0);
    } else {
      var arr := Reallocate(s.arr, s.len, s.arr[0], s.len);
      r := GoSlice(arr, s.len);
    }
  }

  /** append(s[:i], s[i+1:]...): the tail is moved one place down inside the same backing array. */
  method RemoveAt<T>(s: GoSlice<T>, i: nat) returns (r: GoSlice<T>)
    requires s.Valid() && i < s.len
    modifies s.arr
    ensures r.Valid() && r.arr == s.arr
    ensures r.View() == CutAt(old(s.View()), i)
  {
    for k := i to s.len - 1
      invariant forall j :: 0 <= j < i ==> s.arr[j] == old(s.arr[j])
      invariant forall j :: i <= j < k ==> s.arr[j] == old(s.arr[j + 1])
      invariant forall j :: k <= j < s.arr.Length ==> s.arr[j] == old(s.arr[j])
    {
      s.arr[k] := s.arr[k + 1];
    }
    r := GoSlice(s.arr, s.len - 1);
  }

  /** Why the walk clones before it appends: two appends to the same slice with spare capacity land in
    * the same place, and the first result silently takes on the second element. */
  method SiblingsShareBacking<T>(s: GoSlice<T>, x: T, y: T) returns (first: GoSlice<T>, second: GoSlice<T>)
    requires s.len < s.arr.Length
    modifies s.arr
    ensures first.Valid() && second.Valid() && first.arr == second.arr
    ensures first.View() == second.View() == old(s.View()) + [y]
  {
    first := Append(s, x);
    second := Append(s, y);
  }
}
