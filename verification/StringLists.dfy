/** The two written forms of a string-list override: a JSON array, or a comma-separated list. */
module StringLists {
  import opened Wrappers

  /** The characters Go's unicode.IsSpace accepts. */
  predicate IsSpace(c: char) {
    || '\t' <= c <= '\r' || c == ' ' || c == '\U{85}' || c == '\U{A0}' || c == '\U{1680}'
    || '\U{2000}' <= c <= '\U{200A}' || c == '\U{2028}' || c == '\U{2029}' || c == '\U{202F}'
    || c == '\U{205F}' || c == '\U{3000}'
  }

  function TrimLeft(s: string): string {
    if s != [] && IsSpace(s[0]) then TrimLeft(s[1..]) else s
  }

  function TrimRight(s: string): string {
    if s != [] && IsSpace(s[|s| - 1]) then TrimRight(s[..|s| - 1]) else s
  }

  function Trim(s: string): string {
    TrimRight(TrimLeft(s))
  }

  /** strings.Split at commas: always at least one piece. */
  function Split(s: string): (pieces: seq<string>)
    ensures pieces != []
  {
    if s == [] then [""]
    else
      var rest := Split(s[1..]);
      if s[0] == ',' then [""] + rest else [[s[0]] + rest[0]] + rest[1..]
  }

  function Join(pieces: seq<string>): string {
    if pieces == [] then ""
    else if |pieces| == 1 then pieces[0]
    else pieces[0] + "," + Join(pieces[1..])
  }

  /** The pieces that are not blank, trimmed. */
  function Clean(pieces: seq<string>): seq<string> {
    if pieces == [] then []
    else (if Trim(pieces[0]) == "" then [] else [Trim(pieces[0])]) + Clean(pieces[1..])
  }

  predicate IsJson(raw: string) {
    Trim(raw) != "" && Trim(raw)[0] == '['
  }

  /** The list a raw value denotes; `json` decodes JSON arrays of strings and fails with None. */
  function StringList(raw: string, json: string -> Option<seq<string>>): Option<seq<string>> {
    if IsJson(raw) then json(Trim(raw)) else Some(Clean(Split(Trim(raw))))
  }

  /** The white space of Unicode: tab to carriage return, space, next line, and the others. */
  lemma SpacesAreUnicodes(c: char)
    ensures IsSpace(c) <==> c as int in {
      0x9, 0xA, 0xB, 0xC, 0xD, 0x20, 0x85, 0xA0, 0x1680, 0x2000, 0x2001, 0x2002, 0x2003, 0x2004, 0x2005, 0x2006,
      0x2007, 0x2008, 0x2009, 0x200A, 0x2028, 0x2029, 0x202F, 0x205F, 0x3000}
  {
  }

  lemma BlankHasNoParts()
    ensures Clean(Split("")) == []
  {
    assert Split("") == [""];
  }

  lemma NextPart(pieces: seq<string>, i: nat)
    requires i < |pieces|
    ensures Clean(pieces[i..])
         == (if Trim(pieces[i]) == "" then [] else [Trim(pieces[i])]) + Clean(pieces[i + 1..])
  {
    assert pieces[i..][1..] == pieces[i + 1..];
  }

  method ParseStringSlice(raw: string, json: string -> Option<seq<string>>) returns (r: Option<seq<string>>)
    ensures r == StringList(raw, json)
  {
    var trimmed := Trim(raw);
    if trimmed != "" && trimmed[0] == '[' {
      return json(trimmed);
    }
    if trimmed == "" {
      BlankHasNoParts();
      return Some([]);
    }
    var out := CleanPieces(Split(trimmed));
    r := Some(out);
  }

  method CleanPieces(pieces: seq<string>) returns (out: seq<string>)
    ensures out == Clean(pieces)
  {
    out := [];
    assert pieces[0..] == pieces && pieces[|pieces|..] == [];
    for i := 0 to |pieces|
      invariant out + Clean(pieces[i..]) == Clean(pieces)
    {
      NextPart(pieces, i);
      ghost var later := Clean(pieces[i + 1..]);
      var p := Trim(pieces[i]);
      if p != "" {
        assert out + ([p] + later) == (out + [p]) + later;
        out := out + [p];
      } else {
        assert [] + later == later;
      }
    }
  }

  // ---------------------------------------------------------------------------------------------
  // Trimming
  // ---------------------------------------------------------------------------------------------

  predicate Blank(s: string) {
    forall i :: 0 <= i < |s| ==> IsSpace(s[i])
  }

  predicate Trimmed(s: string) {
    s != [] ==> !IsSpace(s[0]) && !IsSpace(s[|s| - 1])
  }

  predicate CommaFree(s: string) {
    forall i :: 0 <= i < |s| ==> s[i] != ','
  }

  /** An element that the comma form can carry. */
  predicate Plain(s: string) {
    s != "" && Trimmed(s) && CommaFree(s)
  }

  predicate AllCommaFree(pieces: seq<string>) {
    forall i :: 0 <= i < |pieces| ==> CommaFree(pieces[i])
  }

  predicate AllPlain(items: seq<string>) {
    forall i :: 0 <= i < |items| ==> Plain(items[i])
  }

  lemma {:induction false} TrimLeftSkips(pad: string, s: string)
    requires Blank(pad)
    ensures TrimLeft(pad + s) == TrimLeft(s)
  {
    if pad == [] {
      assert pad + s == s;
    } else {
      assert (pad + s)[1..] == pad[1..] + s;
      TrimLeftSkips(pad[1..], s);
    }
  }

  lemma {:induction false} TrimRightSkips(s: string, pad: string)
    requires Blank(pad)
    ensures TrimRight(s + pad) == TrimRight(s)
  {
    if pad == [] {
      assert s + pad == s;
    } else {
      assert (s + pad)[..|s + pad| - 1] == s + pad[..|pad| - 1];
      TrimRightSkips(s, pad[..|pad| - 1]);
    }
  }

  /** TrimLeft cuts a blank prefix and leaves nothing blank in front. */
  lemma {:induction false} TrimLeftCuts(s: string) returns (pad: string)
    ensures Blank(pad) && s == pad + TrimLeft(s)
    ensures TrimLeft(s) != [] ==> !IsSpace(TrimLeft(s)[0])
  {
    if s != [] && IsSpace(s[0]) {
      var rest := TrimLeftCuts(s[1..]);
      pad := [s[0]] + rest;
    } else {
      pad := [];
    }
  }

  lemma {:induction false} TrimRightCuts(s: string) returns (pad: string)
    ensures Blank(pad) && s == TrimRight(s) + pad
    ensures TrimRight(s) != [] ==> !IsSpace(TrimRight(s)[|TrimRight(s)| - 1])
  {
    if s != [] && IsSpace(s[|s| - 1]) {
      var rest := TrimRightCuts(s[..|s| - 1]);
      pad := rest + [s[|s| - 1]];
    } else {
      pad := [];
    }
  }

  /** Any text is its trimmed form between two blank margins. */
  lemma TrimCuts(s: string) returns (left: string, right: string)
    ensures Blank(left) && Blank(right) && s == left + Trim(s) + right && Trimmed(Trim(s))
  {
    left := TrimLeftCuts(s);
    right := TrimRightCuts(TrimLeft(s));
    if Trim(s) != "" {
      assert Trim(s)[0] == TrimLeft(s)[0];
    }
  }

  /** Trimming recovers a trimmed text from any blank margins. */
  lemma TrimUnpads(left: string, s: string, right: string)
    requires Blank(left) && Blank(right) && Trimmed(s)
    ensures Trim(left + s + right) == s
  {
    assert left + s + right == left + (s + right);
    TrimLeftSkips(left, s + right);
    if s == [] {
      assert s + right == right + [];
      TrimLeftSkips(right, []);
    } else {
      TrimRightSkips(s, right);
    }
  }

  // ---------------------------------------------------------------------------------------------
  // Splitting and joining
  // ---------------------------------------------------------------------------------------------

  function Prefixed(c: char, pieces: seq<string>): seq<string>
    requires pieces != []
  {
    [[c] + pieces[0]] + pieces[1..]
  }

  lemma JoinPrefixed(c: char, pieces: seq<string>)
    requires pieces != []
    ensures Join(Prefixed(c, pieces)) == [c] + Join(pieces)
  {
    if |pieces| > 1 {
      assert Prefixed(c, pieces)[1..] == pieces[1..];
    }
  }

  lemma {:induction false} SplitPieces(s: string)
    ensures AllCommaFree(Split(s))
    ensures Join(Split(s)) == s
  {
    if s != [] {
      SplitPieces(s[1..]);
      var rest := Split(s[1..]);
      if s[0] == ',' {
        assert Split(s)[1..] == rest;
      } else {
        assert Split(s) == Prefixed(s[0], rest);
        assert CommaFree(rest[0]);
        JoinPrefixed(s[0], rest);
      }
    }
  }

  /** The text before the first comma is the first piece. */
  lemma {:induction false} SplitFirst(first: string, rest: string)
    requires CommaFree(first)
    ensures Split(first + "," + rest) == [first] + Split(rest)
  {
    var s := first + "," + rest;
    if first == [] {
      assert s == "," + rest && s[1..] == rest;
    } else {
      assert s[1..] == first[1..] + "," + rest;
      SplitFirst(first[1..], rest);
      assert first == [first[0]] + first[1..];
    }
  }

  lemma {:induction false} SplitJoin(pieces: seq<string>)
    requires pieces != [] && AllCommaFree(pieces)
    ensures Split(Join(pieces)) == pieces
    decreases |Join(pieces)|, |pieces|
  {
    var first := pieces[0];
    if first != [] {
      var shorter := [first[1..]] + pieces[1..];
      assert first == [first[0]] + first[1..];
      assert pieces == Prefixed(first[0], shorter);
      JoinPrefixed(first[0], shorter);
      SplitJoin(shorter);
    } else if |pieces| > 1 {
      SplitJoin(pieces[1..]);
    }
  }

  /** Blanks at the ends of the whole text end up at the ends of the first and last piece,
    * where trimming the pieces drops them as well. */
  lemma {:induction false} CleanIgnoresLeft(pad: string, s: string)
    requires Blank(pad)
    ensures Clean(Split(pad + s)) == Clean(Split(s))
  {
    if pad == [] {
      assert pad + s == s;
    } else {
      var shorter := pad[1..] + s;
      CleanIgnoresLeft(pad[1..], s);
      assert (pad + s)[1..] == shorter;
      TrimLeftSkips([pad[0]], Split(shorter)[0]);
    }
  }

  function Extended(pieces: seq<string>, tail: string): seq<string>
    requires pieces != []
  {
    pieces[..|pieces| - 1] + [pieces[|pieces| - 1] + tail]
  }

  lemma PrefixedExtended(c: char, pieces: seq<string>, tail: string)
    requires pieces != []
    ensures Extended(Prefixed(c, pieces), tail) == Prefixed(c, Extended(pieces, tail))
  {
    if |pieces| == 1 {
      assert [c] + pieces[0] + tail == [c] + (pieces[0] + tail);
    }
  }

  lemma {:induction false} SplitExtended(s: string, tail: string)
    requires CommaFree(tail)
    ensures Split(s + tail) == Extended(Split(s), tail)
  {
    if s != [] {
      assert (s + tail)[1..] == s[1..] + tail;
      SplitExtended(s[1..], tail);
      if s[0] != ',' {
        PrefixedExtended(s[0], Split(s[1..]), tail);
      }
    } else if tail != [] {
      assert s + tail == tail && tail == [tail[0]] + tail[1..];
      SplitExtended(s, tail[1..]);
      assert s + tail[1..] == tail[1..];
    }
  }

  lemma {:induction false} CleanExtended(pieces: seq<string>, pad: string)
    requires pieces != [] && Blank(pad)
    ensures Clean(Extended(pieces, pad)) == Clean(pieces)
  {
    if |pieces| == 1 {
      TrimExtended(pieces[0], pad);
    } else {
      assert Extended(pieces, pad)[1..] == Extended(pieces[1..], pad);
      CleanExtended(pieces[1..], pad);
    }
  }

  lemma TrimExtended(s: string, pad: string)
    requires Blank(pad)
    ensures Trim(s + pad) == Trim(s)
  {
    var left, right := TrimCuts(s);
    assert s + pad == left + Trim(s) + (right + pad);
    TrimUnpads(left, Trim(s), right + pad);
  }

  lemma MarginsVanish(left: string, core: string, right: string)
    requires Blank(left) && Blank(right)
    ensures Clean(Split(left + core + right)) == Clean(Split(core))
  {
    assert left + core + right == left + (core + right);
    CleanIgnoresLeft(left, core + right);
    assert CommaFree(right);
    SplitExtended(core, right);
    CleanExtended(Split(core), right);
  }

  lemma CleanIgnoresMargins(s: string)
    ensures Clean(Split(Trim(s))) == Clean(Split(s))
  {
    var left, right := TrimCuts(s);
    MarginsVanish(left, Trim(s), right);
  }

  // ---------------------------------------------------------------------------------------------
  // Round trips
  // ---------------------------------------------------------------------------------------------

  /** `pieces` writes the list `items`: in order, each item between blank margins, with any
    * number of blank pieces around them. */
  ghost predicate Writes(pieces: seq<string>, items: seq<string>) {
    if pieces == [] then items == []
    else
      || (Blank(pieces[0]) && Writes(pieces[1..], items))
      || (items != [] && Pads(pieces[0], items[0]) && Writes(pieces[1..], items[1..]))
  }

  ghost predicate Pads(piece: string, item: string) {
    exists left: string, right: string ::
      Blank(left) && Blank(right) && piece == left + item + right
  }

  lemma TrimPadded(piece: string, item: string)
    requires Pads(piece, item) && Plain(item)
    ensures Trim(piece) == item && CommaFree(piece)
  {
    var left: string, right: string :| Blank(left) && Blank(right) && piece == left + item + right;
    TrimUnpads(left, item, right);
  }

  lemma TrimBlank(piece: string)
    requires Blank(piece)
    ensures Trim(piece) == "" && CommaFree(piece)
  {
    TrimUnpads(piece, "", "");
    assert piece + "" + "" == piece;
  }

  lemma {:induction false} CleanWritten(pieces: seq<string>, items: seq<string>)
    requires Writes(pieces, items)
    requires AllPlain(items)
    ensures Clean(pieces) == items
    ensures AllCommaFree(pieces)
  {
    if pieces != [] {
      var later := pieces[1..];
      if Blank(pieces[0]) && Writes(later, items) {
        TrimBlank(pieces[0]);
        CleanWritten(later, items);
      } else {
        TrimPadded(pieces[0], items[0]);
        CleanWritten(later, items[1..]);
        assert items == [items[0]] + items[1..];
      }
      assert pieces == [pieces[0]] + later;
    }
  }

  /** Written with commas, blank margins and blank pieces, a list of plain items reads back as
    * itself, unless the whole text looks like JSON. */
  lemma CommaListRoundTrip(pieces: seq<string>, items: seq<string>, json: string -> Option<seq<string>>)
    requires Writes(pieces, items) && AllPlain(items)
    requires !IsJson(Join(pieces))
    ensures StringList(Join(pieces), json) == Some(items)
  {
    CleanWritten(pieces, items);
    if pieces == [] {
      assert Clean(Split("")) == [];
    } else {
      SplitJoin(pieces);
    }
    CleanIgnoresMargins(Join(pieces));
  }

  /** Joined plainly, a list of plain items looks like JSON exactly when its first item starts
    * with a bracket. */
  lemma JoinedLooksLikeJson(items: seq<string>)
    requires AllPlain(items)
    ensures IsJson(Join(items)) <==> items != [] && items[0][0] == '['
  {
    if items != [] {
      assert Join(items)[0] == items[0][0];
      var left, right := TrimCuts(Join(items));
      assert left == [];
      assert Trim(Join(items)) != "";
    }
  }

  /** A text that starts with a bracket, blanks aside, denotes whatever JSON decoding makes of it without its
    * blank margins, errors included. */
  lemma JsonTextIsDecoded(left: string, body: string, right: string, json: string -> Option<seq<string>>)
    requires Blank(left) && Blank(right) && body != "" && body[0] == '[' && !IsSpace(body[|body| - 1])
    ensures StringList(left + body + right, json) == json(body)
  {
    TrimUnpads(left, body, right);
  }

  lemma BlanksAfterCommasAreDropped(json: string -> Option<seq<string>>)
    ensures StringList("a, b", json) == Some(["a", "b"])
  {
    var pieces, items := ["a", " b"], ["a", "b"];
    assert Pads("a", "a") by {
      assert "a" == "" + "a" + "" && Blank("");
    }
    assert Pads(" b", "b") by {
      assert " b" == " " + "b" + "" && Blank(" ") && Blank("");
    }
    assert pieces[1..] == [" b"] && items[1..] == ["b"] && pieces[1..][1..] == [] && items[1..][1..] == [];
    assert Writes([], []);
    assert Writes([" b"], ["b"]);
    assert Writes(pieces, items);
    assert Join(pieces) == "a, b";
    TrimUnpads("", "a, b", "");
    assert "" + "a, b" + "" == "a, b";
    CommaListRoundTrip(pieces, items, json);
  }

  lemma TrimmedPartIsPlain(piece: string)
    requires CommaFree(piece) && Trim(piece) != ""
    ensures Plain(Trim(piece))
  {
    var left, right := TrimCuts(piece);
    var part := Trim(piece);
    forall i | 0 <= i < |part|
      ensures part[i] != ','
    {
      assert piece[|left| + i] == part[i];
    }
  }

  /** What the comma form yields: trimmed, comma-free, non-empty parts. */
  lemma {:induction false} CleanIsPlain(pieces: seq<string>)
    requires AllCommaFree(pieces)
    ensures AllPlain(Clean(pieces))
  {
    if pieces != [] {
      CleanIsPlain(pieces[1..]);
      if Trim(pieces[0]) != "" {
        TrimmedPartIsPlain(pieces[0]);
      }
    }
  }

  lemma {:induction false} PlainWritesItself(items: seq<string>)
    ensures Writes(items, items)
  {
    if items != [] {
      assert Blank("") && items[0] == "" + items[0] + "";
      assert Pads(items[0], items[0]);
      PlainWritesItself(items[1..]);
    }
  }

  /** Reading the comma form gives plain parts, and writing those parts and reading them again
    * changes nothing unless the first part starts with a bracket. */
  lemma CommaListIsStable(raw: string, json: string -> Option<seq<string>>)
    requires !IsJson(raw)
    ensures StringList(raw, json).Some?
    ensures var parts := StringList(raw, json).value;
            && AllPlain(parts)
            && (parts == [] || parts[0][0] != '[' ==> StringList(Join(parts), json) == Some(parts))
  {
    var parts := StringList(raw, json).value;
    SplitPieces(Trim(raw));
    CleanIsPlain(Split(Trim(raw)));
    JoinedLooksLikeJson(parts);
    PlainWritesItself(parts);
    if parts == [] || parts[0][0] != '[' {
      CommaListRoundTrip(parts, parts, json);
    }
  }
}
