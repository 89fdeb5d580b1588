/**
 * Column metadata and column headers: the descriptors `App` derives from the first
 * fetched record, and the humanised header text shared by the on-screen table and
 * the print-all export.
 */
module Columns {
  import opened Wrappers
  import opened Text
  import opened Records

  /**
   * A column descriptor. `isShown` is optional because the export helpers accept
   * descriptors whose `isShown` property is missing (`undefined`).
   */
  datatype Column = Column(name: string, isSortable: bool, isShown: Option<bool>, isFixed: bool)

  function Names(cols: seq<Column>): (ns: seq<string>)
    ensures |ns| == |cols|
    ensures forall i :: 0 <= i < |cols| ==> ns[i] == cols[i].name
  {
    if cols == [] then [] else [cols[0].name] + Names(cols[1..])
  }

  /** The descriptor the fetch handler builds for one field name. */
  function Describe(name: string): Column
  {
    Column(name, name != "body", Some(name != "email"), name == "id" || name == "postId")
  }

  /** `Object.keys(firstRow).map(...)`: one descriptor per field, in key order. */
  function DeriveColumns(first: Record): (cols: seq<Column>)
    ensures Names(cols) == Keys(first)
    ensures forall i :: 0 <= i < |cols| ==>
      && (cols[i].isSortable <==> cols[i].name != "body")
      && (cols[i].isShown == Some(true) <==> cols[i].name != "email")
      && cols[i].isShown.Some?
      && (cols[i].isFixed <==> cols[i].name in {"id", "postId"})
  {
    if first == [] then []
    else
      var cols := [Describe(first[0].key)] + DeriveColumns(first[1..]);
      assert Keys(first) == [first[0].key] + Keys(first[1..]);
      assert Names(cols) == [cols[0].name] + Names(cols[1..]);
      cols
  }

  /**
   * The column list after a fetch delivered `json`: derived from `json[0]`, or the
   * previous list when `json` is empty (reading a key of `undefined` throws, and the
   * fetch's `catch` only logs, so `setColumns` is never reached).
   */
  function ColumnsAfterFetch(previous: seq<Column>, json: seq<Record>): (cols: seq<Column>)
    ensures json == [] ==> cols == previous
    ensures json != [] ==> Names(cols) == Keys(json[0])
  {
    if json == [] then previous else DeriveColumns(json[0])
  }

  /** `name.replace(/([A-Z])/g, " $1")`: a space before every capital letter. */
  function SpaceBeforeCapitals(s: string): (r: string)
    ensures s == [] <==> r == []
    ensures r != [] && !IsUpper(s[0]) ==> r[0] == s[0]
    ensures r != [] && IsUpper(s[0]) ==> r[0] == ' '
  {
    if s == [] then [] else (if IsUpper(s[0]) then [' ', s[0]] else [s[0]]) + SpaceBeforeCapitals(s[1..])
  }

  /** The characters the regular-expression `.` does not match. */
  predicate IsLineTerminator(c: char)
  {
    c == '\n' || c == '\r' || c == '\U{2028}' || c == '\U{2029}'
  }

  /** `s.replace(/^./, (x) => x.toUpperCase())`. */
  function CapitaliseFirst(s: string): (r: string)
    ensures |r| == |s|
    ensures |s| > 0 ==> r[1..] == s[1..]
    ensures |s| > 0 && !IsLineTerminator(s[0]) ==> r[0] == UpperChar(s[0])
    ensures |s| > 0 && IsLineTerminator(s[0]) ==> r == s
  {
    if s == [] || IsLineTerminator(s[0]) then s else [UpperChar(s[0])] + s[1..]
  }

  /** The header text shown for a column name: `postId` becomes `Post Id`. */
  function Humanise(name: string): string
  {
    CapitaliseFirst(SpaceBeforeCapitals(name))
  }

  /** Reference inverse of the space insertion: drop a space that stands right before a capital. */
  function DropSpacesBeforeCapitals(t: string): string
  {
    if |t| >= 2 && t[0] == ' ' && IsUpper(t[1]) then [t[1]] + DropSpacesBeforeCapitals(t[2..])
    else if t == [] then []
    else [t[0]] + DropSpacesBeforeCapitals(t[1..])
  }

  function CountCapitals(s: string): nat
  {
    if s == [] then 0 else (if IsUpper(s[0]) then 1 else 0) + CountCapitals(s[1..])
  }

  /** The space insertion loses nothing: dropping the inserted spaces gives the name back. */
  lemma {:induction false} SpaceInsertionRoundTrip(s: string)
    ensures DropSpacesBeforeCapitals(SpaceBeforeCapitals(s)) == s
  {
    if s != [] {
      var rest := SpaceBeforeCapitals(s[1..]);
      SpaceInsertionRoundTrip(s[1..]);
      if IsUpper(s[0]) {
        assert SpaceBeforeCapitals(s) == [' ', s[0]] + rest;
        assert ([' ', s[0]] + rest)[2..] == rest;
      } else {
        assert SpaceBeforeCapitals(s) == [s[0]] + rest;
        assert ([s[0]] + rest)[1..] == rest;
      }
    }
  }

  /** One space is inserted per capital letter, and every capital now follows a space. */
  lemma {:induction false} SpaceInsertionShape(s: string)
    ensures |SpaceBeforeCapitals(s)| == |s| + CountCapitals(s)
    ensures forall i :: 0 < i < |SpaceBeforeCapitals(s)| && IsUpper(SpaceBeforeCapitals(s)[i]) ==>
      SpaceBeforeCapitals(s)[i - 1] == ' '
  {
    if s != [] {
      SpaceInsertionShape(s[1..]);
      var rest := SpaceBeforeCapitals(s[1..]);
      var head: string := if IsUpper(s[0]) then [' ', s[0]] else [s[0]];
      var r := head + rest;
      assert SpaceBeforeCapitals(s) == r;
      forall i | 0 < i < |r| && IsUpper(r[i]) ensures r[i - 1] == ' ' {
        if i >= |head| {
          if i == |head| {
            assert false;
          } else {
            assert r[i] == rest[i - |head|] && r[i - 1] == rest[i - 1 - |head|];
          }
        }
      }
    }
  }

  /**
   * The humanised header, with the inserted spaces dropped again, is the column name
   * with its first character upper-cased.
   */
  lemma HumaniseRoundTrip(name: string)
    ensures DropSpacesBeforeCapitals(Humanise(name)) == CapitaliseFirst(name)
  {
    var spaced := SpaceBeforeCapitals(name);
    SpaceInsertionRoundTrip(name);
    if name != [] {
      var rest := SpaceBeforeCapitals(name[1..]);
      SpaceInsertionRoundTrip(name[1..]);
      if IsUpper(name[0]) {
        assert spaced == [' ', name[0]] + rest;
        assert Humanise(name) == spaced;
        assert CapitaliseFirst(name) == name;
      } else if IsLineTerminator(name[0]) {
        assert Humanise(name) == spaced;
      } else {
        assert spaced == [name[0]] + rest;
        var up := UpperChar(name[0]);
        assert Humanise(name) == [up] + rest;
        assert rest == [] || !IsUpper(rest[0]);
        assert DropSpacesBeforeCapitals([up] + rest) == [up] + DropSpacesBeforeCapitals(rest);
      }
    }
  }
}
