/**
 * `process_excel` of main1.py: the sheet's column names are stripped of
 * whitespace; when a column is named "Home Street", every cell of it is
 * decoded as a TH code, the results go into a "Lat-Long" column ("Invalid
 * TH Code" where decoding failed), a "Web Page" column of directions links
 * is derived from "Lat-Long", and the sheet is written back.
 *
 * The spreadsheet read into memory is the class DataFrame, whose columns
 * the method ProcessExcel updates in place; reading and writing the file
 * are not modelled, and ProcessExcel reports instead whether it would write.
 * The entry for a decoded coordinate has the shape of `f"{lat}, {lon}"`;
 * the text Python prints for one float is the parameter `num`.
 */
module Enrichment {
  import opened Wrappers
  import opened Alphabet
  import opened Decoder

  const HOME_STREET: string := "Home Street"
  const LAT_LONG: string := "Lat-Long"
  const WEB_PAGE: string := "Web Page"
  const INVALID: string := "Invalid TH Code"
  const DIRECTIONS: string := "https://www.google.com/maps/dir/?api=1&origin=My+Location&destination="

  // ---------------------------------------------------------------------
  // Stripping column names
  // ---------------------------------------------------------------------

  /** The characters Python's `str.strip()` removes. */
  predicate IsSpace(c: char) {
    || '\t' <= c <= '\r' || '\U{1c}' <= c <= '\U{1f}' || c == ' ' || c == '\U{85}' || c == '\U{a0}'
    || c == '\U{1680}' || '\U{2000}' <= c <= '\U{200a}' || c == '\U{2028}' || c == '\U{2029}'
    || c == '\U{202f}' || c == '\U{205f}' || c == '\U{3000}'
  }

  predicate AllSpace(s: string) {
    forall k :: 0 <= k < |s| ==> IsSpace(s[k])
  }

  /** `s` without its leading whitespace: a suffix of `s`, all that is cut
      off is whitespace, and what is left does not start with whitespace. */
  function TrimStart(s: string): (r: string)
    ensures |r| <= |s| && r == s[|s| - |r|..]
    ensures AllSpace(s[..|s| - |r|])
    ensures r == [] || !IsSpace(r[0])
  {
    if s != [] && IsSpace(s[0]) then
      var r := TrimStart(s[1..]);
      var cut := |s| - |r|;
      assert s[1..][cut - 1..] == s[cut..];
      assert s[..cut] == [s[0]] + s[1..][..cut - 1];
      r
    else s
  }

  /** `s` without its trailing whitespace: a prefix of `s`, all that is cut
      off is whitespace, and what is left does not end with whitespace. */
  function TrimEnd(s: string): (r: string)
    ensures |r| <= |s| && r == s[..|r|]
    ensures AllSpace(s[|r|..])
    ensures r == [] || !IsSpace(r[|r| - 1])
  {
    if s != [] && IsSpace(s[|s| - 1]) then
      var r := TrimEnd(s[..|s| - 1]);
      assert s[..|s| - 1][..|r|] == s[..|r|];
      assert s[|r|..] == s[..|s| - 1][|r|..] + [s[|s| - 1]];
      r
    else s
  }

  /** `s.strip()`. */
  function Strip(s: string): string {
    TrimEnd(TrimStart(s))
  }

  /** What `strip` keeps is a slice of the name, with only whitespace around
      it, and it neither starts nor ends with whitespace. */
  lemma StripSlice(s: string)
    ensures exists i, j :: 0 <= i <= j <= |s| && Strip(s) == s[i..j] && AllSpace(s[..i]) && AllSpace(s[j..])
    ensures Strip(s) == [] || (!IsSpace(Strip(s)[0]) && !IsSpace(Strip(s)[|Strip(s)| - 1]))
  {
    var t := TrimStart(s);
    var r := TrimEnd(t);
    var i := |s| - |t|;
    SliceOfSuffix(s, i, |r|);
    var j := i + |r|;
    assert Strip(s) == s[i..j] && AllSpace(s[..i]) && AllSpace(s[j..]);
  }

  lemma SliceOfSuffix<T>(s: seq<T>, i: nat, m: nat)
    requires i + m <= |s|
    ensures s[i..][..m] == s[i..i + m] && s[i..][m..] == s[i + m..]
  {
  }

  /** Stripping twice is stripping once. */
  lemma StripIdempotent(s: string)
    ensures Strip(Strip(s)) == Strip(s)
  {
    StripSlice(s);
    var r := Strip(s);
    if r != [] {
      assert TrimStart(r) == r;
      assert TrimEnd(r) == r;
    }
  }

  /** `data.columns.str.strip()`. */
  function StripAll(names: seq<string>): (r: seq<string>)
    ensures |r| == |names| && forall k :: 0 <= k < |names| ==> r[k] == Strip(names[k])
  {
    seq(|names|, k requires 0 <= k < |names| => Strip(names[k]))
  }

  // ---------------------------------------------------------------------
  // The sheet as a value
  // ---------------------------------------------------------------------

  /** Column names, in order, and each column's cells, top to bottom. */
  datatype Sheet = Sheet(columns: seq<string>, cells: seq<seq<string>>)

  /** Every column has a name and `rows` cells. */
  predicate Rectangular(sheet: Sheet, rows: nat) {
    |sheet.cells| == |sheet.columns| && forall c :: 0 <= c < |sheet.cells| ==> |sheet.cells[c]| == rows
  }

  /** `data[name]`: the cells of the first column of that name. */
  function ColumnOf(sheet: Sheet, name: string): (r: Option<seq<string>>)
    requires |sheet.cells| == |sheet.columns|
    ensures r.None? <==> name !in sheet.columns
  {
    match IndexOf(sheet.columns, name)
    case None => None
    case Some(c) => Some(sheet.cells[c])
  }

  /** `data[name] = values`: replaces the column of that name, or adds it as
      the last column. */
  function WithColumn(sheet: Sheet, name: string, values: seq<string>): Sheet
    requires |sheet.cells| == |sheet.columns|
  {
    match IndexOf(sheet.columns, name)
    case None => Sheet(sheet.columns + [name], sheet.cells + [values])
    case Some(c) => Sheet(sheet.columns, sheet.cells[c := values])
  }

  /** After `data[name] = values`, that column holds the values, every other
      column is as it was, and the names before are kept in order. */
  lemma WithColumnEffect(sheet: Sheet, rows: nat, name: string, values: seq<string>)
    requires Rectangular(sheet, rows) && |values| == rows
    ensures Rectangular(WithColumn(sheet, name, values), rows)
    ensures ColumnOf(WithColumn(sheet, name, values), name) == Some(values)
    ensures forall other :: other != name ==>
              ColumnOf(WithColumn(sheet, name, values), other) == ColumnOf(sheet, other)
    ensures sheet.columns <= WithColumn(sheet, name, values).columns
    ensures name in sheet.columns ==> WithColumn(sheet, name, values).columns == sheet.columns
  {
    var result := WithColumn(sheet, name, values);
    match IndexOf(sheet.columns, name)
    case None =>
      assert result.columns[..|sheet.columns|] == sheet.columns;
      IndexOfAppend(sheet.columns, name, name);
      forall other | other != name
        ensures ColumnOf(result, other) == ColumnOf(sheet, other)
      {
        IndexOfAppend(sheet.columns, name, other);
      }
    case Some(c) =>
  }

  /** Searching names with one name appended finds what it found before, or
      the new last position when it found nothing. */
  lemma IndexOfAppend(names: seq<string>, added: string, name: string)
    ensures IndexOf(names + [added], name) ==
              if name in names then IndexOf(names, name)
              else if name == added then Some(|names|)
              else None
  {
    var extended := names + [added];
    if name in names {
      var p := IndexOf(names, name).value;
      assert extended[..p] == names[..p];
      IndexOfFirst(extended, name, p);
    } else if name == added {
      assert extended[..|names|] == names;
      IndexOfFirst(extended, name, |names|);
    }
  }

  // ---------------------------------------------------------------------
  // The two new columns
  // ---------------------------------------------------------------------

  /** `f"{lat}, {lon}"`: the two floats as `num` writes them, separated by a
      comma and a space.  Whatever `num` writes, the sentinel has no comma,
      so a shown coordinate is never the sentinel. */
  function Show(coordinate: Coordinate, num: real -> string): (r: string)
    ensures r != INVALID
  {
    var lat := num(coordinate.latitude);
    var r := lat + ", " + num(coordinate.longitude);
    assert r[|lat|] == ',';
    assert forall k :: 0 <= k < |INVALID| ==> INVALID[k] != ',';
    r
  }

  /** One Lat-Long entry: the decoded coordinate as shown, or the sentinel
      when `th_to_lat_lon` gave `(None, None)`. */
  function LatLongEntry(cell: string, num: real -> string): string {
    match Decode(cell)
    case Success(coordinate) => Show(coordinate, num)
    case Failure(_) => INVALID
  }

  /** `lat_long_list` for the cells of "Home Street". */
  function LatLongColumn(cells: seq<string>, num: real -> string): (r: seq<string>)
    ensures |r| == |cells| && forall i :: 0 <= i < |cells| ==> r[i] == LatLongEntry(cells[i], num)
  {
    seq(|cells|, i requires 0 <= i < |cells| => LatLongEntry(cells[i], num))
  }

  /** The Web Page link of one Lat-Long entry. */
  function WebPage(entry: string): (r: string)
    ensures DIRECTIONS <= r && r[|DIRECTIONS|..] == entry
  {
    DIRECTIONS + entry
  }

  /** `data['Lat-Long'].apply(...)`. */
  function WebPageColumn(latLong: seq<string>): (r: seq<string>)
    ensures |r| == |latLong| && forall i :: 0 <= i < |latLong| ==> r[i] == WebPage(latLong[i])
  {
    seq(|latLong|, i requires 0 <= i < |latLong| => WebPage(latLong[i]))
  }

  /** An entry is the sentinel exactly when its code does not decode, and
      otherwise it is the decoded coordinate as shown. */
  lemma InvalidIffDecodeFails(cell: string, num: real -> string)
    ensures LatLongEntry(cell, num) == INVALID <==> Decode(cell).Failure?
    ensures Decode(cell).Success? ==> LatLongEntry(cell, num) == Show(Decode(cell).value, num)
  {
    if Decode(cell).Success? {
      assert Show(Decode(cell).value, num) != INVALID;
    }
  }

  /** A link gives back its entry, so distinct entries get distinct links. */
  lemma WebPageInjective(a: string, b: string)
    requires WebPage(a) == WebPage(b)
    ensures a == b
  {
    assert a == WebPage(a)[|DIRECTIONS|..];
  }

  /** The sheet after the "Home Street" branch of `process_excel`, or None
      when no column has that name and nothing is added. */
  function AddColumns(sheet: Sheet, num: real -> string): Option<Sheet>
    requires |sheet.cells| == |sheet.columns|
  {
    match ColumnOf(sheet, HOME_STREET)
    case None => None
    case Some(home) =>
      var latLong := LatLongColumn(home, num);
      var withLatLong := WithColumn(sheet, LAT_LONG, latLong);
      Some(WithColumn(withLatLong, WEB_PAGE, WebPageColumn(latLong)))
  }

  /** Columns are added exactly when one is named "Home Street"; then there
      is one Lat-Long entry per row, in row order, each row's Web Page is the
      directions prefix followed by its Lat-Long entry, and every other
      column, "Home Street" included, keeps its cells. */
  lemma AddColumnsEffect(sheet: Sheet, rows: nat, num: real -> string)
    requires Rectangular(sheet, rows)
    ensures AddColumns(sheet, num).Some? <==> HOME_STREET in sheet.columns
    ensures AddColumns(sheet, num).Some? ==>
              var home := ColumnOf(sheet, HOME_STREET).value;
              var result := AddColumns(sheet, num).value;
              && Rectangular(result, rows)
              && sheet.columns <= result.columns
              && ColumnOf(result, LAT_LONG) == Some(LatLongColumn(home, num))
              && ColumnOf(result, WEB_PAGE) == Some(WebPageColumn(LatLongColumn(home, num)))
              && (forall other :: other != LAT_LONG && other != WEB_PAGE ==>
                    ColumnOf(result, other) == ColumnOf(sheet, other))
  {
    if HOME_STREET in sheet.columns {
      var home := ColumnOf(sheet, HOME_STREET).value;
      var c := IndexOf(sheet.columns, HOME_STREET).value;
      assert |home| == rows;
      var latLong := LatLongColumn(home, num);
      var withLatLong := WithColumn(sheet, LAT_LONG, latLong);
      WithColumnEffect(sheet, rows, LAT_LONG, latLong);
      WithColumnEffect(withLatLong, rows, WEB_PAGE, WebPageColumn(latLong));
      assert LAT_LONG != WEB_PAGE;
    }
  }

  // ---------------------------------------------------------------------
  // The sheet in memory and the procedure
  // ---------------------------------------------------------------------

  /** The pandas DataFrame `data`: named columns of `rowCount` cells each. */
  class DataFrame {
    var columns: seq<string>
    var cells: seq<seq<string>>
    var rowCount: nat

    ghost predicate Valid()
      reads this
    {
      Rectangular(Contents(), rowCount)
    }

    function Contents(): Sheet
      reads this
    {
      Sheet(columns, cells)
    }

    constructor (columns: seq<string>, cells: seq<seq<string>>, rowCount: nat)
      requires Rectangular(Sheet(columns, cells), rowCount)
      ensures Valid() && Contents() == Sheet(columns, cells) && this.rowCount == rowCount
    {
      this.columns := columns;
      this.cells := cells;
      this.rowCount := rowCount;
    }

    /** `data[name]`. */
    function Column(name: string): Option<seq<string>>
      reads this
      requires Valid()
    {
      ColumnOf(Contents(), name)
    }

    /** `data.columns = data.columns.str.strip()`. */
    method StripColumnNames()
      requires Valid()
      modifies this
      ensures Valid() && rowCount == old(rowCount)
      ensures Contents() == Sheet(StripAll(old(columns)), old(cells))
    {
      columns := StripAll(columns);
    }

    /** `data[name] = values`. */
    method SetColumn(name: string, values: seq<string>)
      requires Valid() && |values| == rowCount
      modifies this
      ensures Valid() && rowCount == old(rowCount)
      ensures Contents() == WithColumn(old(Contents()), name, values)
    {
      WithColumnEffect(Contents(), rowCount, name, values);
      var found := IndexOf(columns, name);
      if found.None? {
        columns := columns + [name];
        cells := cells + [values];
      } else {
        cells := cells[found.value := values];
      }
    }
  }

  /** The loop of `process_excel` that fills `lat_long_list`, one decoded
      cell at a time. */
  method BuildLatLongList(homeCells: seq<string>, num: real -> string) returns (latLong: seq<string>)
    ensures |latLong| == |homeCells|
    ensures forall i :: 0 <= i < |homeCells| ==> latLong[i] == LatLongEntry(homeCells[i], num)
  {
    latLong := [];
    var i := 0;
    while i < |homeCells|
      invariant 0 <= i <= |homeCells| && |latLong| == i
      invariant forall k :: 0 <= k < i ==> latLong[k] == LatLongEntry(homeCells[k], num)
    {
      var decoded := ThToLatLon(homeCells[i]);
      if decoded.Success? {
        latLong := latLong + [Show(decoded.value, num)];
      } else {
        latLong := latLong + [INVALID];
      }
      i := i + 1;
    }
  }

  /** `process_excel` on a sheet already read: strips the column names and,
      when "Home Street" is among them, adds the Lat-Long and Web Page
      columns; `written` tells whether the sheet would be saved. */
  method ProcessExcel(data: DataFrame, num: real -> string) returns (written: bool)
    requires data.Valid()
    modifies data
    ensures data.Valid() && data.rowCount == old(data.rowCount)
    ensures written <==> HOME_STREET in StripAll(old(data.columns))
    ensures var stripped := Sheet(StripAll(old(data.columns)), old(data.cells));
            data.Contents() == if written then AddColumns(stripped, num).value else stripped
  {
    data.StripColumnNames();
    var home := data.Column(HOME_STREET);
    if home.None? {
      return false;
    }
    ghost var stripped := data.Contents();
    var latLong := BuildLatLongList(home.value, num);
    assert latLong == LatLongColumn(home.value, num);
    assert |home.value| == data.rowCount;
    data.SetColumn(LAT_LONG, latLong);
    WithColumnEffect(stripped, data.rowCount, LAT_LONG, latLong);
    var column := data.Column(LAT_LONG);
    data.SetColumn(WEB_PAGE, WebPageColumn(column.value));
    written := true;
  }
}
