/**
 * `FileParser`: choose a reader by file extension, and turn the rows of a
 * spreadsheet into arrays keyed by the (trimmed, lower-cased) header row.
 * Reading CSV text and spreadsheet files is done by libraries outside this
 * model; their output arrives as parameters.
 */
module FileParser {
  import opened Wrappers
  import opened Strings
  import opened Rows

  datatype Reader = CsvReader | SpreadsheetReader

  const UnsupportedFileType := "Unsupported file type"

  /** The `match` on the extension in `parse` and `parseFromPath`; the comparison is case-sensitive. */
  function ReaderFor(extension: string): (r: Result<Reader, string>)
    ensures r == Ok(CsvReader) <==> extension == "csv"
    ensures r == Ok(SpreadsheetReader) <==> extension == "xlsx" || extension == "xls"
    ensures r.Err? <==> extension !in {"csv", "xlsx", "xls"}
    ensures r.Err? ==> r.error == UnsupportedFileType
  {
    if extension == "csv" then Ok(CsvReader)
    else if extension == "xlsx" || extension == "xls" then Ok(SpreadsheetReader)
    else Err(UnsupportedFileType)
  }

  /** The text after the last occurrence of `c` in `s`, or None when `c` does not occur. */
  function AfterLast(s: string, c: char): (r: Option<string>)
    ensures r.None? <==> c !in s
    ensures r.Some? ==> c !in r.value && exists i :: 0 <= i < |s| && s[i] == c && r.value == s[i + 1..]
    decreases |s|
  {
    if s == [] then None
    else
      match AfterLast(s[1..], c)
      case Some(t) =>
        var i :| 0 <= i < |s[1..]| && s[1..][i] == c && t == s[1..][i + 1..];
        assert s[i + 1] == c && t == s[i + 2..];
        Some(t)
      case None =>
        if s[0] == c then Some(s[1..]) else None
  }

  /** `pathinfo($path, PATHINFO_EXTENSION)`: the part of the last path component after its last dot. */
  function PathExtension(path: string): (r: string)
    ensures '.' !in r && '/' !in r
  {
    var base := AfterLast(path, '/').OrElse(path);
    AfterLast(base, '.').OrElse("")
  }

  lemma {:induction false} AfterLastOf(p: string, c: char, e: string)
    requires c !in e
    ensures AfterLast(p + [c] + e, c) == Some(e)
    decreases |p|
  {
    if p == [] {
      assert [c] + e == p + [c] + e;
      AfterLastAbsent(e, c);
      assert ([c] + e)[1..] == e;
    } else {
      assert (p + [c] + e)[1..] == p[1..] + [c] + e;
      AfterLastOf(p[1..], c, e);
    }
  }

  lemma AfterLastAbsent(s: string, c: char)
    requires c !in s
    ensures AfterLast(s, c) == None
  {
  }

  /** A file named `dir/name.ext` has extension `ext`. */
  lemma ExtensionOfName(dir: string, name: string, ext: string)
    requires '/' !in name && '/' !in ext && '.' !in ext
    ensures PathExtension(dir + "/" + name + "." + ext) == ext
  {
    var path := dir + "/" + name + "." + ext;
    assert path == dir + ['/'] + (name + "." + ext);
    assert '/' !in name + "." + ext;
    AfterLastOf(dir, '/', name + "." + ext);
    assert name + "." + ext == name + ['.'] + ext;
    AfterLastOf(name, '.', ext);
  }

  /**
   * `parse` and `parseFromPath`: the records the CSV reader produced, the
   * rows extracted from the spreadsheet, or the error for any other extension.
   */
  function Parse(extension: string, csvRecords: seq<Row>, sheet: seq<seq<Cell>>): (r: Result<seq<Row>, string>)
    ensures extension == "csv" ==> r == Ok(csvRecords)
    ensures extension == "xlsx" || extension == "xls" ==> r == ExtractedRows(sheet)
    ensures ReaderFor(extension).Err? ==> r == Err(UnsupportedFileType)
  {
    match ReaderFor(extension)
    case Ok(CsvReader) => Ok(csvRecords)
    case Ok(SpreadsheetReader) => ExtractedRows(sheet)
    case Err(e) => Err(e)
  }

  // ------------------------------------------------------------------ extractRows

  /** The header row: every cell trimmed, then lower-cased; a null cell trims to "". */
  function Headers(cells: seq<Cell>): (hs: seq<string>)
    ensures |hs| == |cells|
    ensures forall i :: 0 <= i < |cells| ==> hs[i] == ToLower(Trim(cells[i].OrElse("")))
  {
    if cells == [] then [] else [ToLower(Trim(cells[0].OrElse("")))] + Headers(cells[1..])
  }

  /** `empty(array_filter($rowData))`: every cell is null, "" or "0". */
  predicate Blank(cells: seq<Cell>)
  {
    forall i :: 0 <= i < |cells| ==> cells[i].None? || IsFalsy(cells[i].value)
  }

  const ArrayCombineError := "array_combine(): Argument #1 ($keys) and argument #2 ($values) must have the same number of elements"

  /** The data rows after the header: blank rows skipped, the others combined with the headers. */
  function KeptRows(hs: seq<string>, rows: seq<seq<Cell>>): Result<seq<Row>, string>
  {
    if rows == [] then Ok([])
    else if Blank(rows[0]) then KeptRows(hs, rows[1..])
    else if |rows[0]| != |hs| then Err(ArrayCombineError)
    else
      match KeptRows(hs, rows[1..])
      case Ok(rest) => Ok([Combine(hs, rows[0])] + rest)
      case Err(e) => Err(e)
  }

  function ExtractedRows(sheet: seq<seq<Cell>>): Result<seq<Row>, string>
  {
    if sheet == [] then Ok([]) else KeptRows(Headers(sheet[0]), sheet[1..])
  }

  /** `rows` followed by the rows of `r`, or the error of `r`. */
  function Prepend(rows: seq<Row>, r: Result<seq<Row>, string>): Result<seq<Row>, string>
  {
    match r
    case Ok(rest) => Ok(rows + rest)
    case Err(e) => Err(e)
  }

  lemma PrependStep(hs: seq<string>, rows: seq<Row>, todo: seq<seq<Cell>>)
    requires todo != []
    ensures Blank(todo[0]) ==> Prepend(rows, KeptRows(hs, todo)) == Prepend(rows, KeptRows(hs, todo[1..]))
    ensures !Blank(todo[0]) && |todo[0]| != |hs| ==> Prepend(rows, KeptRows(hs, todo)) == Err(ArrayCombineError)
    ensures !Blank(todo[0]) && |todo[0]| == |hs|
            ==> Prepend(rows, KeptRows(hs, todo)) == Prepend(rows + [Combine(hs, todo[0])], KeptRows(hs, todo[1..]))
  {
    if !Blank(todo[0]) && |todo[0]| == |hs| {
      match KeptRows(hs, todo[1..])
      case Ok(rest) => assert rows + ([Combine(hs, todo[0])] + rest) == rows + [Combine(hs, todo[0])] + rest;
      case Err(_) =>
    }
  }

  /** The loop of `extractRows`: the first row gives the headers, each later row is skipped or appended. */
  method ExtractRows(sheet: seq<seq<Cell>>) returns (r: Result<seq<Row>, string>)
    ensures r == ExtractedRows(sheet)
  {
    var rows: seq<Row> := [];
    var headers: seq<string> := [];
    var index := 0;
    while index < |sheet|
      invariant 0 <= index <= |sheet|
      invariant index == 0 ==> rows == []
      invariant index > 0 ==> headers == Headers(sheet[0])
      invariant index > 0 ==> ExtractedRows(sheet) == Prepend(rows, KeptRows(headers, sheet[index..]))
    {
      var rowData := sheet[index];
      if index == 0 {
        headers := Headers(rowData);
        assert ExtractedRows(sheet) == Prepend([], KeptRows(headers, sheet[1..])) by {
          match KeptRows(headers, sheet[1..])
          case Ok(rest) => assert [] + rest == rest;
          case Err(_) =>
        }
      } else {
        PrependStep(headers, rows, sheet[index..]);
        if Blank(rowData) {
        } else if |rowData| != |headers| {
          return Err(ArrayCombineError);
        } else {
          rows := rows + [Combine(headers, rowData)];
        }
      }
      assert sheet[index..][1..] == sheet[index + 1..];
      index := index + 1;
    }
    if index == 0 {
      return Ok([]);
    }
    assert sheet[index..] == [];
    assert rows + [] == rows;
    return Ok(rows);
  }

  function CountBlank(rows: seq<seq<Cell>>): (n: nat)
    ensures n <= |rows|
  {
    if rows == [] then 0 else (if Blank(rows[0]) then 1 else 0) + CountBlank(rows[1..])
  }

  /**
   * When extraction succeeds there is one output row per non-blank data
   * row, in order, each the header/cell pairing of its input row.
   */
  lemma {:induction false} KeptRowsShape(hs: seq<string>, rows: seq<seq<Cell>>)
    requires KeptRows(hs, rows).Ok?
    ensures |KeptRows(hs, rows).value| == |rows| - CountBlank(rows)
    ensures forall k :: 0 <= k < |KeptRows(hs, rows).value| ==>
              exists i :: 0 <= i < |rows| && !Blank(rows[i]) && |rows[i]| == |hs|
                          && KeptRows(hs, rows).value[k] == Combine(hs, rows[i])
    decreases |rows|
  {
    if rows != [] {
      KeptRowsShape(hs, rows[1..]);
      var out := KeptRows(hs, rows).value;
      var tail := KeptRows(hs, rows[1..]).value;
      forall k | 0 <= k < |out|
        ensures exists i :: 0 <= i < |rows| && !Blank(rows[i]) && |rows[i]| == |hs| && out[k] == Combine(hs, rows[i])
      {
        if Blank(rows[0]) || k > 0 {
          var k' := if Blank(rows[0]) then k else k - 1;
          assert out[k] == tail[k'];
          var i :| 0 <= i < |rows[1..]| && !Blank(rows[1..][i]) && |rows[1..][i]| == |hs| && tail[k'] == Combine(hs, rows[1..][i]);
          assert rows[i + 1] == rows[1..][i];
        } else {
          assert out[0] == Combine(hs, rows[0]);
        }
      }
    }
  }

  /** Extraction fails only on a non-blank data row whose width differs from the header row. */
  lemma {:induction false} KeptRowsFails(hs: seq<string>, rows: seq<seq<Cell>>)
    ensures KeptRows(hs, rows).Err? <==> exists i :: 0 <= i < |rows| && !Blank(rows[i]) && |rows[i]| != |hs|
    decreases |rows|
  {
    if rows != [] {
      KeptRowsFails(hs, rows[1..]);
      if exists i :: 1 <= i < |rows| && !Blank(rows[i]) && |rows[i]| != |hs| {
        var i :| 1 <= i < |rows| && !Blank(rows[i]) && |rows[i]| != |hs|;
        assert rows[1..][i - 1] == rows[i];
      }
      if exists i :: 0 <= i < |rows[1..]| && !Blank(rows[1..][i]) && |rows[1..][i]| != |hs| {
        var i :| 0 <= i < |rows[1..]| && !Blank(rows[1..][i]) && |rows[1..][i]| != |hs|;
        assert rows[i + 1] == rows[1..][i];
      }
    }
  }
}
