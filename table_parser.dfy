/** `Collector.parse_table`: from a table's rows of cell texts to row records. */
module TableParser {
  import opened Outcomes
  import opened Dicts
  import Text

  /** A `<table>` as the HTML parser presents it: the text of its first `<th>`, if
      it has one, and for each `<tr>` the texts of its `<td>` cells, in order. */
  datatype Table = Table(th: Option<string>, rows: seq<seq<string>>)

  /** The rows that have at least one `<td>`, in table order. */
  function CellRows(trs: seq<seq<string>>): (r: seq<seq<string>>)
    ensures |r| <= |trs|
    ensures forall i :: 0 <= i < |r| ==> |r[i]| > 0
  {
    if |trs| == 0 then []
    else CellRows(trs[..|trs| - 1]) + (if |trs[|trs| - 1]| > 0 then [trs[|trs| - 1]] else [])
  }

  /** Skipping rows without cells keeps the order: it distributes over concatenation. */
  lemma {:induction false} CellRowsAppend(a: seq<seq<string>>, b: seq<seq<string>>)
    ensures CellRows(a + b) == CellRows(a) + CellRows(b)
    decreases |b|
  {
    if |b| > 0 {
      var b' := b[..|b| - 1];
      assert (a + b)[..|a + b| - 1] == a + b';
      CellRowsAppend(a, b');
    } else {
      assert a + b == a;
    }
  }

  /** No row that has cells is lost. */
  lemma {:induction false} CellRowsKeep(trs: seq<seq<string>>, i: nat)
    requires i < |trs| && |trs[i]| > 0
    ensures trs[i] in CellRows(trs)
  {
    if i < |trs| - 1 {
      CellRowsKeep(trs[..|trs| - 1], i);
    }
  }

  /** The header row's cells, each passed through headerify. */
  function HeaderNames(cells: seq<string>): (names: seq<string>)
    ensures |names| == |cells|
    ensures forall i :: 0 <= i < |cells| ==> names[i] == Text.Headerify(cells[i])
  {
    seq(|cells|, i requires 0 <= i < |cells| => Text.Headerify(cells[i]))
  }

  /** Each cell's text, trimmed (`cell.text.strip()`). */
  function Trimmed(cells: seq<string>): (texts: seq<string>)
    ensures |texts| == |cells|
    ensures forall i :: 0 <= i < |cells| ==> texts[i] == Text.Strip(cells[i])
  {
    seq(|cells|, i requires 0 <= i < |cells| => Text.Strip(cells[i]))
  }

  /** The state of parse_table's loop: the header names, empty until the first row
      with cells, and the records built so far. */
  datatype Parse = Parse(headers: seq<string>, result: seq<Dict>)

  /** The loop of parse_table over the given `<tr>`s: a row without cells is
      skipped, the first row with cells names the columns, and every later one
      becomes a record zipped against those names. */
  function ParseRows(trs: seq<seq<string>>): Parse
    decreases |trs|
  {
    if |trs| == 0 then Parse([], [])
    else
      var p := ParseRows(trs[..|trs| - 1]);
      var cells := trs[|trs| - 1];
      if |cells| == 0 then p
      else if |p.headers| == 0 then Parse(HeaderNames(cells), p.result)
      else Parse(p.headers, p.result + [Zip(p.headers, Trimmed(cells))])
  }

  /** What parse_table returns. */
  function ParsedRows(trs: seq<seq<string>>): seq<Dict>
  {
    ParseRows(trs).result
  }

  /** Each row of cells zipped against the headers. */
  function Records(headers: seq<string>, rows: seq<seq<string>>): (records: seq<Dict>)
    ensures |records| == |rows|
    ensures forall i :: 0 <= i < |rows| ==> records[i] == Zip(headers, Trimmed(rows[i]))
  {
    seq(|rows|, i requires 0 <= i < |rows| => Zip(headers, Trimmed(rows[i])))
  }

  /** One record per row with cells after the header row, in order, each zipped
      against the header names. */
  lemma ParsedRowsShape(trs: seq<seq<string>>)
    ensures |ParsedRows(trs)| == if |CellRows(trs)| == 0 then 0 else |CellRows(trs)| - 1
    ensures forall i :: 0 <= i < |ParsedRows(trs)| ==>
              ParsedRows(trs)[i] == Zip(HeaderNames(CellRows(trs)[0]), Trimmed(CellRows(trs)[i + 1]))
    ensures forall i :: 0 <= i < |ParsedRows(trs)| ==> ParsedRows(trs)[i].Valid()
  {
    ParseRowsCells(trs);
    var cellRows := CellRows(trs);
    if |cellRows| > 0 {
      forall j | 1 <= j < |cellRows|
        ensures Zip(HeaderNames(cellRows[0]), Trimmed(cellRows[j])).Valid()
      {
        ZipValid(HeaderNames(cellRows[0]), Trimmed(cellRows[j]), "");
      }
    }
  }

  /** The loop's state, described by the rows with cells alone: no headers and no
      records while there is none, otherwise the first one's header names and the
      later ones' records. */
  lemma {:induction false} ParseRowsCells(trs: seq<seq<string>>)
    ensures var cellRows := CellRows(trs);
            ParseRows(trs) == if |cellRows| == 0 then Parse([], [])
                              else Parse(HeaderNames(cellRows[0]), Records(HeaderNames(cellRows[0]), cellRows[1..]))
    decreases |trs|
  {
    if |trs| > 0 {
      var n := |trs| - 1;
      ParseRowsCells(trs[..n]);
      ParseRowsCellsStep(trs);
    }
  }

  lemma ParseRowsCellsStep(trs: seq<seq<string>>)
    requires |trs| > 0
    requires var cellRows := CellRows(trs[..|trs| - 1]);
             ParseRows(trs[..|trs| - 1]) == if |cellRows| == 0 then Parse([], [])
                                            else Parse(HeaderNames(cellRows[0]), Records(HeaderNames(cellRows[0]), cellRows[1..]))
    ensures var cellRows := CellRows(trs);
            ParseRows(trs) == if |cellRows| == 0 then Parse([], [])
                              else Parse(HeaderNames(cellRows[0]), Records(HeaderNames(cellRows[0]), cellRows[1..]))
  {
    var n := |trs| - 1;
    var cells, cellRows' := trs[n], CellRows(trs[..n]);
    CellRowsStep(trs, n);
    assert trs[..n + 1] == trs;
    ParseRowsStep(trs);
    if |cells| > 0 {
      var cellRows := cellRows' + [cells];
      if |cellRows'| == 0 {
        assert cellRows[1..] == [];
        assert Records(HeaderNames(cells), []) == [];
      } else {
        var h := HeaderNames(cellRows'[0]);
        assert |h| > 0;
        assert cellRows[0] == cellRows'[0];
        TailSnoc(cellRows', cells);
        RecordsSnoc(h, cellRows'[1..], cells);
      }
    }
  }

  /** One more `<tr>`, in terms of the loop's state before it. */
  lemma ParseRowsStep(trs: seq<seq<string>>)
    requires |trs| > 0
    ensures var p, cells := ParseRows(trs[..|trs| - 1]), trs[|trs| - 1];
            ParseRows(trs) == if |cells| == 0 then p
                              else if |p.headers| == 0 then Parse(HeaderNames(cells), p.result)
                              else Parse(p.headers, p.result + [Zip(p.headers, Trimmed(cells))])
  {
  }

  /** One more `<tr>` adds itself to the rows with cells exactly when it has cells. */
  lemma {:induction false} CellRowsStep(trs: seq<seq<string>>, i: nat)
    requires i < |trs|
    ensures |trs[i]| == 0 ==> CellRows(trs[..i + 1]) == CellRows(trs[..i])
    ensures |trs[i]| > 0 ==> CellRows(trs[..i + 1]) == CellRows(trs[..i]) + [trs[i]]
  {
    assert trs[..i + 1][..i] == trs[..i];
    if |trs[i]| == 0 {
      assert CellRows(trs[..i]) + [] == CellRows(trs[..i]);
    }
  }

  lemma TailSnoc<T>(s: seq<T>, x: T)
    requires |s| > 0
    ensures (s + [x])[1..] == s[1..] + [x]
  {
  }

  /** One more row of cells adds one record at the end. */
  lemma {:induction false} RecordsSnoc(headers: seq<string>, rows: seq<seq<string>>, r: seq<string>)
    ensures Records(headers, rows + [r]) == Records(headers, rows) + [Zip(headers, Trimmed(r))]
  {
    var a, b := Records(headers, rows + [r]), Records(headers, rows) + [Zip(headers, Trimmed(r))];
    assert |a| == |b|;
    forall i | 0 <= i < |a| ensures a[i] == b[i] {
      if i < |rows| {
        assert (rows + [r])[i] == rows[i];
      }
    }
  }

  /** `Collector.parse_table`, step by step as the source loops over `<tr>`s. */
  method ParseTable(trs: seq<seq<string>>) returns (result: seq<Dict>)
    ensures result == ParsedRows(trs)
  {
    result := [];
    var headers: seq<string> := [];
    for i := 0 to |trs|
      invariant ParseRows(trs[..i]) == Parse(headers, result)
    {
      assert trs[..i + 1][..i] == trs[..i];
      var cells := trs[i];
      if |cells| == 0 {
        continue;
      }
      if |headers| == 0 {
        headers := HeaderRow(cells);
      } else {
        var row := ZipCells(headers, cells);
        result := result + [row];
      }
    }
    assert trs[..|trs|] == trs;
  }

  /** The `for cell in cells: headers.append(headerify(cell.text))` loop of parse_table. */
  method HeaderRow(cells: seq<string>) returns (headers: seq<string>)
    ensures headers == HeaderNames(cells)
  {
    headers := [];
    for j := 0 to |cells|
      invariant |headers| == j
      invariant forall k :: 0 <= k < j ==> headers[k] == Text.Headerify(cells[k])
    {
      headers := headers + [Text.Headerify(cells[j])];
    }
  }

  /** The inner `for header, cell in zip(headers, cells)` loop of parse_table. */
  method ZipCells(headers: seq<string>, cells: seq<string>) returns (row: Dict)
    ensures row == Zip(headers, Trimmed(cells))
  {
    row := Empty;
    var texts := Trimmed(cells);
    var n := Min(|headers|, |cells|);
    for j := 0 to n
      invariant row == Zip(headers[..j], texts[..j])
    {
      ZipSnoc(headers, texts, j);
      row := Put(row, headers[j], texts[j]);
    }
    ZipPrefix(headers, texts);
  }
}
