/** The product dashboard: what it derives from the list of rows fetched from the
    server (totals, the low-stock alert list, the bar chart's data) and the text of its
    CSV and PDF exports. Drawing the chart and writing the files are left to libraries. */
module Dashboard {
  import opened Options
  import opened Seqs
  import opened JsStrings
  import opened JsNumbers
  import opened Rows

  /** Bar colour of a product at or below its minimum stock. */
  const LowStockColour: string := "#dc3545"
  /** Bar colour of every other product. */
  const StockColour: string := "#3c8a7f"
  /** The single colour of the minimum-stock bars. */
  const MinStockColour: string := "#32dac3"

  /** `lowStockProducts`: the products with `quantity <= minstock`, in list order. */
  function LowStockProducts(list: seq<Row>): (r: seq<Row>)
    ensures IsSubsequence(r, list)
    ensures forall p :: p in r <==> p in list && IsLowStock(p)
  {
    Filter(IsLowStock, list)
  }

  /** `lowStockCount`, which never exceeds `totalProducts`, the length of the list. */
  function LowStockCount(list: seq<Row>): (n: nat)
    ensures n <= |list|
    ensures n == 0 <==> forall p :: p in list ==> !IsLowStock(p)
  {
    var low := LowStockProducts(list);
    assert low != [] ==> low[0] in low;
    |low|
  }

  /** A dataset of the bar chart. */
  datatype Dataset = Dataset(title: string, data: seq<Option<int>>, background: Background)

  /** `backgroundColor`: one colour per bar, or one colour for all of them. */
  datatype Background = PerBar(colours: seq<string>) | Uniform(colour: string)

  /** `chartData`. */
  datatype ChartData = ChartData(labels: seq<string>, datasets: seq<Dataset>)

  /** The colour of each quantity bar, parallel to the list: red exactly for the
      low-stock products. */
  function BarColours(list: seq<Row>): (r: seq<string>)
    ensures |r| == |list|
    ensures forall i :: 0 <= i < |list| ==>
              (r[i] == LowStockColour <==> IsLowStock(list[i])) &&
              (r[i] == StockColour <==> !IsLowStock(list[i]))
  {
    seq(|list|, i requires 0 <= i < |list| =>
      if IsLowStock(list[i]) then LowStockColour else StockColour)
  }

  /** `chartData`: labels, quantities, bar colours and minimum stocks, each with one
      entry per product, index-aligned with the list. */
  function Chart(list: seq<Row>): (c: ChartData)
    ensures |c.labels| == |list| && |c.datasets| == 2
    ensures forall k :: 0 <= k < 2 ==> |c.datasets[k].data| == |list|
    ensures forall i :: 0 <= i < |list| ==>
              c.labels[i] == list[i].name &&
              c.datasets[0].data[i] == list[i].quantity &&
              c.datasets[1].data[i] == list[i].minstock
    ensures c.datasets[0].background == PerBar(BarColours(list))
    ensures c.datasets[1].background == Uniform(MinStockColour)
  {
    ChartData(
      seq(|list|, i requires 0 <= i < |list| => list[i].name),
      [Dataset("Quantidade", seq(|list|, i requires 0 <= i < |list| => list[i].quantity),
               PerBar(BarColours(list))),
       Dataset("Estoque mínimo", seq(|list|, i requires 0 <= i < |list| => list[i].minstock),
               Uniform(MinStockColour))])
  }

  /** The number of red quantity bars is the low-stock count shown on the card. */
  lemma {:induction false} RedBarsAreLowStockCount(list: seq<Row>)
    ensures |Filter(c => c == LowStockColour, BarColours(list))| == LowStockCount(list)
    decreases |list|
  {
    if list != [] {
      RedBarsAreLowStockCount(list[1..]);
      var colours := BarColours(list);
      assert colours[1..] == BarColours(list[1..]);
      assert colours[0] == LowStockColour <==> IsLowStock(list[0]);
    }
  }

  /** The header row shared by the CSV file and the PDF table. */
  const Header: seq<string> := ["ID", "Nome", "Unidade", "Categoria", "Quantidade", "Estoque mínimo"]

  /** The exported fields of a product, in column order, as text: id, name, unit,
      category, quantity, minimum stock; a null number is empty. */
  function ExportFields(p: Row): (f: seq<string>)
    ensures |f| == |Header|
    ensures f[1] == p.name && f[2] == p.unit && f[3] == p.category
  {
    [IntToString(p.id), p.name, p.unit, p.category, ColumnText(p.quantity), ColumnText(p.minstock)]
  }

  /** `Number` of each exported numeric field gives the product's number back
      (0 for a null column, as `Number(null)` is 0). */
  lemma ExportedNumbersReadBack(p: Row)
    ensures StringToNumber(ExportFields(p)[0]) == Some(p.id)
    ensures StringToNumber(ExportFields(p)[4]) == ToNumber(Column(p.quantity))
    ensures StringToNumber(ExportFields(p)[5]) == ToNumber(Column(p.minstock))
  {
    IntToStringRoundTrip(p.id);
    ColumnTextNumber(p.quantity);
    ColumnTextNumber(p.minstock);
  }

  /** A product with no separator in its text fields exports fields that hold neither
      separator: the numeric fields are made of digits and minus signs only. */
  lemma ExportFieldsAvoidSeparators(p: Row)
    requires CsvSafe(p)
    ensures forall j :: 0 <= j < |ExportFields(p)| ==>
              ',' !in ExportFields(p)[j] && '\n' !in ExportFields(p)[j]
  {
    var f := ExportFields(p);
    forall j | 0 <= j < |f| ensures ',' !in f[j] && '\n' !in f[j] {
      if j == 0 || j == 4 || j == 5 {
        assert forall i :: 0 <= i < |f[j]| ==> IsDigit(f[j][i]) || f[j][i] == '-';
      }
    }
  }

  /** The rows of the CSV file: the header, then one row per product. */
  function CsvRows(list: seq<Row>): (rows: seq<seq<string>>)
    ensures |rows| == |list| + 1 && rows[0] == Header
    ensures forall i :: 0 <= i < |list| ==> rows[i + 1] == ExportFields(list[i])
  {
    [Header] + seq(|list|, i requires 0 <= i < |list| => ExportFields(list[i]))
  }

  /** The text built by `exportCSV`: fields joined with `,`, rows with a line feed,
      with no quoting or escaping. */
  function Csv(list: seq<Row>): string
  {
    var rows := CsvRows(list);
    Join(seq(|rows|, i requires 0 <= i < |rows| => Join(rows[i], ',')), '\n')
  }

  /** Reading a CSV text back by the same rules: split into lines, then into fields. */
  function ParseCsv(text: string): (rows: seq<seq<string>>)
    ensures |rows| >= 1
  {
    var lines := Split(text, '\n');
    seq(|lines|, i requires 0 <= i < |lines| => Split(lines[i], ','))
  }

  /** No text field of the product contains the field or the row separator. */
  predicate CsvSafe(p: Row)
  {
    ',' !in p.name && '\n' !in p.name && ',' !in p.unit && '\n' !in p.unit &&
    ',' !in p.category && '\n' !in p.category
  }

  /** When no text field contains `,` or a line feed, reading the exported CSV back gives
      the header and one six-field row per product. */
  lemma CsvRoundTrip(list: seq<Row>)
    requires forall p :: p in list ==> CsvSafe(p)
    ensures ParseCsv(Csv(list)) == CsvRows(list)
  {
    var rows := CsvRows(list);
    forall k, j | 0 <= k < |rows| && 0 <= j < |rows[k]|
      ensures ',' !in rows[k][j] && '\n' !in rows[k][j]
    {
      if k > 0 {
        assert list[k - 1] in list;
        ExportFieldsAvoidSeparators(list[k - 1]);
      }
    }
    var lines := seq(|rows|, i requires 0 <= i < |rows| => Join(rows[i], ','));
    forall k | 0 <= k < |rows| ensures '\n' !in lines[k] && Split(lines[k], ',') == rows[k] {
      JoinAvoids(rows[k], ',', '\n');
      SplitJoin(rows[k], ',');
    }
    SplitJoin(lines, '\n');
  }

  /** Every field read back from a CSV text is free of both separators. */
  lemma ParsedFieldsHaveNoSeparators(text: string)
    ensures forall k, j :: 0 <= k < |ParseCsv(text)| && 0 <= j < |ParseCsv(text)[k]| ==>
              ',' !in ParseCsv(text)[k][j] && '\n' !in ParseCsv(text)[k][j]
  {
    var lines := Split(text, '\n');
    forall k, j | 0 <= k < |lines| && 0 <= j < |Split(lines[k], ',')|
      ensures ',' !in Split(lines[k], ',')[j] && '\n' !in Split(lines[k], ',')[j]
    {
    }
  }

  /** The export reads back exactly when no product has `,` or a line feed in a text
      field: a product that has one is read back with its fields split or its line broken. */
  lemma CsvRoundTripIff(list: seq<Row>)
    ensures ParseCsv(Csv(list)) == CsvRows(list) <==> forall p :: p in list ==> CsvSafe(p)
  {
    if forall p :: p in list ==> CsvSafe(p) {
      CsvRoundTrip(list);
    } else {
      var i :| 0 <= i < |list| && !CsvSafe(list[i]);
      var rows := CsvRows(list);
      assert rows[i + 1][1] == list[i].name && rows[i + 1][2] == list[i].unit &&
             rows[i + 1][3] == list[i].category;
      ParsedFieldsHaveNoSeparators(Csv(list));
    }
  }

  /** A section of the PDF table. */
  datatype Section = Head | Body | Foot

  /** The text colour given to a highlighted cell. */
  const HighlightColour: seq<int> := [211, 40, 40]

  /** The body of the PDF table: one row of cell texts per product. */
  function TableData(list: seq<Row>): (rows: seq<seq<string>>)
    ensures |rows| == |list|
    ensures forall i :: 0 <= i < |list| ==> rows[i] == ExportFields(list[i])
  {
    seq(|list|, i requires 0 <= i < |list| => ExportFields(list[i]))
  }

  /** The text colour `didParseCell` sets on a cell, or `None` when it leaves the cell
      alone: only the quantity column of the body is examined, and a cell is coloured when
      `Number` of its text is at most `Number` of the row's `minstock`. */
  function CellTextColour(list: seq<Row>, section: Section, row: nat, column: nat): Option<seq<int>>
    requires section == Body && column == 4 ==> row < |list|
  {
    if section == Body && column == 4 &&
       LessEq(Text(TableData(list)[row][4]), Column(list[row].minstock))
    then Some(HighlightColour)
    else None
  }

  /** `Number` of the quantity cell's text is the quantity (0 when it is null). */
  lemma QuantityCellNumber(list: seq<Row>, row: nat)
    requires row < |list|
    ensures ToNumber(Text(TableData(list)[row][4])) == ToNumber(Column(list[row].quantity))
  {
    ExportedNumbersReadBack(list[row]);
    assert TableData(list)[row] == ExportFields(list[row]);
  }

  /** The PDF colours a cell only in the quantity column of the body, and there
      exactly for the low-stock products. */
  lemma PdfHighlightIsLowStock(list: seq<Row>, section: Section, row: nat, column: nat)
    requires section == Body && column == 4 ==> row < |list|
    ensures CellTextColour(list, section, row, column).Some? <==>
            section == Body && column == 4 && IsLowStock(list[row])
  {
    if section == Body && column == 4 {
      QuantityCellNumber(list, row);
      assert CellTextColour(list, Body, row, 4).Some? ==
             LessEq(Text(TableData(list)[row][4]), Column(list[row].minstock));
    }
  }
}
