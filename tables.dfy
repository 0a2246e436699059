/**
 * Tables extracted from the purchase order and the selection of the ones
 * whose header row carries the three required column labels
 * (`find_target_tables`).
 */
module Tables {
  import opened Wrappers
  import opened Text
  import opened Seqs

  /** One cell as the PDF extractor delivers it: no value, or a string. */
  datatype Cell = Empty | Text(s: string)

  type Row = seq<Cell>

  /** A table is its rows; row 0 is the header. */
  type Table = seq<Row>

  /** The required column labels: item name, specification, quantity. */
  const NameLabel: string := "货品名称"
  const SpecLabel: string := "规格"
  const QuantityLabel: string := "数量"

  /** `str(cell).strip() if cell else ''`. */
  function CellText(c: Cell): (r: string)
    ensures r == [] || (!IsSpace(r[0]) && !IsSpace(r[|r| - 1]))
  {
    match c
    case Empty => []
    case Text(s) => Strip(s)
  }

  /** The normalised header row of a non-empty table. */
  function HeaderOf(t: Table): (h: seq<string>)
    requires t != []
  {
    CellTexts(t[0])
  }

  /** The normalised cells of a row, `[str(c).strip() if c else '' for c in row]`. */
  function CellTexts(row: Row): (r: seq<string>)
    ensures |r| == |row|
    ensures forall k :: 0 <= k < |row| ==> r[k] == CellText(row[k])
    decreases |row|
  {
    if row == [] then [] else [CellText(row[0])] + CellTexts(row[1..])
  }

  predicate HasRequiredLabels(h: seq<string>) {
    NameLabel in h && SpecLabel in h && QuantityLabel in h
  }

  /** A qualifying table: non-empty, with all three labels in its normalised header. */
  predicate Qualifies(t: Table) {
    t != [] && HasRequiredLabels(HeaderOf(t))
  }

  /** The qualifying tables, in their original order. */
  function Qualifying(ts: seq<Table>): seq<Table> {
    Filter(Qualifies, ts)
  }

  /**
   * `find_target_tables`: keep the qualifying tables in order, and the
   * normalised header of the first one (None when there is none).
   */
  method FindTargetTables(tables: seq<Table>) returns (targets: seq<Table>, headers: Option<seq<string>>)
    ensures targets == Qualifying(tables)
    ensures forall t :: t in targets ==> Qualifies(t)
    ensures targets == [] ==> headers.None?
    ensures targets != [] ==> targets[0] != [] && headers == Some(HeaderOf(targets[0]))
  {
    targets := [];
    headers := None;
    for i := 0 to |tables|
      invariant targets == Qualifying(tables[..i])
      invariant targets == [] ==> headers.None?
      invariant targets != [] ==> targets[0] != [] && headers == Some(HeaderOf(targets[0]))
    {
      FilterSnoc(Qualifies, tables, i);
      targets, headers := ConsiderTable(tables[i], targets, headers);
    }
    assert tables[..|tables|] == tables;
    FilterMembers(Qualifies, tables);
  }

  /** One iteration of `find_target_tables`: keep a qualifying table, and its header if none was kept yet. */
  method ConsiderTable(table: Table, targets: seq<Table>, headers: Option<seq<string>>)
    returns (targets': seq<Table>, headers': Option<seq<string>>)
    ensures targets' == targets + (if Qualifies(table) then [table] else [])
    ensures headers' == if Qualifies(table) && headers.None? then Some(HeaderOf(table)) else headers
  {
    targets', headers' := targets, headers;
    if table != [] {
      var currentHeaders := HeaderOf(table);
      if HasRequiredLabels(currentHeaders) {
        targets' := targets' + [table];
        if headers'.None? {
          headers' := Some(currentHeaders);
        }
      }
    }
  }

  /** `headers.index(label)`: the first position of a label that occurs. */
  function IndexOf(h: seq<string>, s: string): (i: nat)
    requires s in h
    ensures i < |h| && h[i] == s
    ensures forall k :: 0 <= k < i ==> h[k] != s
    decreases |h|
  {
    if h[0] == s then 0 else 1 + IndexOf(h[1..], s)
  }
}
