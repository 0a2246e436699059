/**
 * The label sequencer of `create_pdf_from_pdf`: every usable data row of every
 * selected table becomes one label per unit of its quantity, numbered by one
 * counter that runs across all rows and tables. A label stands for the four
 * paragraphs and the page break the renderer emits per unit.
 */
module Labels {
  import opened Wrappers
  import opened Text
  import opened Seqs
  import opened Tables
  import opened SpecCleaning
  import opened NameSummary
  import opened FontSize
  import opened StartIdentifier

  /** Positions of the name, specification and quantity columns. */
  datatype Columns = Columns(name: nat, spec: nat, quantity: nat)

  /** A usable data row: summarised name, cleaned spec, raw quantity text and its parsed count. */
  datatype Item = Item(name: string, spec: string, quantityText: string, count: int)

  /** One label page: name, spec, fraction text "i/N", serial "PREFIX-NN", and the page's font size. */
  datatype Label = Label(name: string, spec: string, fraction: string, serial: string, fontSize: int)

  /** `max(name_idx, spec_idx, quantity_idx)`. */
  function MaxIndex(cols: Columns): (r: nat)
    ensures cols.name <= r && cols.spec <= r && cols.quantity <= r
    ensures r == cols.name || r == cols.spec || r == cols.quantity
  {
    if cols.name >= cols.spec && cols.name >= cols.quantity then cols.name
    else if cols.spec >= cols.quantity then cols.spec
    else cols.quantity
  }

  /** `headers.index(...)` of the three labels in a qualifying header. */
  function ColumnsOf(h: seq<string>): (cols: Columns)
    requires HasRequiredLabels(h)
    ensures cols.name < |h| && h[cols.name] == NameLabel
    ensures cols.spec < |h| && h[cols.spec] == SpecLabel
    ensures cols.quantity < |h| && h[cols.quantity] == QuantityLabel
  {
    Columns(IndexOf(h, NameLabel), IndexOf(h, SpecLabel), IndexOf(h, QuantityLabel))
  }

  /** `int(quantity)`, or 1 when that raises ValueError. */
  function ParseQuantity(quantity: string): int {
    match ParseInt(quantity)
    case Some(n) => n
    case None => 1
  }

  /** `range(n)` has max(n, 0) elements. */
  function Units(n: int): nat {
    if n < 0 then 0 else n
  }

  /** The row's item, or None when the row is skipped. */
  function RowItem(row: Row, cols: Columns): Option<Item> {
    if row == [] || |row| <= MaxIndex(cols) then None
    else
      var name := CellText(row[cols.name]);
      var spec := CellText(row[cols.spec]);
      var quantity := CellText(row[cols.quantity]);
      if name == [] || quantity == [] then None
      else Some(Item(SummarizeText(name, DefaultMaxWords), CleanSpec(spec), quantity, ParseQuantity(quantity)))
  }

  /**
   * A row yields an item exactly when it reaches every required column and
   * its name and quantity cells are non-empty after stripping. The item's
   * name is the cell's first ten words, its spec holds no full-width colon,
   * its quantity text is the stripped cell, and its count is that text as an
   * integer, or 1 when it is not one.
   */
  lemma RowItemSpec(row: Row, cols: Columns)
    ensures RowItem(row, cols).Some? <==>
      |row| > MaxIndex(cols) && CellText(row[cols.name]) != [] && CellText(row[cols.quantity]) != []
    ensures RowItem(row, cols).Some? ==>
      var item := RowItem(row, cols).value;
      var words := Words(CellText(row[cols.name]));
      Words(item.name) == words[..if |words| <= DefaultMaxWords then |words| else DefaultMaxWords] &&
      FullWidthColon !in item.spec &&
      item.quantityText == CellText(row[cols.quantity]) &&
      item.count == (if ParseInt(item.quantityText).Some? then ParseInt(item.quantityText).value else 1)
  {
    if RowItem(row, cols).Some? {
      SummarizeTextWords(CellText(row[cols.name]), DefaultMaxWords);
      CleanSpecNoColon(CellText(row[cols.spec]));
    }
  }

  /** A quantity written as an integer counts that many units. */
  lemma ParseQuantityString(n: int)
    ensures ParseQuantity(IntString(n)) == n
  {
    ParseIntString(n);
  }

  /** `table[1:]`: the data rows. */
  function Body(t: Table): seq<Row> {
    if t == [] then [] else t[1..]
  }

  /** `f"{prefix}-{n:02d}"`. */
  function Serial(prefix: string, n: nat): string {
    prefix + "-" + TwoDigits(n)
  }

  /** `f"{i}/{n}"`. */
  function Fraction(i: int, n: int): string {
    IntString(i) + "/" + IntString(n)
  }

  /** `str(n)` never holds a slash. */
  lemma IntStringNoSlash(n: int)
    ensures '/' !in IntString(n)
  {
    var d := if n < 0 then -n else n;
    DecimalSpec(d);
    forall k | 0 <= k < |Decimal(d)|
      ensures Decimal(d)[k] != '/'
    {
      assert IsDigit(Decimal(d)[k]);
    }
  }

  /** The fraction text splits at its slash into the two numbers, which read back as written. */
  lemma FractionParts(i: int, n: int)
    ensures Split(Fraction(i, n), '/') == [IntString(i), IntString(n)]
    ensures ParseInt(IntString(i)) == Some(i) && ParseInt(IntString(n)) == Some(n)
  {
    IntStringNoSlash(i);
    IntStringNoSlash(n);
    var parts := [IntString(i), IntString(n)];
    assert Join(parts, '/') == Fraction(i, n) by {
      assert parts[1..] == [IntString(n)];
    }
    SplitJoin(parts, '/');
    ParseIntString(i);
    ParseIntString(n);
  }

  /** The font size computed for an item's page. */
  function ItemFontSize(item: Item, m: Metrics): int {
    FittedSize(m, item.name, item.spec, item.quantityText, StartSize)
  }

  /** The labels of one item, `range(quantity_num)`, numbered from `counter`. */
  function UnitLabels(item: Item, m: Metrics, prefix: string, counter: nat): (ls: seq<Label>)
    ensures |ls| == Units(item.count)
  {
    seq(Units(item.count), (i: nat) =>
      Label(item.name, item.spec, Fraction(i + 1, item.count), Serial(prefix, counter + i), ItemFontSize(item, m)))
  }

  /** The labels of one data row, numbered from `counter`; none when the row is skipped. */
  function RowLabels(row: Row, cols: Columns, m: Metrics, prefix: string, counter: nat): seq<Label> {
    match RowItem(row, cols)
    case None => []
    case Some(item) => UnitLabels(item, m, prefix, counter)
  }

  /**
   * The labels of the first `n` elements of `xs`, where `f(x, c)` gives the
   * labels of one element numbered from `c`, and each element's labels are
   * numbered from where the earlier elements' labels stopped.
   */
  function Numbered<X>(xs: seq<X>, n: nat, f: (X, nat) -> seq<Label>, start: nat): seq<Label>
    requires n <= |xs|
  {
    if n == 0 then []
    else
      var before := Numbered(xs, n - 1, f, start);
      before + f(xs[n - 1], start + |before|)
  }

  /** One more element is numbered from where the earlier elements stopped. */
  lemma NumberedStep<X>(xs: seq<X>, n: nat, f: (X, nat) -> seq<Label>, start: nat, next: nat)
    requires n < |xs|
    requires next == start + |Numbered(xs, n, f, start)|
    ensures Numbered(xs, n + 1, f, start) == Numbered(xs, n, f, start) + f(xs[n], next)
  {
  }

  /** `RowLabels` as a function of the row and the counter. */
  function RowLabeller(cols: Columns, m: Metrics, prefix: string): (Row, nat) -> seq<Label> {
    (row: Row, c: nat) => RowLabels(row, cols, m, prefix, c)
  }

  /** The labels of one table's data rows. */
  function TableLabels(t: Table, cols: Columns, m: Metrics, prefix: string, counter: nat): seq<Label> {
    var rows := Body(t);
    Numbered(rows, |rows|, RowLabeller(cols, m, prefix), counter)
  }

  /** `TableLabels` as a function of the table and the counter. */
  function TableLabeller(cols: Columns, m: Metrics, prefix: string): (Table, nat) -> seq<Label> {
    (t: Table, c: nat) => TableLabels(t, cols, m, prefix, c)
  }

  /** All labels of the selected tables, numbered from `start`. */
  function LabelsOf(tables: seq<Table>, cols: Columns, prefix: string, start: nat, m: Metrics): seq<Label> {
    Numbered(tables, |tables|, TableLabeller(cols, m, prefix), start)
  }

  /** One label per unit of an item's quantity, `range(quantity_num)`, advancing the counter once per label. */
  method EmitUnits(item: Item, fontSize: int, prefix: string, counter: nat, ghost m: Metrics)
    returns (emitted: seq<Label>, next: nat)
    requires fontSize == ItemFontSize(item, m)
    ensures emitted == UnitLabels(item, m, prefix, counter)
    ensures next == counter + |emitted|
  {
    emitted, next := [], counter;
    ghost var all := UnitLabels(item, m, prefix, counter);
    var i := 0;
    while i < item.count
      invariant 0 <= i <= Units(item.count)
      invariant next == counter + i
      invariant emitted == all[..i]
    {
      var fractionText := IntString(i + 1) + "/" + IntString(item.count);
      var numberText := prefix + "-" + TwoDigits(next);
      var page := Label(item.name, item.spec, fractionText, numberText, fontSize);
      assert all[i].fraction == Fraction(i + 1, item.count);
      assert all[i].serial == Serial(prefix, counter + i);
      assert page == all[i];
      assert all[..i + 1] == all[..i] + [page];
      emitted := emitted + [page];
      next := next + 1;
      i := i + 1;
    }
    assert all[..i] == all;
  }

  /**
   * One data row: skip it when it is too short or its name or quantity is
   * empty; otherwise normalise its cells, compute the page's font size and
   * emit one label per unit of its quantity.
   */
  method EmitRow(row: Row, cols: Columns, m: Metrics, prefix: string, counter: nat)
    returns (emitted: seq<Label>, next: nat)
    ensures emitted == RowLabels(row, cols, m, prefix, counter)
    ensures next == counter + |emitted|
  {
    emitted, next := [], counter;
    if row == [] || |row| <= MaxIndex(cols) {
      return;
    }
    var name := CellText(row[cols.name]);
    var spec := CellText(row[cols.spec]);
    var quantity := CellText(row[cols.quantity]);
    if name == [] || quantity == [] {
      return;
    }
    name := SummarizeText(name, DefaultMaxWords);
    spec := ExtractAfterColon(spec);
    var fontSize := CalculateFontSize(m, name, spec, quantity, StartSize);
    var quantityNum := ParseQuantity(quantity);
    var item := Item(name, spec, quantity, quantityNum);
    assert RowItem(row, cols) == Some(item);
    emitted, next := EmitUnits(item, fontSize, prefix, counter, m);
  }

  /** The rows of one table after its header, in order, numbering from `counter`. */
  method EmitTable(table: Table, cols: Columns, m: Metrics, prefix: string, counter: nat)
    returns (emitted: seq<Label>, next: nat)
    ensures emitted == TableLabels(table, cols, m, prefix, counter)
    ensures next == counter + |emitted|
  {
    emitted, next := [], counter;
    var rows := Body(table);
    for r := 0 to |rows|
      invariant emitted == Numbered(rows, r, RowLabeller(cols, m, prefix), counter)
      invariant next == counter + |emitted|
    {
      NumberedStep(rows, r, RowLabeller(cols, m, prefix), counter, next);
      var rowLabels;
      rowLabels, next := EmitRow(rows[r], cols, m, prefix, next);
      emitted := emitted + rowLabels;
    }
  }

  /**
   * The sequencing loop over the selected tables, with one counter that is
   * never reset. Returns the labels and the final counter.
   */
  method BuildLabels(targets: seq<Table>, cols: Columns, prefix: string, start: nat, m: Metrics)
    returns (labels: seq<Label>, counter: nat)
    ensures labels == LabelsOf(targets, cols, prefix, start, m)
    ensures counter == start + |labels|
  {
    labels, counter := [], start;
    for t := 0 to |targets|
      invariant labels == Numbered(targets, t, TableLabeller(cols, m, prefix), start)
      invariant counter == start + |labels|
    {
      NumberedStep(targets, t, TableLabeller(cols, m, prefix), start, counter);
      var tableLabels;
      tableLabels, counter := EmitTable(targets[t], cols, m, prefix, counter);
      labels := labels + tableLabels;
    }
  }

  /** The unit pages of an item read "1/N" up to "N/N", where N is its count, and carry its text and size. */
  lemma UnitLabelsContent(item: Item, m: Metrics, prefix: string, counter: nat)
    ensures var ls := UnitLabels(item, m, prefix, counter);
      forall k :: 0 <= k < |ls| ==>
        ls[k].name == item.name && ls[k].spec == item.spec && ls[k].fontSize == ItemFontSize(item, m) &&
        var parts := Split(ls[k].fraction, '/');
        |parts| == 2 && ParseInt(parts[0]) == Some(k + 1) && ParseInt(parts[1]) == Some(item.count)
  {
    var ls := UnitLabels(item, m, prefix, counter);
    forall k | 0 <= k < |ls|
      ensures var parts := Split(ls[k].fraction, '/');
        |parts| == 2 && ParseInt(parts[0]) == Some(k + 1) && ParseInt(parts[1]) == Some(item.count)
    {
      assert ls[k].fraction == Fraction(k + 1, item.count);
      FractionParts(k + 1, item.count);
    }
  }

  /** Why `create_pdf_from_pdf` stops before producing any page. */
  datatype ConvertError = NoTables | RequiredColumnsNotFound

  /**
   * `create_pdf_from_pdf` after extraction: no tables at all, or none with the
   * three required headers, stop with a message; otherwise the column
   * positions come from the first qualifying table's header and every
   * qualifying table is labelled with one continuous counter.
   */
  method CreateLabels(allTables: seq<Table>, id: StartId, m: Metrics) returns (r: Result<seq<Label>, ConvertError>)
    ensures allTables == [] ==> r == Failure(NoTables)
    ensures allTables != [] && Qualifying(allTables) == [] ==> r == Failure(RequiredColumnsNotFound)
    ensures Qualifying(allTables) != [] ==>
      var targets := Qualifying(allTables);
      Qualifies(targets[0]) &&
      r == Success(LabelsOf(targets, ColumnsOf(HeaderOf(targets[0])), id.prefix, id.start, m))
  {
    if allTables == [] {
      return Failure(NoTables);
    }
    var targets, headers := FindTargetTables(allTables);
    if targets == [] {
      return Failure(RequiredColumnsNotFound);
    }
    assert Qualifies(targets[0]);
    var cols := ColumnsOf(headers.value);
    var labels, _ := BuildLabels(targets, cols, id.prefix, id.start, m);
    return Success(labels);
  }

  /* ---------------------------------------------------------------------- */
  /* Properties of the label sequence                                        */

  /** `P` holds of every label of `ls` together with its counter value, counting from `start`. */
  predicate Holds(ls: seq<Label>, start: nat, P: (Label, nat) -> bool) {
    forall k :: 0 <= k < |ls| ==> P(ls[k], start + k)
  }

  lemma HoldsConcat(a: seq<Label>, b: seq<Label>, start: nat, P: (Label, nat) -> bool)
    requires Holds(a, start, P) && Holds(b, start + |a|, P)
    ensures Holds(a + b, start, P)
  {
    forall k | 0 <= k < |a + b|
      ensures P((a + b)[k], start + k)
    {
      if k >= |a| {
        assert (a + b)[k] == b[k - |a|];
      }
    }
  }

  /**
   * A per-label property that every element's labels satisfy, counting from
   * the counter they are given, holds of the whole numbered sequence.
   */
  lemma {:induction false} NumberedHolds<X>(xs: seq<X>, n: nat, f: (X, nat) -> seq<Label>, start: nat, P: (Label, nat) -> bool)
    requires n <= |xs|
    requires forall x: X, c: nat :: Holds(f(x, c), c, P)
    ensures Holds(Numbered(xs, n, f, start), start, P)
  {
    if n > 0 {
      NumberedHolds(xs, n - 1, f, start, P);
      var before := Numbered(xs, n - 1, f, start);
      HoldsConcat(before, f(xs[n - 1], start + |before|), start, P);
    }
  }

  /** A property of every label of every row holds of all labels of all tables. */
  lemma LabelsOfHolds(tables: seq<Table>, cols: Columns, prefix: string, start: nat, m: Metrics, P: (Label, nat) -> bool)
    requires forall row: Row, c: nat :: Holds(RowLabels(row, cols, m, prefix, c), c, P)
    ensures Holds(LabelsOf(tables, cols, prefix, start, m), start, P)
  {
    forall t: Table, c: nat
      ensures Holds(TableLabeller(cols, m, prefix)(t, c), c, P)
    {
      var rows := Body(t);
      NumberedHolds(rows, |rows|, RowLabeller(cols, m, prefix), c, P);
    }
    NumberedHolds(tables, |tables|, TableLabeller(cols, m, prefix), start, P);
  }

  /** "The label carries the serial of this counter value." */
  function SerialIs(prefix: string): (Label, nat) -> bool {
    (l: Label, n: nat) => l.serial == Serial(prefix, n)
  }

  lemma UnitLabelsSerials(item: Item, m: Metrics, prefix: string, counter: nat)
    ensures Holds(UnitLabels(item, m, prefix, counter), counter, SerialIs(prefix))
  {
    var ls := UnitLabels(item, m, prefix, counter);
    forall k | 0 <= k < |ls|
      ensures SerialIs(prefix)(ls[k], counter + k)
    {
      assert ls[k].serial == Serial(prefix, counter + k);
    }
  }

  lemma RowLabelsSerials(row: Row, cols: Columns, m: Metrics, prefix: string, counter: nat)
    ensures Holds(RowLabels(row, cols, m, prefix, counter), counter, SerialIs(prefix))
  {
    match RowItem(row, cols)
    case None =>
    case Some(item) => UnitLabelsSerials(item, m, prefix, counter);
  }

  /** The `k`-th label carries the serial of counter value `start + k`: the counter is never reset. */
  lemma LabelsOfSerials(tables: seq<Table>, cols: Columns, prefix: string, start: nat, m: Metrics)
    ensures var ls := LabelsOf(tables, cols, prefix, start, m);
      forall k :: 0 <= k < |ls| ==> ls[k].serial == Serial(prefix, start + k)
  {
    forall row: Row, c: nat
      ensures Holds(RowLabels(row, cols, m, prefix, c), c, SerialIs(prefix))
    {
      RowLabelsSerials(row, cols, m, prefix, c);
    }
    LabelsOfHolds(tables, cols, prefix, start, m, SerialIs(prefix));
    var ls := LabelsOf(tables, cols, prefix, start, m);
    assert forall k :: 0 <= k < |ls| ==> SerialIs(prefix)(ls[k], start + k);
  }

  /** Two serials with the same prefix are equal exactly when their counter values are. */
  lemma SerialInjective(prefix: string, a: nat, b: nat)
    ensures Serial(prefix, a) == Serial(prefix, b) <==> a == b
  {
    if Serial(prefix, a) == Serial(prefix, b) {
      var h := |prefix| + 1;
      assert Serial(prefix, a)[h..] == TwoDigits(a);
      assert Serial(prefix, b)[h..] == TwoDigits(b);
      TwoDigitsSpec(a);
      TwoDigitsSpec(b);
    }
  }

  /** No two labels of a run share a serial, however many pages there are. */
  lemma LabelsOfDistinctSerials(tables: seq<Table>, cols: Columns, prefix: string, start: nat, m: Metrics)
    ensures var ls := LabelsOf(tables, cols, prefix, start, m);
      forall j, k :: 0 <= j < k < |ls| ==> ls[j].serial != ls[k].serial
  {
    var ls := LabelsOf(tables, cols, prefix, start, m);
    LabelsOfSerials(tables, cols, prefix, start, m);
    forall j, k | 0 <= j < k < |ls|
      ensures ls[j].serial != ls[k].serial
    {
      SerialInjective(prefix, start + j, start + k);
    }
  }

  /** "The page's font size lies between the floor and the start size." */
  function SizeWithin(): (Label, nat) -> bool {
    (l: Label, n: nat) => MinSize <= l.fontSize <= StartSize
  }

  lemma UnitLabelsFontSizes(item: Item, m: Metrics, prefix: string, counter: nat)
    ensures Holds(UnitLabels(item, m, prefix, counter), counter, SizeWithin())
  {
    FittedSizeSpec(m, item.name, item.spec, item.quantityText, StartSize);
    var ls := UnitLabels(item, m, prefix, counter);
    forall k | 0 <= k < |ls|
      ensures SizeWithin()(ls[k], counter + k)
    {
      assert ls[k].fontSize == ItemFontSize(item, m);
    }
  }

  lemma RowLabelsFontSizes(row: Row, cols: Columns, m: Metrics, prefix: string, counter: nat)
    ensures Holds(RowLabels(row, cols, m, prefix, counter), counter, SizeWithin())
  {
    match RowItem(row, cols)
    case None =>
    case Some(item) => UnitLabelsFontSizes(item, m, prefix, counter);
  }

  /** Every page's font size lies between the 8pt floor and the 16pt start. */
  lemma LabelsOfFontSizes(tables: seq<Table>, cols: Columns, prefix: string, start: nat, m: Metrics)
    ensures var ls := LabelsOf(tables, cols, prefix, start, m);
      forall k :: 0 <= k < |ls| ==> MinSize <= ls[k].fontSize <= StartSize
  {
    forall row: Row, c: nat
      ensures Holds(RowLabels(row, cols, m, prefix, c), c, SizeWithin())
    {
      RowLabelsFontSizes(row, cols, m, prefix, c);
    }
    LabelsOfHolds(tables, cols, prefix, start, m, SizeWithin());
    var ls := LabelsOf(tables, cols, prefix, start, m);
    assert forall k :: 0 <= k < |ls| ==> SizeWithin()(ls[k], start + k);
  }

  /** Numbering the first `n` elements depends only on those elements. */
  lemma {:induction false} NumberedPrefix<X>(xs: seq<X>, ys: seq<X>, n: nat, f: (X, nat) -> seq<Label>, start: nat)
    requires n <= |xs| && n <= |ys| && xs[..n] == ys[..n]
    ensures Numbered(xs, n, f, start) == Numbered(ys, n, f, start)
  {
    if n > 0 {
      assert xs[..n - 1] == xs[..n][..n - 1];
      assert ys[..n - 1] == ys[..n][..n - 1];
      assert xs[n - 1] == xs[..n][n - 1];
      assert ys[n - 1] == ys[..n][n - 1];
      NumberedPrefix(xs, ys, n - 1, f, start);
    }
  }

  /** Numbering a concatenation numbers the second part from where the first part stopped. */
  lemma {:induction false} NumberedConcat<X>(xs: seq<X>, ys: seq<X>, j: nat, f: (X, nat) -> seq<Label>, start: nat)
    requires j <= |ys|
    ensures var first := Numbered(xs, |xs|, f, start);
      Numbered(xs + ys, |xs| + j, f, start) == first + Numbered(ys, j, f, start + |first|)
  {
    var first := Numbered(xs, |xs|, f, start);
    if j == 0 {
      assert (xs + ys)[..|xs|] == xs[..|xs|];
      NumberedPrefix(xs + ys, xs, |xs|, f, start);
    } else {
      NumberedConcat(xs, ys, j - 1, f, start);
      assert (xs + ys)[|xs| + j - 1] == ys[j - 1];
    }
  }

  /** `NumberedConcat` over the whole of the second part. */
  lemma NumberedConcatAll<X>(xs: seq<X>, ys: seq<X>, f: (X, nat) -> seq<Label>, start: nat)
    ensures var first := Numbered(xs, |xs|, f, start);
      Numbered(xs + ys, |xs + ys|, f, start) == first + Numbered(ys, |ys|, f, start + |first|)
  {
    NumberedConcat(xs, ys, |ys|, f, start);
  }
}
