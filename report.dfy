/**
 * The second half of the report tool: the union of addresses handed to
 * addr2line, the pairing of its output lines with those addresses, and the
 * per-group table of rows sorted by count with padded columns.
 */
module Report {

  import Text
  import Resolver

  const Unknown: string := "<unknown>"
  const FunctionTitle: string := "Function"
  const FileTitle: string := "File:Line"
  const CountTitle: string := "Call Count"

  /** What addr2line reports for one address: function name and file:line. */
  datatype Location = Location(func: string, file: string)

  // ---------------------------------------------------------------------------
  // unique_addrs
  // ---------------------------------------------------------------------------

  /** The addresses present in the groups `ts` of `groups`. */
  function AddressesIn(groups: Resolver.Groups, ts: set<string>): set<string>
  {
    set t, a | t in ts && t in groups && a in groups[t] :: a
  }

  /** The union of the addresses of every group. */
  function AllAddresses(groups: Resolver.Groups): set<string>
  {
    AddressesIn(groups, groups.Keys)
  }

  /**
   * The `unique_addrs.update` loop followed by `list(unique_addrs)`: every
   * address of every group, each once, in an order the model leaves open.
   */
  method UniqueAddresses(groups: Resolver.Groups) returns (addrs: seq<string>)
    ensures Resolver.Distinct(addrs)
    ensures forall a :: a in addrs <==> a in AllAddresses(groups)
  {
    var unique: set<string> := {};
    var pending := groups.Keys;
    while pending != {}
      invariant pending <= groups.Keys
      invariant unique == AddressesIn(groups, groups.Keys - pending)
      decreases pending
    {
      var t :| t in pending;
      assert AddressesIn(groups, groups.Keys - (pending - {t}))
          == AddressesIn(groups, groups.Keys - pending) + groups[t].Keys;
      unique := unique + groups[t].Keys;
      pending := pending - {t};
    }
    addrs := [];
    var rest := unique;
    while rest != {}
      invariant rest <= unique
      invariant Resolver.Distinct(addrs)
      invariant forall a :: a in addrs <==> a in unique - rest
      decreases rest
    {
      var a :| a in rest;
      assert a !in addrs;
      addrs := addrs + [a];
      rest := rest - {a};
    }
  }

  // ---------------------------------------------------------------------------
  // addr2line_map
  // ---------------------------------------------------------------------------

  /** Output line `k` of addr2line, stripped, or "<unknown>" past the end of the output. */
  function OutputLine(output: seq<string>, k: nat): (s: string)
    ensures k < |output| ==> s == Text.Strip(output[k])
    ensures k >= |output| ==> s == Unknown
  {
    if k < |output| then Text.Strip(output[k]) else Unknown
  }

  /**
   * The indexed loop that fills addr2line_map: the i-th address gets output
   * lines 2i and 2i+1 (function, then file:line). `output` is addr2line's
   * standard output, already stripped and split into lines.
   */
  method ResolveNames(addrs: seq<string>, output: seq<string>) returns (names: map<string, Location>)
    requires Resolver.Distinct(addrs)
    ensures names.Keys == set a | a in addrs
    ensures forall i :: 0 <= i < |addrs| ==>
      names[addrs[i]] == Location(OutputLine(output, 2 * i), OutputLine(output, 2 * i + 1))
  {
    names := map[];
    for i := 0 to |addrs|
      invariant PairedUpTo(names, addrs, output, i)
    {
      var funcName := OutputLine(output, 2 * i);
      var fileLine := OutputLine(output, 2 * i + 1);
      PairedStep(names, addrs, output, i);
      names := names[addrs[i] := Location(funcName, fileLine)];
    }
    IndexedElements(addrs);
  }

  /** The i-th address's pair: output lines 2i and 2i+1. */
  function PairAt(output: seq<string>, i: nat): Location
  {
    Location(OutputLine(output, 2 * i), OutputLine(output, 2 * i + 1))
  }

  /** `names` maps exactly the first `n` addresses, each to its pair. */
  predicate PairedUpTo(names: map<string, Location>, addrs: seq<string>, output: seq<string>, n: nat)
    requires n <= |addrs|
  {
    && names.Keys == (set j | 0 <= j < n :: addrs[j])
    && forall j :: 0 <= j < n ==> names[addrs[j]] == PairAt(output, j)
  }

  lemma {:induction false} PairedStep(names: map<string, Location>, addrs: seq<string>, output: seq<string>, i: nat)
    requires Resolver.Distinct(addrs) && i < |addrs|
    requires PairedUpTo(names, addrs, output, i)
    ensures PairedUpTo(names[addrs[i] := PairAt(output, i)], addrs, output, i + 1)
  {
    var next := names[addrs[i] := PairAt(output, i)];
    assert (set j | 0 <= j < i + 1 :: addrs[j]) == (set j | 0 <= j < i :: addrs[j]) + {addrs[i]};
    forall j | 0 <= j < i + 1
      ensures next[addrs[j]] == PairAt(output, j)
    {
      if j < i {
        assert addrs[j] != addrs[i];
      }
    }
  }

  lemma {:induction false} IndexedElements(addrs: seq<string>)
    ensures (set j | 0 <= j < |addrs| :: addrs[j]) == set a | a in addrs
  {
    forall a | a in addrs ensures a in set j | 0 <= j < |addrs| :: addrs[j] {
      var j :| 0 <= j < |addrs| && addrs[j] == a;
    }
  }

  /** addr2line_map.get(addr, ("<unknown>", "<unknown>")). */
  function Resolve(names: map<string, Location>, addr: string): (loc: Location)
    ensures addr in names ==> loc == names[addr]
    ensures addr !in names ==> loc == Location(Unknown, Unknown)
  {
    if addr in names then names[addr] else Location(Unknown, Unknown)
  }

  // ---------------------------------------------------------------------------
  // Sorting by descending count
  // ---------------------------------------------------------------------------

  /** One (address, count) pair of a group. */
  datatype Item = Item(addr: string, count: int)

  predicate NonIncreasing(items: seq<Item>) {
    forall i, j :: 0 <= i < j < |items| ==> items[i].count >= items[j].count
  }

  /** Insert `x` before the first element whose count is not larger. */
  function Insert(x: Item, sorted: seq<Item>): (r: seq<Item>)
    ensures |r| == |sorted| + 1
  {
    if sorted == [] || x.count >= sorted[0].count then [x] + sorted
    else [sorted[0]] + Insert(x, sorted[1..])
  }

  /** Inserting adds exactly `x`. */
  lemma {:induction false} InsertPermutes(x: Item, sorted: seq<Item>)
    ensures multiset(Insert(x, sorted)) == multiset(sorted) + multiset{x}
  {
    if sorted != [] && x.count < sorted[0].count {
      InsertPermutes(x, sorted[1..]);
      assert sorted == [sorted[0]] + sorted[1..];
    }
  }

  /** Every element of an insertion is `x` or comes from `sorted`. */
  lemma {:induction false} InsertElements(x: Item, sorted: seq<Item>)
    ensures forall y :: y in Insert(x, sorted) ==> y == x || y in sorted
  {
    if sorted != [] && x.count < sorted[0].count {
      InsertElements(x, sorted[1..]);
    }
  }

  /** Inserting into a sequence sorted by non-increasing count keeps it sorted. */
  lemma {:induction false} InsertSorted(x: Item, sorted: seq<Item>)
    requires NonIncreasing(sorted)
    ensures NonIncreasing(Insert(x, sorted))
  {
    if sorted != [] && x.count < sorted[0].count {
      var tail := sorted[1..];
      InsertSorted(x, tail);
      InsertElements(x, tail);
      var rest := Insert(x, tail);
      forall k | 0 <= k < |rest|
        ensures rest[k].count <= sorted[0].count
      {
        assert rest[k] in rest;
      }
    }
  }

  /**
   * sorted(items, key=lambda x: -x[1]): insertion of each item, from the
   * last to the first, in front of the first item whose count is not larger,
   * so items of equal count keep their input order.
   */
  function SortByCount(items: seq<Item>): (r: seq<Item>)
    ensures |r| == |items|
  {
    if items == [] then [] else Insert(items[0], SortByCount(items[1..]))
  }

  /** The sorted items are a permutation of the items, by non-increasing count. */
  lemma {:induction false} SortByCountSorts(items: seq<Item>)
    ensures multiset(SortByCount(items)) == multiset(items)
    ensures NonIncreasing(SortByCount(items))
  {
    if items != [] {
      assert items == [items[0]] + items[1..];
      var rest := SortByCount(items[1..]);
      SortByCountSorts(items[1..]);
      InsertPermutes(items[0], rest);
      InsertSorted(items[0], rest);
    }
  }

  // ---------------------------------------------------------------------------
  // Rows and column widths
  // ---------------------------------------------------------------------------

  /** One table row: resolved function, resolved file:line, count. */
  datatype Row = Row(func: string, file: string, count: int)

  function RowOf(item: Item, names: map<string, Location>): Row
  {
    var loc := Resolve(names, item.addr);
    Row(loc.func, loc.file, item.count)
  }

  /** The rows built from `sorted`, one per item, in the same order. */
  function Rows(sorted: seq<Item>, names: map<string, Location>): (rows: seq<Row>)
    ensures |rows| == |sorted|
    ensures forall i :: 0 <= i < |sorted| ==> rows[i] == RowOf(sorted[i], names)
  {
    if sorted == [] then [] else [RowOf(sorted[0], names)] + Rows(sorted[1..], names)
  }

  /** The longest length among `ss`, at least `floor`. */
  function MaxLength(ss: seq<string>, floor: nat): (m: nat)
    ensures m >= floor
    ensures forall i :: 0 <= i < |ss| ==> |ss[i]| <= m
    ensures m == floor || exists i :: 0 <= i < |ss| && |ss[i]| == m
  {
    if ss == [] then floor
    else
      var rest := MaxLength(ss[1..], floor);
      assert forall i :: 1 <= i < |ss| ==> ss[i] == ss[1..][i - 1];
      if |ss[0]| > rest then |ss[0]| else rest
  }

  function FuncColumn(rows: seq<Row>): (ss: seq<string>)
    ensures |ss| == |rows| && forall i :: 0 <= i < |rows| ==> ss[i] == rows[i].func
  {
    if rows == [] then [] else [rows[0].func] + FuncColumn(rows[1..])
  }

  function FileColumn(rows: seq<Row>): (ss: seq<string>)
    ensures |ss| == |rows| && forall i :: 0 <= i < |rows| ==> ss[i] == rows[i].file
  {
    if rows == [] then [] else [rows[0].file] + FileColumn(rows[1..])
  }

  datatype Widths = Widths(func: nat, file: nat)

  /**
   * max_func_len and max_file_len: the longest entry of each column, but
   * never less than the column's title.
   */
  function ColumnWidths(rows: seq<Row>): Widths
  {
    Widths(MaxLength(FuncColumn(rows), |FunctionTitle|), MaxLength(FileColumn(rows), |FileTitle|))
  }

  /**
   * Each width is at least its column's title and every entry of the column,
   * and is the title's length or one of the entries' lengths.
   */
  lemma {:induction false} ColumnWidthsBound(rows: seq<Row>)
    ensures var w := ColumnWidths(rows);
      && w.func >= |FunctionTitle| && w.file >= |FileTitle|
      && (forall i :: 0 <= i < |rows| ==> |rows[i].func| <= w.func && |rows[i].file| <= w.file)
      && (w.func == |FunctionTitle| || exists i :: 0 <= i < |rows| && |rows[i].func| == w.func)
      && (w.file == |FileTitle| || exists i :: 0 <= i < |rows| && |rows[i].file| == w.file)
  {
    var fs, ls := FuncColumn(rows), FileColumn(rows);
    var w := ColumnWidths(rows);
    if w.func != |FunctionTitle| {
      var i :| 0 <= i < |fs| && |fs[i]| == w.func;
      assert |rows[i].func| == w.func;
    }
    if w.file != |FileTitle| {
      var i :| 0 <= i < |ls| && |ls[i]| == w.file;
      assert |rows[i].file| == w.file;
    }
  }

  // ---------------------------------------------------------------------------
  // Text of the table
  // ---------------------------------------------------------------------------

  /** f"{func:<{wf}}  {file:<{wl}}  {last}". */
  function FormatRow(func: string, file: string, last: string, w: Widths): string
  {
    Text.PadRight(func, w.func) + "  " + Text.PadRight(file, w.file) + "  " + last
  }

  function HeaderLine(w: Widths): string
  {
    FormatRow(FunctionTitle, FileTitle, CountTitle, w)
  }

  function RowLine(row: Row, w: Widths): string
  {
    FormatRow(row.func, row.file, Text.IntToString(row.count), w)
  }

  function RowLines(rows: seq<Row>, w: Widths): (lines: seq<string>)
    ensures |lines| == |rows|
    ensures forall i :: 0 <= i < |rows| ==> lines[i] == RowLine(rows[i], w)
  {
    if rows == [] then [] else [RowLine(rows[0], w)] + RowLines(rows[1..], w)
  }

  /**
   * `line` holds `func` padded to w.func characters, two spaces, `file`
   * padded to w.file characters, two spaces, and `last` to the end.
   */
  predicate InColumns(line: string, func: string, file: string, last: string, w: Widths) {
    && |line| == w.func + w.file + 4 + |last|
    && line[..w.func] == Text.PadRight(func, w.func)
    && line[w.func..w.func + 2] == "  "
    && line[w.func + 2..w.func + 2 + w.file] == Text.PadRight(file, w.file)
    && line[w.func + 2 + w.file..w.func + w.file + 4] == "  "
    && line[w.func + w.file + 4..] == last
  }

  /** When both entries fit their widths, the formatted line keeps the columns. */
  lemma {:induction false} FormatRowColumns(func: string, file: string, last: string, w: Widths)
    requires |func| <= w.func && |file| <= w.file
    ensures InColumns(FormatRow(func, file, last, w), func, file, last, w)
  {
    var a, b := Text.PadRight(func, w.func), Text.PadRight(file, w.file);
    var line := FormatRow(func, file, last, w);
    assert line == a + "  " + b + "  " + last;
  }

  /** Every row line keeps the columns when the widths are the rows' own. */
  lemma {:induction false} RowLinesInColumns(rows: seq<Row>, w: Widths)
    requires w == ColumnWidths(rows)
    ensures forall i :: 0 <= i < |rows| ==>
      InColumns(RowLines(rows, w)[i], rows[i].func, rows[i].file, Text.IntToString(rows[i].count), w)
  {
    ColumnWidthsBound(rows);
    forall i | 0 <= i < |rows|
      ensures InColumns(RowLines(rows, w)[i], rows[i].func, rows[i].file, Text.IntToString(rows[i].count), w)
    {
      FormatRowColumns(rows[i].func, rows[i].file, Text.IntToString(rows[i].count), w);
    }
  }

  function ThreadHeader(thread: string): string
  {
    "=== Thread " + thread + " ==="
  }

  /**
   * The lines written to the report file for one group: the thread header,
   * and, when the group is not empty, the column header, one line per row
   * in descending count order, and an empty line.
   */
  function GroupLines(thread: string, items: seq<Item>, names: map<string, Location>): seq<string>
  {
    if items == [] then [ThreadHeader(thread)]
    else
      var rows := Rows(SortByCount(items), names);
      var w := ColumnWidths(rows);
      [ThreadHeader(thread), HeaderLine(w)] + RowLines(rows, w) + [""]
  }

  /**
   * In a non-empty group's table the column header and every row line keep
   * the columns of the widths computed from the rows, and the i-th row line
   * shows the i-th item in descending count order.
   */
  lemma {:induction false} TableColumnsAligned(thread: string, items: seq<Item>, names: map<string, Location>)
    requires items != []
    ensures var sorted := SortByCount(items);
      var w := ColumnWidths(Rows(sorted, names));
      var lines := GroupLines(thread, items, names);
      && |lines| == |items| + 3
      && lines[0] == ThreadHeader(thread)
      && lines[|lines| - 1] == ""
      && InColumns(lines[1], FunctionTitle, FileTitle, CountTitle, w)
      && forall i :: 0 <= i < |items| ==>
        InColumns(lines[i + 2], Resolve(names, sorted[i].addr).func, Resolve(names, sorted[i].addr).file,
                  Text.IntToString(sorted[i].count), w)
  {
    var sorted := SortByCount(items);
    var rows := Rows(sorted, names);
    var w := ColumnWidths(rows);
    GroupLinesShape(thread, items, names);
    ColumnWidthsBound(rows);
    FormatRowColumns(FunctionTitle, FileTitle, CountTitle, w);
    RowLinesInColumns(rows, w);
  }

  /** A non-empty group: header, column header, the row lines, an empty line. */
  lemma {:induction false} GroupLinesShape(thread: string, items: seq<Item>, names: map<string, Location>)
    requires items != []
    ensures var rows := Rows(SortByCount(items), names);
      var w := ColumnWidths(rows);
      var lines := GroupLines(thread, items, names);
      && |rows| == |items|
      && |lines| == |items| + 3
      && lines[0] == ThreadHeader(thread) && lines[1] == HeaderLine(w) && lines[|lines| - 1] == ""
      && forall i :: 0 <= i < |items| ==> lines[i + 2] == RowLines(rows, w)[i]
  {
    var rows := Rows(SortByCount(items), names);
    var w := ColumnWidths(rows);
    var body := RowLines(rows, w);
    assert GroupLines(thread, items, names) == [ThreadHeader(thread), HeaderLine(w)] + body + [""];
  }

  /**
   * The loop body over one thread of the report: the header line, and for a
   * non-empty group the rows built from the sorted items, the column header,
   * one line per row and the closing empty line.
   */
  method FormatGroup(thread: string, items: seq<Item>, names: map<string, Location>) returns (lines: seq<string>)
    ensures lines == GroupLines(thread, items, names)
  {
    lines := [ThreadHeader(thread)];
    if items == [] {
      return;
    }
    var sorted := SortByCount(items);
    var rows := BuildRows(sorted, names);
    var w := ColumnWidths(rows);
    lines := lines + [HeaderLine(w)];
    assert lines == [ThreadHeader(thread), HeaderLine(w)];
    var body := WriteRows(rows, w);
    lines := lines + body + [""];
    GroupLinesOfRows(thread, items, names, rows, w);
  }

  lemma {:induction false} GroupLinesOfRows(thread: string, items: seq<Item>, names: map<string, Location>,
                                            rows: seq<Row>, w: Widths)
    requires items != [] && rows == Rows(SortByCount(items), names) && w == ColumnWidths(rows)
    ensures GroupLines(thread, items, names) == [ThreadHeader(thread), HeaderLine(w)] + RowLines(rows, w) + [""]
  {
  }

  /** The rows.append loop: one row per sorted item, resolved through `names`. */
  method BuildRows(sorted: seq<Item>, names: map<string, Location>) returns (rows: seq<Row>)
    ensures rows == Rows(sorted, names)
  {
    rows := [];
    for i := 0 to |sorted|
      invariant |rows| == i
      invariant forall j :: 0 <= j < i ==> rows[j] == RowOf(sorted[j], names)
    {
      var loc := Resolve(names, sorted[i].addr);
      rows := rows + [Row(loc.func, loc.file, sorted[i].count)];
    }
  }

  /** The loop writing one line per row. */
  method WriteRows(rows: seq<Row>, w: Widths) returns (lines: seq<string>)
    ensures lines == RowLines(rows, w)
  {
    lines := [];
    for i := 0 to |rows|
      invariant |lines| == i
      invariant forall j :: 0 <= j < i ==> lines[j] == RowLine(rows[j], w)
    {
      lines := lines + [RowLine(rows[i], w)];
    }
  }

  // ---------------------------------------------------------------------------
  // The whole report
  // ---------------------------------------------------------------------------

  /** The addresses named by `items`. */
  function AddrsOf(items: seq<Item>): set<string>
  {
    set it | it in items :: it.addr
  }

  /**
   * `items` lists the pairs of `m`: exactly its addresses, as many items as
   * keys (so no address twice), each with its total.
   */
  predicate Lists(items: seq<Item>, m: Resolver.Totals) {
    && AddrsOf(items) == m.Keys
    && |items| == |m|
    && (forall it :: it in items ==> it.addr in m && it.count == m[it.addr])
  }

  /** addr_counts.items(), in an order the model leaves open. */
  method ItemsOf(m: Resolver.Totals) returns (items: seq<Item>)
    ensures Lists(items, m)
  {
    items := [];
    var pending := m.Keys;
    while pending != {}
      invariant pending <= m.Keys
      invariant AddrsOf(items) == m.Keys - pending
      invariant |items| + |pending| == |m|
      invariant forall it :: it in items ==> it.addr in m && it.count == m[it.addr]
      decreases pending
    {
      var a :| a in pending;
      assert AddrsOf(items + [Item(a, m[a])]) == AddrsOf(items) + {a};
      items := items + [Item(a, m[a])];
      pending := pending - {a};
    }
    assert m.Keys - pending == m.Keys;
  }

  /** The report file's lines: each group's lines, in the order of `order`. */
  function ReportLines(order: seq<string>, listings: seq<seq<Item>>, names: map<string, Location>): seq<string>
    requires |listings| == |order|
  {
    if order == [] then []
    else
      var n := |order| - 1;
      ReportLines(order[..n], listings[..n], names) + GroupLines(order[n], listings[n], names)
  }

  lemma {:induction false} ReportLinesSnoc(order: seq<string>, listings: seq<seq<Item>>, names: map<string, Location>,
                        t: string, items: seq<Item>)
    requires |listings| == |order|
    ensures ReportLines(order + [t], listings + [items], names)
         == ReportLines(order, listings, names) + GroupLines(t, items, names)
  {
    assert (order + [t])[..|order|] == order;
    assert (listings + [items])[..|order|] == listings;
  }

  /** Each group named in `order` is listed by the matching entry of `listings`. */
  predicate AllListed(groups: Resolver.Groups, order: seq<string>, listings: seq<seq<Item>>)
    requires |listings| == |order|
  {
    if order == [] then true
    else
      var n := |order| - 1;
      && AllListed(groups, order[..n], listings[..n])
      && order[n] in groups && Lists(listings[n], groups[order[n]])
  }

  lemma {:induction false} AllListedSnoc(groups: Resolver.Groups, order: seq<string>, listings: seq<seq<Item>>, t: string, items: seq<Item>)
    requires |listings| == |order|
    requires AllListed(groups, order, listings)
    requires t in groups && Lists(items, groups[t])
    ensures AllListed(groups, order + [t], listings + [items])
  {
    assert (order + [t])[..|order|] == order;
    assert (listings + [items])[..|order|] == listings;
  }

  lemma {:induction false} AllListedAt(groups: Resolver.Groups, order: seq<string>, listings: seq<seq<Item>>)
    requires |listings| == |order|
    requires AllListed(groups, order, listings)
    ensures forall i :: 0 <= i < |order| ==> order[i] in groups && Lists(listings[i], groups[order[i]])
  {
    if order != [] {
      var n := |order| - 1;
      AllListedAt(groups, order[..n], listings[..n]);
      assert forall i :: 0 <= i < n ==> order[..n][i] == order[i] && listings[..n][i] == listings[i];
    }
  }

  /**
   * The loop over thread_maps.items(): every group is written exactly once,
   * with its own items, and the file holds the groups' lines one after the
   * other. The order of the groups is the dictionary's, which the model
   * leaves open.
   */
  method FormatReport(groups: Resolver.Groups, names: map<string, Location>)
    returns (order: seq<string>, listings: seq<seq<Item>>, lines: seq<string>)
    ensures Resolver.Distinct(order)
    ensures forall t :: t in order <==> t in groups
    ensures |listings| == |order|
    ensures forall i :: 0 <= i < |order| ==> order[i] in groups && Lists(listings[i], groups[order[i]])
    ensures lines == ReportLines(order, listings, names)
  {
    order, listings, lines := [], [], [];
    var pending := groups.Keys;
    while pending != {}
      invariant pending <= groups.Keys
      invariant Resolver.Distinct(order)
      invariant forall t :: t in order <==> t in groups.Keys - pending
      invariant |listings| == |order|
      invariant AllListed(groups, order, listings)
      invariant lines == ReportLines(order, listings, names)
      decreases pending
    {
      var t :| t in pending;
      var items := ItemsOf(groups[t]);
      var group := FormatGroup(t, items, names);
      assert t !in order;
      AllListedSnoc(groups, order, listings, t, items);
      ReportLinesSnoc(order, listings, names, t, items);
      order, listings, lines := order + [t], listings + [items], lines + group;
      pending := pending - {t};
    }
    AllListedAt(groups, order, listings);
  }

  /** A sequence without repetitions has as many elements as its set. */
  lemma {:induction false} DistinctCardinality(ts: seq<string>)
    requires Resolver.Distinct(ts)
    ensures |set t | t in ts| == |ts|
  {
    if ts != [] {
      var rest := ts[1..];
      assert Resolver.Distinct(rest) by {
        forall i, j | 0 <= i < j < |rest| ensures rest[i] != rest[j] {
          assert rest[i] == ts[i + 1] && rest[j] == ts[j + 1];
        }
      }
      DistinctCardinality(rest);
      assert ts[0] !in rest by {
        forall k | 0 <= k < |rest| ensures rest[k] != ts[0] {
          assert rest[k] == ts[k + 1];
        }
      }
      assert (set t | t in ts) == (set t | t in rest) + {ts[0]} by {
        assert ts == [ts[0]] + rest;
      }
    }
  }

  /** In sum mode the report holds a single group, ALL_THREADS. */
  lemma {:induction false} SumReportIsOneGroup(groups: Resolver.Groups, order: seq<string>)
    requires groups.Keys == {Resolver.AllThreads}
    requires Resolver.Distinct(order)
    requires forall t :: t in order <==> t in groups
    ensures order == [Resolver.AllThreads]
  {
    assert Resolver.AllThreads in order;
    forall i | 0 <= i < |order|
      ensures order[i] == Resolver.AllThreads
    {
      assert order[i] in order;
    }
    assert (set t | t in order) == {Resolver.AllThreads};
    DistinctCardinality(order);

  }
}
