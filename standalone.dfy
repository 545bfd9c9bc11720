/**
 * The all-in-one receiver and viewer window: the bounded row buffer that
 * _handle_smdr_data feeds, the table and raw-log views it refreshes, the
 * queue the receiver's callback fills, and the log viewer dialog that shows
 * the last lines of the application log.
 */
module Standalone {
  import opened Text
  import opened Server

  /** Characters a table cell shows of its value. */
  const CellWidth: nat := 100
  /** Range of the "Max Rows to Display" spin box. */
  const MinRows: nat := 100
  const MaxRows: nat := 10000
  /** The window's initial row limit. */
  const DefaultRows: nat := 1000

  /** f"[{ts}] {line}". */
  function Stamp(ts: string, line: string): string
  {
    "[" + ts + "] " + line
  }

  // ---------------------------------------------------------------------------
  // What one chunk adds
  // ---------------------------------------------------------------------------

  /** The pieces of data.strip().split('\n'). */
  function Pieces(data: string): seq<string>
  {
    Split(Strip(data), '\n')
  }

  /** The non-empty pieces, in order: `if not line: continue`. */
  function Kept(pieces: seq<string>): (r: seq<string>)
    ensures |r| <= |pieces|
    ensures forall j :: 0 <= j < |r| ==> r[j] != []
  {
    if pieces == [] then []
    else
      var last := pieces[|pieces| - 1];
      Kept(pieces[..|pieces| - 1]) + (if last == [] then [] else [last])
  }

  /** Keeping the pieces up to index i + 1 adds piece i when it is not empty. */
  lemma KeptSnoc(pieces: seq<string>, i: nat)
    requires i < |pieces|
    ensures Kept(pieces[..i + 1]) == Kept(pieces[..i]) + (if pieces[i] == [] then [] else [pieces[i]])
  {
    assert pieces[..i + 1][..i] == pieces[..i];
  }

  /** What piece i adds to the rows and the raw lines of the pieces before it. */
  lemma StoreStep(pieces: seq<string>, i: nat, parse: string -> Option<seq<string>>, stamp: nat -> string)
    requires i < |pieces|
    ensures var kept, line := Kept(pieces[..i]), pieces[i];
            var fit := Fit(parse(line));
            && |Kept(pieces[..i + 1])| == |kept| + (if line == [] then 0 else 1)
            && Accepted(Kept(pieces[..i + 1]), parse)
               == Accepted(kept, parse) + (if line != [] && fit.Some? then [fit.value] else [])
            && StampAll(Kept(pieces[..i + 1]), stamp)
               == StampAll(kept, stamp) + (if line == [] then [] else [Stamp(stamp(|kept|), line)])
  {
    KeptSnoc(pieces, i);
    var kept := Kept(pieces[..i]);
    if pieces[i] != [] {
      AcceptedSnoc(kept, pieces[i], parse);
      StampAllSnoc(kept, pieces[i], stamp);
    } else {
      assert Kept(pieces[..i + 1]) == kept + [] == kept;
    }
  }

  /** Keeping distributes over concatenation: the order of the pieces is kept. */
  lemma {:induction false} KeptAppend(xs: seq<string>, ys: seq<string>)
    ensures Kept(xs + ys) == Kept(xs) + Kept(ys)
    decreases |ys|
  {
    if ys == [] {
      assert xs + ys == xs;
    } else {
      var init := ys[..|ys| - 1];
      KeptAppend(xs, init);
      assert (xs + ys)[..|xs + ys| - 1] == xs + init;
    }
  }

  /** A line is kept exactly when it is one of the pieces and is not empty. */
  lemma {:induction false} KeptMembers(pieces: seq<string>, line: string)
    ensures line in Kept(pieces) <==> line in pieces && line != []
  {
    if pieces != [] {
      var init := pieces[..|pieces| - 1];
      KeptMembers(init, line);
      assert pieces == init + [pieces[|pieces| - 1]];
    }
  }

  /** The stored form of a parsed line: its first FieldCount values, if it has that many. */
  function Fit(parsed: Option<seq<string>>): (r: Option<seq<string>>)
    ensures r.Some? <==> parsed.Some? && |parsed.value| >= FieldCount
    ensures r.Some? ==> |r.value| == FieldCount && r.value == parsed.value[..FieldCount]
  {
    if parsed.Some? && |parsed.value| >= FieldCount then Some(parsed.value[..FieldCount]) else None
  }

  /**
   * The rows the kept lines add: parse is the CSV reader, None where it raises;
   * a row with fewer than FieldCount values is dropped.
   */
  function Accepted(lines: seq<string>, parse: string -> Option<seq<string>>): (r: seq<seq<string>>)
    ensures |r| <= |lines|
    ensures forall j :: 0 <= j < |r| ==> |r[j]| == FieldCount
  {
    if lines == [] then []
    else
      var fit := Fit(parse(lines[|lines| - 1]));
      Accepted(lines[..|lines| - 1], parse) + (if fit.Some? then [fit.value] else [])
  }

  lemma AcceptedSnoc(lines: seq<string>, line: string, parse: string -> Option<seq<string>>)
    ensures Accepted(lines + [line], parse)
            == Accepted(lines, parse) + (if Fit(parse(line)).Some? then [Fit(parse(line)).value] else [])
  {
    assert (lines + [line])[..|lines|] == lines;
  }

  /** Accepting distributes over concatenation: rows keep the order of their lines. */
  lemma {:induction false} AcceptedAppend(xs: seq<string>, ys: seq<string>, parse: string -> Option<seq<string>>)
    ensures Accepted(xs + ys, parse) == Accepted(xs, parse) + Accepted(ys, parse)
    decreases |ys|
  {
    if ys == [] {
      assert xs + ys == xs;
    } else {
      var init := ys[..|ys| - 1];
      AcceptedAppend(xs, init, parse);
      assert (xs + ys)[..|xs + ys| - 1] == xs + init;
    }
  }

  /** The raw lines the kept lines add; the j-th of them is stamped with the j-th clock reading. */
  function StampAll(lines: seq<string>, stamp: nat -> string): (r: seq<string>)
  {
    seq(|lines|, j requires 0 <= j < |lines| => Stamp(stamp(j), lines[j]))
  }

  lemma StampAllSnoc(lines: seq<string>, line: string, stamp: nat -> string)
    ensures StampAll(lines + [line], stamp) == StampAll(lines, stamp) + [Stamp(stamp(|lines|), line)]
  {
  }

  // ---------------------------------------------------------------------------
  // The buffers and one call of _handle_smdr_data
  // ---------------------------------------------------------------------------

  /** _rows and _raw_lines. */
  datatype Buffers = Buffers(rows: seq<seq<string>>, raw: seq<string>)

  /** Every stored row is full width, and there is a raw line for every row. */
  predicate Inv(b: Buffers)
  {
    |b.rows| <= |b.raw| && forall j :: 0 <= j < |b.rows| ==> |b.rows[j]| == FieldCount
  }

  /**
   * The buffers after one chunk: the kept lines' stamped raw lines and
   * accepted rows are appended; when the rows exceed the limit both lists
   * are cut to their last maxRows entries.
   */
  function HandleSpec(b: Buffers, data: string, parse: string -> Option<seq<string>>,
                      stamp: nat -> string, maxRows: nat): Buffers
  {
    var lines := Kept(Pieces(data));
    var rows := b.rows + Accepted(lines, parse);
    var raw := b.raw + StampAll(lines, stamp);
    if |rows| > maxRows then Buffers(Tail(rows, maxRows), Tail(raw, maxRows)) else Buffers(rows, raw)
  }

  /** After a chunk there are at most maxRows rows, and they are the newest ones. */
  lemma HandleKeepsNewest(b: Buffers, data: string, parse: string -> Option<seq<string>>,
                          stamp: nat -> string, maxRows: nat)
    requires maxRows > 0
    ensures var all := b.rows + Accepted(Kept(Pieces(data)), parse);
            var r := HandleSpec(b, data, parse, stamp, maxRows).rows;
            |r| == (if |all| <= maxRows then |all| else maxRows) && r == all[|all| - |r|..]
  {
    var all := b.rows + Accepted(Kept(Pieces(data)), parse);
    assert HandleSpec(b, data, parse, stamp, maxRows).rows == if |all| > maxRows then Tail(all, maxRows) else all;
    TailSpec(all, maxRows);
  }

  /**
   * The raw lines are the old ones plus the stamped kept lines, cut to the
   * last maxRows only when the rows overflowed.
   */
  lemma HandleTrimsRawOnlyOnOverflow(b: Buffers, data: string, parse: string -> Option<seq<string>>,
                                     stamp: nat -> string, maxRows: nat)
    requires maxRows > 0
    ensures var lines := Kept(Pieces(data));
            var raw := b.raw + StampAll(lines, stamp);
            var r := HandleSpec(b, data, parse, stamp, maxRows);
            if |b.rows + Accepted(lines, parse)| > maxRows then r.raw == Tail(raw, maxRows) else r.raw == raw
  {
  }

  /** Full-width rows, each with its raw line, stay so after a chunk. */
  lemma HandleKeepsInv(b: Buffers, data: string, parse: string -> Option<seq<string>>,
                       stamp: nat -> string, maxRows: nat)
    requires Inv(b) && maxRows > 0
    ensures Inv(HandleSpec(b, data, parse, stamp, maxRows))
  {
    var lines := Kept(Pieces(data));
    var added := Accepted(lines, parse);
    var rows := b.rows + added;
    assert |StampAll(lines, stamp)| == |lines|;
    forall j | 0 <= j < |rows| ensures |rows[j]| == FieldCount {
      if j >= |b.rows| {
        assert rows[j] == added[j - |b.rows|];
      }
    }
  }

  /** After a chunk the invariant holds and the rows are within the limit. */
  lemma HandleBounded(b: Buffers, data: string, parse: string -> Option<seq<string>>,
                      stamp: nat -> string, maxRows: nat)
    requires Inv(b) && maxRows > 0
    ensures var h := HandleSpec(b, data, parse, stamp, maxRows);
            Inv(h) && |h.rows| <= maxRows
  {
    HandleKeepsInv(b, data, parse, stamp, maxRows);
    HandleKeepsNewest(b, data, parse, stamp, maxRows);
  }

  /** The queue drained item by item: item k's lines are stamped by stamp(k). */
  function DrainSpec(b: Buffers, items: seq<(string, Address)>, parse: string -> Option<seq<string>>,
                     stamp: nat -> nat -> string, maxRows: nat, k: nat): Buffers
    requires k <= |items|
  {
    if k == 0 then b
    else HandleSpec(DrainSpec(b, items, parse, stamp, maxRows, k - 1), items[k - 1].0, parse, stamp(k - 1), maxRows)
  }

  /** Draining keeps the invariant, and after at least one item the rows are within the limit. */
  lemma {:induction false} DrainBounded(b: Buffers, items: seq<(string, Address)>, parse: string -> Option<seq<string>>,
                                        stamp: nat -> nat -> string, maxRows: nat, k: nat)
    requires k <= |items| && Inv(b) && maxRows > 0
    ensures var d := DrainSpec(b, items, parse, stamp, maxRows, k);
            Inv(d) && (k > 0 ==> |d.rows| <= maxRows)
  {
    if k > 0 {
      var prev := DrainSpec(b, items, parse, stamp, maxRows, k - 1);
      DrainBounded(b, items, parse, stamp, maxRows, k - 1);
      HandleBounded(prev, items[k - 1].0, parse, stamp(k - 1), maxRows);
    }
  }

  // ---------------------------------------------------------------------------
  // The views
  // ---------------------------------------------------------------------------

  /** str(value)[:100]. */
  function Cell(value: string): (r: string)
    ensures |r| == if |value| < CellWidth then |value| else CellWidth
    ensures r == value[..|r|]
  {
    if |value| <= CellWidth then value else value[..CellWidth]
  }

  /** A row's cells: its first FieldCount values, each cut to CellWidth characters. */
  function Cells(row: seq<string>): (r: seq<string>)
    ensures |r| == if |row| < FieldCount then |row| else FieldCount
    ensures forall j :: 0 <= j < |r| ==> |r[j]| <= CellWidth && |r[j]| <= |row[j]| && r[j] == row[j][..|r[j]|]
  {
    var n := if |row| < FieldCount then |row| else FieldCount;
    seq(n, j requires 0 <= j < n => Cell(row[j]))
  }

  /** The data table: one line of cells per stored row. */
  function TableOf(rows: seq<seq<string>>): (r: seq<seq<string>>)
    ensures |r| == |rows|
  {
    seq(|rows|, i requires 0 <= i < |rows| => Cells(rows[i]))
  }

  /** The raw-log tab: the last 100 raw lines joined by newlines. */
  function RawView(raw: seq<string>): string
  {
    Join("\n", Tail(raw, 100))
  }

  /** The raw-log tab shows exactly the last 100 lines, in order. */
  lemma RawViewShowsLast(raw: seq<string>)
    requires raw != [] && forall j :: 0 <= j < |raw| ==> Excludes(raw[j], '\n')
    ensures Split(RawView(raw), '\n') == Tail(raw, 100)
  {
    var t := Tail(raw, 100);
    forall j | 0 <= j < |t| ensures Excludes(t[j], '\n') {
      assert t[j] == raw[|raw| - |t| + j];
    }
    SplitJoin(t, '\n');
  }

  /** A stamped line has no newline when its timestamp and its line have none. */
  lemma StampExcludes(ts: string, line: string)
    requires Excludes(ts, '\n') && Excludes(line, '\n')
    ensures Excludes(Stamp(ts, line), '\n')
  {
    var s := Stamp(ts, line);
    forall j | 0 <= j < |s| ensures s[j] != '\n' {
      if 1 <= j < |ts| + 1 {
        assert s[j] == ts[j - 1];
      } else if j >= |ts| + 3 {
        assert s[j] == line[j - |ts| - 3];
      }
    }
  }

  /** Each raw line a chunk adds is one line of the raw-log tab: none holds a newline. */
  lemma StampAllExcludes(data: string, stamp: nat -> string)
    requires forall j: nat :: Excludes(stamp(j), '\n')
    ensures var r := StampAll(Kept(Pieces(data)), stamp);
            forall j :: 0 <= j < |r| ==> Excludes(r[j], '\n')
  {
    var lines := Kept(Pieces(data));
    forall j | 0 <= j < |lines| ensures Excludes(Stamp(stamp(j), lines[j]), '\n') {
      KeptMembers(Pieces(data), lines[j]);
      StampExcludes(stamp(j), lines[j]);
    }
  }

  // ---------------------------------------------------------------------------
  // The log viewer dialog
  // ---------------------------------------------------------------------------

  /** What reading the log file gives. */
  datatype LogFile = Missing | Unreadable(error: string) | Contents(text: string)

  /**
   * _load_log: a missing file leaves the text as it was, a read error shows
   * the error, and otherwise the last 100 lines of the file are shown.
   */
  function LogView(file: LogFile, current: string): (r: string)
  {
    match file
    case Missing => current
    case Unreadable(e) => "Error reading log: " + e
    case Contents(c) => Join("\n", Tail(Split(c, '\n'), 100))
  }

  /** The dialog shows the file's last 100 lines, and a short file whole. */
  lemma LogViewShowsLast(c: string, current: string)
    ensures Split(LogView(Contents(c), current), '\n') == Tail(Split(c, '\n'), 100)
    ensures |Split(c, '\n')| <= 100 ==> LogView(Contents(c), current) == c
  {
    var t := Tail(Split(c, '\n'), 100);
    var all := Split(c, '\n');
    forall j | 0 <= j < |t| ensures Excludes(t[j], '\n') {
      assert t[j] == all[|all| - |t| + j];
    }
    SplitJoin(t, '\n');
    JoinSplit(c, '\n');
  }

  class LogViewerDialog {
    var shown: string

    /** __init__ loads the log once. */
    constructor(file: LogFile)
      ensures shown == LogView(file, "")
    {
      shown := "";
      new;
      LoadLog(file);
    }

    /** _load_log. */
    method LoadLog(file: LogFile)
      modifies this
      ensures shown == LogView(file, old(shown))
    {
      match file
      case Missing =>
      case Unreadable(e) =>
        shown := "Error reading log: " + e;
      case Contents(c) =>
        var lines := Split(c, '\n');
        shown := Join("\n", Tail(lines, 100));
    }
  }

  // ---------------------------------------------------------------------------
  // The window
  // ---------------------------------------------------------------------------

  class StandaloneWindow {
    var rows: seq<seq<string>>
    var rawLines: seq<string>
    var maxRowsDisplay: nat
    var table: seq<seq<string>>          // the data table's cell texts
    var rawText: string                  // the raw-log tab
    var queue: seq<(string, Address)>    // data_queue
    var connectionText: string
    var statusText: string

    /** The limit is within the spin box's range and the buffers keep Inv. */
    predicate Valid()
      reads this
    {
      MinRows <= maxRowsDisplay <= MaxRows && Inv(Contents())
    }

    /** The table and the raw-log tab show the current buffers. */
    predicate Shown()
      reads this
    {
      table == TableOf(rows) && rawText == RawView(rawLines)
    }

    function Contents(): Buffers
      reads this
    {
      Buffers(rows, rawLines)
    }

    /** The status and connection labels. */
    function Labels(): (string, string)
      reads this
    {
      (statusText, connectionText)
    }

    /** __init__: empty buffers, a limit of DefaultRows and an empty queue. */
    constructor()
      ensures Valid() && Shown() && rows == [] && rawLines == [] && queue == []
      ensures maxRowsDisplay == DefaultRows
    {
      rows, rawLines, table, rawText := [], [], [], "";
      maxRowsDisplay := DefaultRows;
      queue := [];
      connectionText := "Connections: 0";
      statusText := "Ready";
    }

    /** The receiver's on_data callback: the item joins the back of the queue. */
    method Enqueue(data: string, addr: Address)
      modifies this
      ensures queue == old(queue) + [(data, addr)]
      ensures Contents() == old(Contents()) && table == old(table) && rawText == old(rawText)
      ensures maxRowsDisplay == old(maxRowsDisplay) && Labels() == old(Labels())
    {
      queue := queue + [(data, addr)];
    }

    /** One stored row's cells, column by column. */
    static method RowCells(row: seq<string>) returns (cells: seq<string>)
      ensures cells == Cells(row)
    {
      var n := if |row| < FieldCount then |row| else FieldCount;
      cells := [];
      for j := 0 to n
        invariant |cells| == j && forall k :: 0 <= k < j ==> cells[k] == Cell(row[k])
      {
        cells := cells + [Cell(row[j])];
      }
    }

    /** The table's cell texts, row by row. */
    static method TableCells(rows: seq<seq<string>>) returns (t: seq<seq<string>>)
      ensures t == TableOf(rows)
    {
      t := [];
      for i := 0 to |rows|
        invariant |t| == i && forall k :: 0 <= k < i ==> t[k] == Cells(rows[k])
      {
        var cells := RowCells(rows[i]);
        t := t + [cells];
      }
    }

    /** _update_table. */
    method UpdateTable()
      modifies this
      ensures table == TableOf(rows)
      ensures Contents() == old(Contents()) && rawText == old(rawText) && queue == old(queue)
      ensures maxRowsDisplay == old(maxRowsDisplay) && Labels() == old(Labels())
    {
      table := TableCells(rows);
    }

    /** _update_raw_log. */
    method UpdateRawLog()
      modifies this
      ensures rawText == RawView(rawLines)
      ensures Contents() == old(Contents()) && table == old(table) && queue == old(queue)
      ensures maxRowsDisplay == old(maxRowsDisplay) && Labels() == old(Labels())
    {
      rawText := Join("\n", Tail(rawLines, 100));
    }

    /**
     * The loop of _handle_smdr_data over local copies of the two buffers:
     * every kept line of the chunk adds its raw line and, when it parses to
     * a full-width record, its row.
     */
    static method StoreLines(pieces: seq<string>, rows0: seq<seq<string>>, raw0: seq<string>,
                             parse: string -> Option<seq<string>>, stamp: nat -> string)
      returns (rows: seq<seq<string>>, raw: seq<string>)
      ensures rows == rows0 + Accepted(Kept(pieces), parse)
      ensures raw == raw0 + StampAll(Kept(pieces), stamp)
    {
      rows, raw := rows0, raw0;
      var n := 0;
      for i := 0 to |pieces|
        invariant n == |Kept(pieces[..i])|
        invariant rows == rows0 + Accepted(Kept(pieces[..i]), parse)
        invariant raw == raw0 + StampAll(Kept(pieces[..i]), stamp)
      {
        StoreStep(pieces, i, parse, stamp);
        rows, raw, n := StoreLine(pieces[i], rows, raw, n, parse, stamp);
      }
      assert pieces[..|pieces|] == pieces;
    }

    /**
     * One turn of that loop: an empty line is skipped; any other adds its
     * raw line, stamped by the n-th clock reading, and its row when it
     * parses to a full-width record.
     */
    static method StoreLine(line: string, rows: seq<seq<string>>, raw: seq<string>, n: nat,
                            parse: string -> Option<seq<string>>, stamp: nat -> string)
      returns (rows': seq<seq<string>>, raw': seq<string>, n': nat)
      ensures var fit := Fit(parse(line));
              rows' == rows + (if line != [] && fit.Some? then [fit.value] else [])
      ensures raw' == raw + (if line == [] then [] else [Stamp(stamp(n), line)])
      ensures n' == n + (if line == [] then 0 else 1)
    {
      rows', raw', n' := rows, raw, n;
      if line == [] {
        return;
      }
      raw' := raw + [Stamp(stamp(n), line)];
      var fit := Fit(parse(line));
      if fit.Some? {
        rows' := rows + [fit.value];
      }
      n' := n + 1;
    }

    /**
     * _handle_smdr_data: stores every kept line of the chunk, trims both
     * buffers when the rows overflow, and refreshes both views.
     */
    method HandleSmdrData(data: string, parse: string -> Option<seq<string>>, stamp: nat -> string)
      requires Valid()
      modifies this
      ensures Valid() && Shown()
      ensures Contents() == HandleSpec(old(Contents()), data, parse, stamp, maxRowsDisplay)
      ensures queue == old(queue) && maxRowsDisplay == old(maxRowsDisplay) && Labels() == old(Labels())
    {
      ghost var before := Contents();
      rows, rawLines := StoreLines(Pieces(data), rows, rawLines, parse, stamp);
      if |rows| > maxRowsDisplay {
        rows := Tail(rows, maxRowsDisplay);
        rawLines := Tail(rawLines, maxRowsDisplay);
      }
      assert Contents() == HandleSpec(before, data, parse, stamp, maxRowsDisplay);
      HandleKeepsInv(before, data, parse, stamp, maxRowsDisplay);
      UpdateTable();
      UpdateRawLog();
    }

    /** One round of _process_queue: the front item is taken and handled. */
    method TakeItem(parse: string -> Option<seq<string>>, stamp: nat -> string)
      requires Valid() && queue != []
      modifies this
      ensures Valid() && Shown() && queue == old(queue[1..])
      ensures Contents() == HandleSpec(old(Contents()), old(queue[0].0), parse, stamp, maxRowsDisplay)
      ensures maxRowsDisplay == old(maxRowsDisplay) && Labels() == old(Labels())
    {
      var item := queue[0];
      queue := queue[1..];
      HandleSmdrData(item.0, parse, stamp);
    }

    /**
     * _process_queue: takes items from the front of the queue until it is
     * empty; the connection label is refreshed when something was taken, so
     * an empty queue changes nothing.
     */
    method ProcessQueue(parse: string -> Option<seq<string>>, stamp: nat -> nat -> string, clients: nat)
      requires Valid()
      modifies this
      ensures Valid() && queue == [] && (old(queue) != [] ==> Shown())
      ensures Contents() == DrainSpec(old(Contents()), old(queue), parse, stamp, maxRowsDisplay, |old(queue)|)
      ensures maxRowsDisplay == old(maxRowsDisplay)
      ensures connectionText == if old(queue) == [] then old(connectionText) else "Connections: " + IntToString(clients)
      ensures statusText == old(statusText)
      ensures old(queue) == [] ==> table == old(table) && rawText == old(rawText)
    {
      if queue == [] {
        return;
      }
      var processed := Drain(parse, stamp);
      if processed {
        SetConnections(clients);
      }
    }

    /**
     * The loop of _process_queue: item k is handled with the clock stamp(k);
     * `processed` says whether anything was taken.
     */
    method Drain(parse: string -> Option<seq<string>>, stamp: nat -> nat -> string) returns (processed: bool)
      requires Valid()
      modifies this
      ensures processed <==> old(queue) != []
      ensures Valid() && queue == [] && (processed ==> Shown())
      ensures Contents() == DrainSpec(old(Contents()), old(queue), parse, stamp, maxRowsDisplay, |old(queue)|)
      ensures maxRowsDisplay == old(maxRowsDisplay) && Labels() == old(Labels())
    {
      ghost var items, b0 := queue, Contents();
      processed := false;
      var k := 0;
      while queue != []
        invariant 0 <= k <= |items| && queue == items[k..] && Valid()
        invariant Contents() == DrainSpec(b0, items, parse, stamp, maxRowsDisplay, k)
        invariant maxRowsDisplay == old(maxRowsDisplay) && Labels() == old(Labels())
        invariant processed <==> k > 0
        invariant processed ==> Shown()
        decreases |queue|
      {
        DrainStep(parse, stamp, items, b0, k);
        processed := true;
        k := k + 1;
      }
      assert |items| == k;
    }

    /** Round k of the loop of _process_queue, stated against DrainSpec. */
    method DrainStep(parse: string -> Option<seq<string>>, stamp: nat -> nat -> string,
                     ghost items: seq<(string, Address)>, ghost b0: Buffers, k: nat)
      requires Valid() && k < |items| && queue == items[k..]
      requires Contents() == DrainSpec(b0, items, parse, stamp, maxRowsDisplay, k)
      modifies this
      ensures Valid() && Shown() && queue == items[k + 1..]
      ensures Contents() == DrainSpec(b0, items, parse, stamp, maxRowsDisplay, k + 1)
      ensures maxRowsDisplay == old(maxRowsDisplay) && Labels() == old(Labels())
    {
      assert queue[0] == items[k] && queue[1..] == items[k + 1..];
      TakeItem(parse, stamp(k));
    }

    /** The connection label shows the number of connected clients. */
    method SetConnections(clients: nat)
      modifies this
      ensures connectionText == "Connections: " + IntToString(clients)
      ensures Contents() == old(Contents()) && table == old(table) && rawText == old(rawText)
      ensures queue == old(queue) && maxRowsDisplay == old(maxRowsDisplay) && statusText == old(statusText)
    {
      connectionText := "Connections: " + IntToString(clients);
    }

    /** _clear_data, after the user confirmed: both buffers and both views are emptied. */
    method ClearData(confirmed: bool)
      requires Valid()
      modifies this
      ensures Valid() && queue == old(queue) && maxRowsDisplay == old(maxRowsDisplay)
      ensures confirmed ==> rows == [] && rawLines == [] && Shown() && table == [] && rawText == "" && statusText == "Data cleared"
      ensures !confirmed ==> Contents() == old(Contents()) && statusText == old(statusText)
      ensures !confirmed ==> table == old(table) && rawText == old(rawText)
      ensures connectionText == old(connectionText)
    {
      if confirmed {
        rows := [];
        rawLines := [];
        UpdateTable();
        UpdateRawLog();
        statusText := "Data cleared";
      }
    }

    /** The display settings dialog accepted with a new row limit from its spin box. */
    method SetMaxRows(value: nat)
      requires Valid() && MinRows <= value <= MaxRows
      modifies this
      ensures Valid() && maxRowsDisplay == value
      ensures Contents() == old(Contents()) && queue == old(queue)
      ensures table == old(table) && rawText == old(rawText) && Labels() == old(Labels())
    {
      maxRowsDisplay := value;
    }
  }
}
