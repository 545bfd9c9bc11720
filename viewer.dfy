/**
 * The standalone viewer (smdr_viewer.py): a table fed either by following
 * the log file from a byte offset or by lines streamed over a socket, with
 * the log-line parser that recovers each record's CSV part.
 */
module Viewer {
  import opened Text
  import opened Server
  import opened Search
  import opened LogLine

  /** connection_mode. */
  datatype Mode = FileMode | NetworkMode

  /** What the file system says about the log file: absent, or present with its size in bytes. */
  datatype FileStat = Absent | Present(size: nat)

  /**
   * The lines a read of the log file yields, up to the end of the file or to
   * the error that ended it; `completed` is false when an error ended it.
   */
  datatype Read = Read(lines: seq<string>, completed: bool)

  /** The outcome of socket.create_connection. */
  datatype Connect = Connected(sock: nat) | ConnectFailed

  /**
   * The record a stripped log line contributes: none for an empty line, a
   * line without "] " or without a space after the address, or a CSV part
   * that parses to nothing or to an empty row.
   */
  function LineRecord(line: string, parse: string -> Option<seq<string>>): (r: Option<seq<string>>)
  {
    if line == [] then None
    else
      match CsvPart(line)
      case None => None
      case Some(data) =>
        match parse(data)
        case None => None
        case Some(parsed) => if parsed != [] then Some(parsed) else None
  }

  /**
   * A line yields a record only when it has a CSV part that parses to a
   * non-empty row, and the record is that row; an empty line or one without
   * "] " yields none.
   */
  lemma LineRecordSpec(line: string, parse: string -> Option<seq<string>>)
    ensures LineRecord(line, parse).Some? <==>
              line != [] && CsvPart(line).Some? && parse(CsvPart(line).value).Some? && parse(CsvPart(line).value).value != []
    ensures LineRecord(line, parse).Some? ==> LineRecord(line, parse) == parse(CsvPart(line).value)
    ensures line == [] || !Contains(line, "] ") ==> LineRecord(line, parse).None?
  {
    CsvPartSpec(line);
  }

  /** The table rows one line adds: its record's row, if it has a record. */
  function RowOf(r: Option<seq<string>>): seq<seq<string>>
  {
    if r.Some? then [TableRow(r.value)] else []
  }

  /** The rows the first n lines add, each line stripped before it is parsed. */
  function Rows(lines: seq<string>, parse: string -> Option<seq<string>>, n: nat): seq<seq<string>>
    requires n <= |lines|
  {
    if n == 0 then [] else Rows(lines, parse, n - 1) + RowOf(LineRecord(Strip(lines[n - 1]), parse))
  }

  /** Every added row has one cell per field, and there is at most one per line. */
  lemma {:induction false} RowsShape(lines: seq<string>, parse: string -> Option<seq<string>>, n: nat)
    requires n <= |lines|
    ensures |Rows(lines, parse, n)| <= n
    ensures forall i :: 0 <= i < |Rows(lines, parse, n)| ==> |Rows(lines, parse, n)[i]| == FieldCount
  {
    if n > 0 {
      RowsShape(lines, parse, n - 1);
      RowOfShape(LineRecord(Strip(lines[n - 1]), parse));
      var a, b := Rows(lines, parse, n - 1), RowOf(LineRecord(Strip(lines[n - 1]), parse));
      assert Rows(lines, parse, n) == a + b;
      forall i | 0 <= i < |a + b| ensures |(a + b)[i]| == FieldCount {
        if i < |a| { assert (a + b)[i] == a[i]; } else { assert (a + b)[i] == b[i - |a|]; }
      }
    }
  }

  lemma RowOfShape(r: Option<seq<string>>)
    ensures |RowOf(r)| <= 1
    ensures forall i :: 0 <= i < |RowOf(r)| ==> |RowOf(r)[i]| == FieldCount
  {
    if r.Some? {
      TableRowShape(r.value);
    }
  }

  /**
   * A line the receiver or the service wrote is read back as the record its
   * CSV data parses to, provided that record is not empty.
   */
  lemma LineRecordOfStamped(ts: string, addr: Address, data: string, parse: string -> Option<seq<string>>)
    requires Excludes(ts, ']') && Excludes(addr.host, ' ')
    ensures LineRecord(Stamped(ts, addr, data), parse) ==
              if parse(data).Some? && parse(data).value != [] then parse(data) else None
  {
    CsvPartOfStamped(ts, addr, data);
    assert Stamped(ts, addr, data)[0] == '[';
  }

  /** SMDRViewer, with the state the modelled methods touch. */
  class ViewerWindow {
    var mode: Mode
    var logPath: string
    var lastPosition: nat
    var linesDisplayed: nat
    var netSock: Option<nat>
    var netThread: Option<nat>
    var netRunning: bool
    var timerRunning: bool
    var watched: set<string>           // the file watcher's paths
    var table: seq<seq<string>>
    const cursor: Cursor

    /** Network mode is exactly the state with a socket, a reader thread, the running flag and no timer. */
    ghost predicate Valid()
      reads this, cursor
    {
      && (mode == NetworkMode <==> netSock.Some?)
      && (mode == NetworkMode <==> netThread.Some?)
      && (mode == NetworkMode <==> netRunning)
      && (mode == FileMode <==> timerRunning)
      && cursor.Valid()
    }

    /** The connection part of the state, which line processing leaves alone. */
    function Link(): (Mode, Option<nat>, Option<nat>, bool, bool, set<string>, string)
      reads this
    {
      (mode, netSock, netThread, netRunning, timerRunning, watched, logPath)
    }

    /** The table and counter part of the state, which line processing changes. */
    function Shown(): (seq<seq<string>>, nat)
      reads this
    {
      (table, linesDisplayed)
    }

    /** __init__ in file mode, then _load_existing_data. */
    constructor(path: string, stat: FileStat, read: Read, parse: string -> Option<seq<string>>)
      ensures Valid() && fresh(cursor) && mode == FileMode && logPath == path
      ensures watched == (if stat.Present? then {path} else {})
      ensures table == (if stat.Present? then Rows(read.lines, parse, |read.lines|) else [])
      ensures linesDisplayed == |table|
      ensures lastPosition == if stat.Present? && read.completed then stat.size else 0
    {
      mode := FileMode;
      logPath := path;
      lastPosition := 0;
      linesDisplayed := 0;
      netSock, netThread, netRunning := None, None, false;
      timerRunning := true;
      watched := if stat.Present? then {path} else {};
      table := [];
      cursor := new Cursor();
      new;
      LoadExistingData(stat, read, parse);
    }

    /** _add_table_row. */
    method AddTableRow(parsed: seq<string>)
      modifies this
      ensures table == old(table) + [TableRow(parsed)]
      ensures linesDisplayed == old(linesDisplayed) && lastPosition == old(lastPosition) && Link() == old(Link())
    {
      var cells := BuildTableRow(parsed);
      table := table + [cells];
    }

    /** _process_line: a row and one displayed line for each line that yields a record. */
    method ProcessLine(line: string, parse: string -> Option<seq<string>>)
      modifies this
      ensures table == old(table) + RowOf(LineRecord(line, parse))
      ensures linesDisplayed == old(linesDisplayed) + |RowOf(LineRecord(line, parse))|
      ensures lastPosition == old(lastPosition) && Link() == old(Link())
    {
      if line == [] {
        return;
      }
      var parts := SplitOnce(line, "] ");
      if parts.None? {
        return;
      }
      var addrAndData := SplitOnce(parts.value.1, " ");
      if addrAndData.None? {
        return;
      }
      var parsed := parse(addrAndData.value.1);
      if parsed.Some? && parsed.value != [] {
        AddTableRow(parsed.value);
        linesDisplayed := linesDisplayed + 1;
      }
    }

    /** The `for line in f: self._process_line(line.strip())` loop. */
    method ReadLines(lines: seq<string>, parse: string -> Option<seq<string>>)
      modifies this
      ensures table == old(table) + Rows(lines, parse, |lines|)
      ensures linesDisplayed == old(linesDisplayed) + |Rows(lines, parse, |lines|)|
      ensures lastPosition == old(lastPosition) && Link() == old(Link())
    {
      for i := 0 to |lines|
        invariant table == old(table) + Rows(lines, parse, i)
        invariant linesDisplayed == old(linesDisplayed) + |Rows(lines, parse, i)|
        invariant lastPosition == old(lastPosition) && Link() == old(Link())
      {
        ProcessLine(Strip(lines[i]), parse);
      }
    }

    /**
     * _load_existing_data: nothing when the file is absent; otherwise every
     * line read is processed and, when the read completed, the offset moves
     * to the file size.
     */
    method LoadExistingData(stat: FileStat, read: Read, parse: string -> Option<seq<string>>)
      modifies this
      ensures stat.Absent? ==> Shown() == old(Shown()) && lastPosition == old(lastPosition)
      ensures stat.Present? ==>
                table == old(table) + Rows(read.lines, parse, |read.lines|)
                && linesDisplayed == old(linesDisplayed) + |Rows(read.lines, parse, |read.lines|)|
                && lastPosition == if read.completed then stat.size else old(lastPosition)
      ensures Link() == old(Link())
    {
      if stat.Absent? {
        return;
      }
      ReadLines(read.lines, parse);
      if read.completed {
        lastPosition := stat.size;
      }
    }

    /**
     * _check_for_updates: in file mode, and only when the file has grown
     * past the offset, the new lines are processed and the offset moves to
     * the size once the read completes. The offset never decreases.
     */
    method CheckForUpdates(stat: FileStat, read: Read, parse: string -> Option<seq<string>>)
      modifies this
      ensures lastPosition >= old(lastPosition)
      ensures old(mode) == NetworkMode || stat.Absent? || stat.size <= old(lastPosition) ==>
                Shown() == old(Shown()) && lastPosition == old(lastPosition)
      ensures old(mode) == FileMode && stat.Present? && stat.size > old(lastPosition) ==>
                table == old(table) + Rows(read.lines, parse, |read.lines|)
                && linesDisplayed == old(linesDisplayed) + |Rows(read.lines, parse, |read.lines|)|
                && lastPosition == if read.completed then stat.size else old(lastPosition)
      ensures Link() == old(Link())
    {
      if mode == NetworkMode || stat.Absent? {
        return;
      }
      if stat.size > lastPosition {
        ReadLines(read.lines, parse);
        if read.completed {
          lastPosition := stat.size;
        }
      }
    }

    /**
     * _open_log_file: a chosen path resets the offset, the counter and the
     * table, watches the new file if it exists and loads it.
     */
    method OpenLogFile(chosen: Option<string>, stat: FileStat, read: Read, parse: string -> Option<seq<string>>)
      modifies this
      ensures chosen.None? ==> Shown() == old(Shown()) && lastPosition == old(lastPosition) && logPath == old(logPath)
                               && watched == old(watched)
      ensures chosen.Some? ==>
                logPath == chosen.value
                && watched == (if stat.Present? then {chosen.value} else {})
                && table == (if stat.Present? then Rows(read.lines, parse, |read.lines|) else [])
                && linesDisplayed == |table|
                && lastPosition == if stat.Present? && read.completed then stat.size else 0
      ensures mode == old(mode) && netSock == old(netSock) && netThread == old(netThread) && netRunning == old(netRunning)
      ensures timerRunning == old(timerRunning)
    {
      if chosen.None? {
        return;
      }
      logPath := chosen.value;
      lastPosition := 0;
      linesDisplayed := 0;
      table := [];
      watched := if stat.Present? then {logPath} else {};
      LoadExistingData(stat, read, parse);
    }

    /** _clear_display: on confirmation, empties the table and skips to the current end of the file. */
    method ClearDisplay(confirmed: bool, stat: FileStat)
      modifies this
      ensures !confirmed ==> Shown() == old(Shown()) && lastPosition == old(lastPosition)
      ensures confirmed ==> table == [] && linesDisplayed == 0 && lastPosition == if stat.Present? then stat.size else 0
      ensures Link() == old(Link())
    {
      if confirmed {
        table := [];
        linesDisplayed := 0;
        lastPosition := if stat.Present? then stat.size else 0;
      }
    }

    /**
     * _start_network_client: already in network mode or a failed connect
     * changes nothing; a connection switches to network mode, stops the
     * timer and the file watcher and starts the reader thread.
     */
    method StartNetworkClient(connect: Connect, thread: nat)
      requires Valid()
      modifies this
      ensures Valid()
      ensures old(mode) == NetworkMode || connect.ConnectFailed? ==>
                mode == old(mode) && netSock == old(netSock) && netThread == old(netThread) && watched == old(watched)
      ensures old(mode) == FileMode && connect.Connected? ==>
                mode == NetworkMode && netSock == Some(connect.sock) && netThread == Some(thread) && watched == {}
      ensures Shown() == old(Shown()) && lastPosition == old(lastPosition) && logPath == old(logPath)
    {
      if mode == NetworkMode {
        return;
      }
      if connect.ConnectFailed? {
        return;
      }
      mode := NetworkMode;
      timerRunning := false;
      watched := {};
      netSock := Some(connect.sock);
      netRunning := true;
      netThread := Some(thread);
    }

    /**
     * _stop_network_client: outside network mode nothing changes; otherwise
     * the socket and thread are dropped and file mode resumes, watching the
     * log file again if it exists.
     */
    method StopNetworkClient(stat: FileStat)
      requires Valid()
      modifies this
      ensures Valid()
      ensures old(mode) == FileMode ==> mode == FileMode && netSock == old(netSock) && watched == old(watched)
      ensures old(mode) == NetworkMode ==>
                mode == FileMode && netSock == None && netThread == None && !netRunning && timerRunning
                && watched == old(watched) + (if stat.Present? then {logPath} else {})
      ensures Shown() == old(Shown()) && lastPosition == old(lastPosition) && logPath == old(logPath)
    {
      if mode != NetworkMode {
        return;
      }
      netRunning := false;
      netSock := None;
      netThread := None;
      mode := FileMode;
      if stat.Present? {
        watched := watched + {logPath};
      }
      timerRunning := true;
    }

    /**
     * _network_loop: every line read until end of stream is processed and
     * counted once more on top of _process_line's own count; then the client
     * stops and file mode resumes.
     */
    method NetworkLoop(lines: seq<string>, parse: string -> Option<seq<string>>, stat: FileStat)
      requires Valid() && mode == NetworkMode
      modifies this
      ensures Valid() && mode == FileMode && netSock == None && netThread == None
      ensures table == old(table) + Rows(lines, parse, |lines|)
      ensures linesDisplayed == old(linesDisplayed) + |lines| + |Rows(lines, parse, |lines|)|
      ensures lastPosition == old(lastPosition) && logPath == old(logPath)
    {
      ReadStream(lines, parse);
      StopNetworkClient(stat);
    }

    /** The body of _network_loop: while the running flag is set, each line read is processed and counted. */
    method ReadStream(lines: seq<string>, parse: string -> Option<seq<string>>)
      requires netRunning
      modifies this
      ensures table == old(table) + Rows(lines, parse, |lines|)
      ensures linesDisplayed == old(linesDisplayed) + |lines| + |Rows(lines, parse, |lines|)|
      ensures lastPosition == old(lastPosition) && Link() == old(Link())
    {
      var i := 0;
      while i < |lines| && netRunning
        invariant 0 <= i <= |lines| && Link() == old(Link()) && netRunning
        invariant table == old(table) + Rows(lines, parse, i)
        invariant linesDisplayed == old(linesDisplayed) + i + |Rows(lines, parse, i)|
        invariant lastPosition == old(lastPosition)
      {
        StreamLine(lines[i], parse);
        i := i + 1;
      }
    }

    /** One pass of _network_loop: the line is processed, then counted. */
    method StreamLine(line: string, parse: string -> Option<seq<string>>)
      modifies this
      ensures table == old(table) + RowOf(LineRecord(Strip(line), parse))
      ensures linesDisplayed == old(linesDisplayed) + 1 + |RowOf(LineRecord(Strip(line), parse))|
      ensures lastPosition == old(lastPosition) && Link() == old(Link())
    {
      ProcessLine(Strip(line), parse);
      linesDisplayed := linesDisplayed + 1;
    }

    /** _search_next: the table search shared with the receiver window. */
    method SearchNext(input: string) returns (selected: Option<Match>)
      requires Valid()
      modifies cursor
      ensures Valid()
      ensures Strip(input) == [] ==> selected == None && cursor.matches == old(cursor.matches) && cursor.index == old(cursor.index)
      ensures Strip(input) != [] ==> cursor.Searched(old(cursor.matches), old(cursor.index), table, Strip(input), selected)
    {
      selected := cursor.Next(table, input);
    }

    /** _clear_search. */
    method ClearSearch()
      requires Valid()
      modifies cursor
      ensures Valid() && cursor.matches == [] && cursor.index == -1
    {
      cursor.Clear();
    }
  }
}
