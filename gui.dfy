/**
 * The receiver window (smdr/gui.py) without its widgets: the fixed-width
 * header and row layout, the queue polling that turns received text into raw
 * lines, table rows, log lines and the byte counter, the table search, and
 * the parsing of `netstat -ano` output and `taskkill` return codes used to
 * free a busy port.
 */
module Gui {
  import opened Text
  import opened Server
  import opened Search
  import opened LogLine

  // ---------------------------------------------------------------------------
  // Titles and widths
  // ---------------------------------------------------------------------------

  const ColSep: string := " | "

  predicate IsLetter(c: char)
  {
    'a' <= c <= 'z' || 'A' <= c <= 'Z'
  }

  /** A character of str.title(): letters after a letter go lower case, other letters upper case. */
  function TitleChar(afterLetter: bool, c: char): char
  {
    if !IsLetter(c) then c else if afterLetter then LowerChar(c) else UpperChar(c)
  }

  /**
   * str.title() on ASCII text: each character is cased by whether the
   * character before it is a letter.
   */
  function Title(s: string): (r: string)
    ensures |r| == |s|
  {
    seq(|s|, i requires 0 <= i < |s| => TitleChar(i > 0 && IsLetter(s[i - 1]), s[i]))
  }

  /** name.replace("_", " ").title(). */
  function FieldTitle(name: string): (t: string)
    ensures |t| == |name|
  {
    Title(ReplaceChar(name, '_', ' '))
  }

  /** The column titles, in field order. */
  function Titles(names: seq<string>): (ts: seq<string>)
    ensures |ts| == |names|
  {
    seq(|names|, i requires 0 <= i < |names| => FieldTitle(names[i]))
  }

  /** The time, date and SMDR columns get the wider floor. */
  predicate WideName(name: string)
  {
    Contains(name, "time") || Contains(name, "date") || Contains(name, "smdr")
  }

  function Floor(name: string): nat
  {
    if WideName(name) then 19 else 12
  }

  /** The width of a column: its title length, but no less than its floor. */
  function FieldWidth(name: string): nat
  {
    var t := |FieldTitle(name)|;
    if t > Floor(name) then t else Floor(name)
  }

  /** The widths _format_headers caches, in field order. */
  function Widths(names: seq<string>): (ws: seq<nat>)
    ensures |ws| == |names|
  {
    seq(|names|, i requires 0 <= i < |names| => FieldWidth(names[i]))
  }

  /**
   * A column is exactly as wide as the larger of its title and its floor (19
   * for time/date/SMDR names, 12 otherwise), so it always holds its title.
   */
  lemma FieldWidthSpec(name: string)
    ensures FieldWidth(name) >= |FieldTitle(name)| && FieldWidth(name) >= Floor(name)
    ensures FieldWidth(name) == |name| || FieldWidth(name) == Floor(name)
    ensures FieldWidth(name) >= 12 && (WideName(name) ==> FieldWidth(name) >= 19)
  {
  }

  lemma SpacedName()
    ensures ReplaceChar("call_start_time", '_', ' ') == "call start time"
  {
    var s := ReplaceChar("call_start_time", '_', ' ');
    forall i | 0 <= i < |s| ensures s[i] == "call start time"[i] {
    }
  }

  lemma TitledName()
    ensures Title("call start time") == "Call Start Time"
  {
    var s := "call start time";
    var t := Title(s);
    assert t[0] == 'C' && t[1] == 'a' && t[2] == 'l' && t[3] == 'l' && t[4] == ' ';
    assert t[5] == 'S' && t[6] == 't' && t[7] == 'a' && t[8] == 'r' && t[9] == 't' && t[10] == ' ';
    assert t[11] == 'T' && t[12] == 'i' && t[13] == 'm' && t[14] == 'e';
  }

  /** The first header title, as the header test expects it. */
  lemma FirstTitle()
    ensures FieldTitle("call_start_time") == "Call Start Time"
  {
    SpacedName();
    TitledName();
  }

  /** The loop of _format_headers that computes one width per field. */
  method ComputeWidths(names: seq<string>) returns (ws: seq<nat>)
    ensures |ws| == |names| && forall i :: 0 <= i < |names| ==> ws[i] == FieldWidth(names[i])
    ensures ws == Widths(names)
  {
    ws := [];
    for i := 0 to |names|
      invariant |ws| == i && forall j :: 0 <= j < i ==> ws[j] == FieldWidth(names[j])
    {
      var t := FieldTitle(names[i]);
      var w := if WideName(names[i]) then (if |t| > 19 then |t| else 19) else (if |t| > 12 then |t| else 12);
      ws := ws + [w];
    }
  }

  // ---------------------------------------------------------------------------
  // Header and row layout
  // ---------------------------------------------------------------------------

  function Min(a: nat, b: nat): nat
  {
    if a < b then a else b
  }

  /** The header cells: each title left-justified to its width (zip stops at the shorter list). */
  function HeaderParts(names: seq<string>, widths: seq<nat>): seq<string>
  {
    seq(Min(|names|, |widths|), i requires 0 <= i < Min(|names|, |widths|) => LJust(FieldTitle(names[i]), widths[i]))
  }

  function HeaderText(names: seq<string>, widths: seq<nat>): string
  {
    Join(ColSep, HeaderParts(names, widths))
  }

  /** One cell of a row: padded when it fits, otherwise cut and marked with '...'. */
  function Cell(val: string, w: nat): (r: string)
    ensures |r| == w
    ensures |val| <= w ==> r[..|val|] == val && forall i :: |val| <= i < w ==> r[i] == ' '
    ensures |val| > w && w > 3 ==> r[..w - 3] == val[..w - 3] && r[w - 3..] == "..."
    ensures |val| > w && w <= 3 ==> r == val[..w]
  {
    if |val| <= w then LJust(val, w)
    else if w > 3 then
      var r := val[..w - 3] + "...";
      assert r[..w - 3] == val[..w - 3];
      r
    else val[..w]
  }

  /** The normalised value of column i: the field's text, '' for None or a missing field. */
  function ColumnValue(fields: seq<Option<string>>, i: nat): string
  {
    if i < |fields| && i < FieldCount && fields[i].Some? then fields[i].value else ""
  }

  function RowCells(fields: seq<Option<string>>, widths: seq<nat>): seq<string>
  {
    seq(Min(FieldCount, |widths|), i requires 0 <= i < Min(FieldCount, |widths|) => Cell(ColumnValue(fields, i), widths[i]))
  }

  /** The text _format_row returns. */
  function RowText(fields: seq<Option<string>>, widths: seq<nat>): string
  {
    Join(ColSep, RowCells(fields, widths))
  }

  /**
   * With the cached widths, a row has exactly one cell per field, each as
   * wide as its column, so every column starts at the same offset as in the
   * header and the two lines have the same length.
   */
  lemma RowAlignsWithHeader(names: seq<string>, fields: seq<Option<string>>)
    requires |names| == FieldCount
    ensures |RowCells(fields, Widths(names))| == |HeaderParts(names, Widths(names))| == FieldCount
    ensures forall i :: 0 <= i < FieldCount ==>
              |RowCells(fields, Widths(names))[i]| == |HeaderParts(names, Widths(names))[i]| == Widths(names)[i]
    ensures forall k :: 0 <= k <= FieldCount ==>
              |Join(ColSep, RowCells(fields, Widths(names))[..k])| == |Join(ColSep, HeaderParts(names, Widths(names))[..k])|
    ensures |RowText(fields, Widths(names))| == |HeaderText(names, Widths(names))|
  {
    var ws := Widths(names);
    var a, b := RowCells(fields, ws), HeaderParts(names, ws);
    forall i | 0 <= i < FieldCount ensures |b[i]| == ws[i] {
      FieldWidthSpec(names[i]);
    }
    forall k | 0 <= k <= FieldCount ensures |Join(ColSep, a[..k])| == |Join(ColSep, b[..k])| {
      JoinSameShape(ColSep, a[..k], b[..k]);
    }
    assert a[..FieldCount] == a && b[..FieldCount] == b;
  }

  /** A row laid out over at least two columns is never the empty string. */
  lemma RowTextNonEmpty(fields: seq<Option<string>>, widths: seq<nat>)
    requires |widths| >= 2
    ensures RowText(fields, widths) != ""
  {
    JoinLengthAtLeast(ColSep, RowCells(fields, widths));
  }

  /** parsed values as the optional field values _format_row accepts. */
  function AsFields(parsed: seq<string>): (r: seq<Option<string>>)
    ensures |r| == |parsed| && forall i :: 0 <= i < |parsed| ==> r[i] == Some(parsed[i])
  {
    seq(|parsed|, i requires 0 <= i < |parsed| => Some(parsed[i]))
  }

  // ---------------------------------------------------------------------------
  // Queue polling
  // ---------------------------------------------------------------------------

  /** What the window has accumulated: the state _poll_queue updates. */
  datatype View = View(
    rows: seq<seq<string>>,     // _rows: parsed records
    rawLines: seq<string>,      // _raw_lines: timestamped raw lines
    table: seq<seq<string>>,    // the rows of the table widget
    text: seq<string>,          // lines appended to the text widget
    log: seq<string>,           // text appended to the log file
    bytes: nat)                 // bytes_received

  /** What a poll depends on besides the queue. */
  datatype Env = Env(
    parse: string -> Option<seq<string>>,  // the CSV reader: None when it raises or yields nothing
    widths: seq<nat>,
    formattedView: bool,
    logWritable: nat -> bool)              // whether appending the k-th raw line's text to the log file succeeds

  /** How one non-empty line is shown: its raw form, the record kept (if any) and the text displayed. */
  datatype Shown = Shown(raw: string, stored: Option<seq<string>>, out: string)

  /**
   * A line whose CSV parse formats to a non-empty row is shown formatted and
   * its record kept; any other line is shown raw.
   */
  function Show(line: string, ts: string, addr: Address, env: Env): (s: Shown)
    ensures s.raw == Stamped(ts, addr, line)
    ensures s.stored.Some? ==> env.parse(line) == s.stored && s.out == RowText(AsFields(s.stored.value), env.widths) != ""
    ensures s.stored.None? ==> s.out == s.raw
                               && (env.parse(line).None? || RowText(AsFields(env.parse(line).value), env.widths) == "")
  {
    var raw := Stamped(ts, addr, line);
    var parsed := env.parse(line);
    var formatted := if parsed.Some? then RowText(AsFields(parsed.value), env.widths) else "";
    if formatted != "" then Shown(raw, parsed, formatted) else Shown(raw, None, raw)
  }

  /** The state after showing one line. */
  function Apply(v: View, s: Shown, env: Env): View
  {
    View(v.rows + (if s.stored.Some? then [s.stored.value] else []),
         v.rawLines + [s.raw],
         v.table + (if s.stored.Some? && env.formattedView then [TableRow(s.stored.value)] else []),
         v.text + [s.out],
         v.log + (if env.logWritable(|v.rawLines|) then [s.out + "\n"] else []),
         v.bytes + |s.out| + 1)
  }

  /** One line of a received text; empty lines are skipped. */
  function LineStep(v: View, line: string, ts: string, addr: Address, env: Env): View
  {
    if line == [] then v else Apply(v, Show(line, ts, addr, env), env)
  }

  /** The first m lines of one received text. */
  function LinesStep(v: View, lines: seq<string>, ts: string, addr: Address, env: Env, m: nat): View
    requires m <= |lines|
  {
    if m == 0 then v else LineStep(LinesStep(v, lines, ts, addr, env, m - 1), lines[m - 1], ts, addr, env)
  }

  /** One queued (text, addr) item, all of its lines stamped with ts. */
  function ItemStep(v: View, item: (string, Address), ts: string, env: Env): View
  {
    LinesStep(v, SplitLines(item.0), ts, item.1, env, |SplitLines(item.0)|)
  }

  /** The first n queued items; item k is stamped stamp(k). */
  function PollSpec(v: View, items: seq<(string, Address)>, stamp: nat -> string, env: Env, n: nat): View
    requires n <= |items|
  {
    if n == 0 then v else ItemStep(PollSpec(v, items, stamp, env, n - 1), items[n - 1], stamp(n - 1), env)
  }

  /** Characters of the lines plus one newline each. */
  function Weight(xs: seq<string>): nat
  {
    if xs == [] then 0 else Weight(xs[..|xs| - 1]) + |xs[|xs| - 1]| + 1
  }

  function WithNewlines(xs: seq<string>): seq<string>
  {
    seq(|xs|, i requires 0 <= i < |xs| => xs[i] + "\n")
  }

  /**
   * What the log file receives for the displayed lines outs, the first of
   * which is raw line number start: each line and a newline, when its own
   * write succeeds.
   */
  function Written(outs: seq<string>, start: nat, w: nat -> bool): seq<string>
  {
    if outs == [] then []
    else Written(outs[..|outs| - 1], start, w) + (if w(start + |outs| - 1) then [outs[|outs| - 1] + "\n"] else [])
  }

  /** b starts with a. */
  ghost predicate Extends<T>(a: seq<T>, b: seq<T>)
  {
    |a| <= |b| && b[..|a|] == a
  }

  /**
   * What polling keeps true between the state before (v0) and after (v):
   * every list only grows; each handled line adds one raw line and one
   * displayed line; at most one record per raw line; the byte counter grows
   * by the characters displayed plus one newline per line; and the log
   * receives exactly the displayed lines whose write succeeded, in order.
   */
  ghost predicate Grew(v0: View, v: View, env: Env)
  {
    && Extends(v0.rows, v.rows) && Extends(v0.rawLines, v.rawLines) && Extends(v0.table, v.table)
    && Extends(v0.text, v.text) && Extends(v0.log, v.log)
    && |v.text| - |v0.text| == |v.rawLines| - |v0.rawLines|
    && |v.rows| - |v0.rows| <= |v.rawLines| - |v0.rawLines|
    && v.bytes == v0.bytes + Weight(v.text[|v0.text|..])
    && v.log[|v0.log|..] == Written(v.text[|v0.text|..], |v0.rawLines|, env.logWritable)
  }

  lemma ExtendsRefl<T>(a: seq<T>)
    ensures Extends(a, a) && a[|a|..] == []
  {
  }

  lemma ExtendsSnoc<T>(a: seq<T>, b: seq<T>, tail: seq<T>)
    requires Extends(a, b)
    ensures Extends(a, b + tail) && (b + tail)[|a|..] == b[|a|..] + tail
  {
    assert (b + tail)[..|a|] == b[..|a|];
  }

  lemma ExtendsTrans<T>(a: seq<T>, b: seq<T>, c: seq<T>)
    requires Extends(a, b) && Extends(b, c)
    ensures Extends(a, c) && c[|a|..] == b[|a|..] + c[|b|..]
  {
    assert c[..|a|] == c[..|b|][..|a|];
    assert c == c[..|b|] + c[|b|..];
  }

  lemma WeightSnoc(xs: seq<string>, x: string)
    ensures Weight(xs + [x]) == Weight(xs) + |x| + 1
  {
    assert (xs + [x])[..|xs|] == xs;
  }

  lemma {:induction false} WeightConcat(xs: seq<string>, ys: seq<string>)
    ensures Weight(xs + ys) == Weight(xs) + Weight(ys)
  {
    if ys != [] {
      var init := ys[..|ys| - 1];
      WeightConcat(xs, init);
      assert (xs + ys)[..|xs + ys| - 1] == xs + init;
    } else {
      assert xs + ys == xs;
    }
  }

  lemma WrittenSnoc(xs: seq<string>, x: string, start: nat, w: nat -> bool)
    ensures Written(xs + [x], start, w) == Written(xs, start, w) + (if w(start + |xs|) then [x + "\n"] else [])
  {
    assert (xs + [x])[..|xs|] == xs;
  }

  lemma {:induction false} WrittenConcat(xs: seq<string>, ys: seq<string>, start: nat, w: nat -> bool)
    ensures Written(xs + ys, start, w) == Written(xs, start, w) + Written(ys, start + |xs|, w)
  {
    if ys == [] {
      assert xs + ys == xs;
    } else {
      var init := ys[..|ys| - 1];
      WrittenConcat(xs, init, start, w);
      assert (xs + ys)[..|xs + ys| - 1] == xs + init;
    }
  }

  /** When every write succeeds the log receives every displayed line with its newline. */
  lemma {:induction false} WrittenAll(outs: seq<string>, start: nat, w: nat -> bool)
    requires forall k :: start <= k < start + |outs| ==> w(k)
    ensures Written(outs, start, w) == WithNewlines(outs)
  {
    if outs != [] {
      WrittenAll(outs[..|outs| - 1], start, w);
    }
  }

  /** When every write fails the log receives nothing. */
  lemma {:induction false} WrittenNone(outs: seq<string>, start: nat, w: nat -> bool)
    requires forall k :: start <= k < start + |outs| ==> !w(k)
    ensures Written(outs, start, w) == []
  {
    if outs != [] {
      WrittenNone(outs[..|outs| - 1], start, w);
    }
  }

  lemma GrewRefl(v: View, env: Env)
    ensures Grew(v, v, env)
  {
    ExtendsRefl(v.rows);
    ExtendsRefl(v.rawLines);
    ExtendsRefl(v.table);
    ExtendsRefl(v.text);
    ExtendsRefl(v.log);
  }

  /** Showing one more line keeps Grew. */
  lemma ApplyGrows(v0: View, v: View, s: Shown, env: Env)
    requires Grew(v0, v, env)
    ensures Grew(v0, Apply(v, s, env), env)
  {
    var w := Apply(v, s, env);
    ExtendsSnoc(v0.rows, v.rows, if s.stored.Some? then [s.stored.value] else []);
    ExtendsSnoc(v0.rawLines, v.rawLines, [s.raw]);
    ExtendsSnoc(v0.table, v.table, if s.stored.Some? && env.formattedView then [TableRow(s.stored.value)] else []);
    ExtendsSnoc(v0.text, v.text, [s.out]);
    ExtendsSnoc(v0.log, v.log, if env.logWritable(|v.rawLines|) then [s.out + "\n"] else []);
    WeightSnoc(v.text[|v0.text|..], s.out);
    WrittenSnoc(v.text[|v0.text|..], s.out, |v0.rawLines|, env.logWritable);
  }

  lemma {:induction false} LinesStepGrows(v0: View, lines: seq<string>, ts: string, addr: Address, env: Env, m: nat)
    requires m <= |lines|
    ensures Grew(v0, LinesStep(v0, lines, ts, addr, env, m), env)
  {
    if m == 0 {
      GrewRefl(v0, env);
    } else {
      LinesStepGrows(v0, lines, ts, addr, env, m - 1);
      var v := LinesStep(v0, lines, ts, addr, env, m - 1);
      if lines[m - 1] != [] {
        ApplyGrows(v0, v, Show(lines[m - 1], ts, addr, env), env);
      }
    }
  }

  lemma GrewTrans(a: View, b: View, c: View, env: Env)
    requires Grew(a, b, env) && Grew(b, c, env)
    ensures Grew(a, c, env)
  {
    ExtendsTrans(a.rows, b.rows, c.rows);
    ExtendsTrans(a.rawLines, b.rawLines, c.rawLines);
    ExtendsTrans(a.table, b.table, c.table);
    ExtendsTrans(a.text, b.text, c.text);
    ExtendsTrans(a.log, b.log, c.log);
    WeightConcat(b.text[|a.text|..], c.text[|b.text|..]);
    WrittenConcat(b.text[|a.text|..], c.text[|b.text|..], |a.rawLines|, env.logWritable);
  }

  /**
   * Polling any number of queued items keeps Grew: the lists only grow, one
   * raw and one displayed line per non-empty line, and bytes_received grows by
   * exactly len(out) + 1 per displayed line, and the log receives each
   * displayed line whose own write succeeded.
   */
  lemma {:induction false} PollGrows(v: View, items: seq<(string, Address)>, stamp: nat -> string, env: Env, n: nat)
    requires n <= |items|
    ensures Grew(v, PollSpec(v, items, stamp, env, n), env)
  {
    if n == 0 {
      GrewRefl(v, env);
    } else {
      PollGrows(v, items, stamp, env, n - 1);
      var mid := PollSpec(v, items, stamp, env, n - 1);
      var lines := SplitLines(items[n - 1].0);
      LinesStepGrows(mid, lines, stamp(n - 1), items[n - 1].1, env, |lines|);
      GrewTrans(v, mid, PollSpec(v, items, stamp, env, n), env);
    }
  }

  /**
   * With the window's 37 widths every parsed line formats to a non-empty
   * row, so a record is kept exactly when the CSV reader returns one, and a
   * line it cannot read is shown raw.
   */
  lemma ShowKeepsParsed(line: string, ts: string, addr: Address, env: Env)
    requires |env.widths| == FieldCount
    ensures Show(line, ts, addr, env).stored == env.parse(line)
    ensures env.parse(line).None? ==> Show(line, ts, addr, env).out == Stamped(ts, addr, line)
  {
    if env.parse(line).Some? {
      RowTextNonEmpty(AsFields(env.parse(line).value), env.widths);
    }
  }

  // ---------------------------------------------------------------------------
  // netstat / tasklist / taskkill
  // ---------------------------------------------------------------------------

  /** A process holding the port. */
  datatype Owner = Owner(pid: int, name: string)

  /** What one netstat line says about the port. */
  datatype Verdict = NotListening | ListeningPid(pid: int) | BadPid

  /**
   * A line names a listener when it has at least five fields, the first is
   * TCP, the local address ends with ":port" and the state is LISTENING in
   * any case; its PID field must then be an integer (else int() raises).
   */
  function Classify(line: string, port: int): Verdict
  {
    var parts := Words(line);
    if |parts| >= 5 && parts[0] == "TCP" && EndsWith(parts[1], [':'] + IntToString(port))
       && Upper(parts[3]) == "LISTENING"
    then
      match ParseInt(parts[4])
      case None => BadPid
      case Some(p) => ListeningPid(p)
    else NotListening
  }

  /** The process name from tasklist's CSV output, or str(pid) when tasklist fails or prints nothing. */
  function ProcessName(pid: int, tasklist: Option<string>): string
  {
    match tasklist
    case None => IntToString(pid)
    case Some(tl) =>
      if Strip(tl) != [] then StripChar(Strip(Split(tl, ',')[0]), '"') else IntToString(pid)
  }

  /**
   * For tasklist's CSV line, whose first column is the quoted image name,
   * the name is read back unquoted.
   */
  lemma ProcessNameOfCsv(pid: int, image: string, rest: string)
    requires Excludes(image, ',') && Excludes(image, '"')
    ensures ProcessName(pid, Some(['"'] + image + ['"'] + [','] + rest)) == image
  {
    QuotedFirstColumn(image, rest);
  }

  /**
   * The owners named by the first n classified lines, `name(p)` naming PID p;
   * None once a PID field fails to parse.
   */
  function OwnersUpTo(verdicts: seq<Verdict>, name: int -> string, n: nat): Option<seq<Owner>>
    requires n <= |verdicts|
  {
    if n == 0 then Some([])
    else
      match OwnersUpTo(verdicts, name, n - 1)
      case None => None
      case Some(owners) =>
        match verdicts[n - 1]
        case NotListening => Some(owners)
        case BadPid => None
        case ListeningPid(p) => Some(owners + [Owner(p, name(p))])
  }

  function Verdicts(lines: seq<string>, port: int): (vs: seq<Verdict>)
    ensures |vs| == |lines| && forall i :: 0 <= i < |lines| ==> vs[i] == Classify(lines[i], port)
  {
    seq(|lines|, i requires 0 <= i < |lines| => Classify(lines[i], port))
  }

  /** _get_port_owners: [] when netstat fails or any exception escapes the loop. */
  function PortOwners(port: int, netstat: Option<string>, tasklist: int -> Option<string>): seq<Owner>
  {
    match netstat
    case None => []
    case Some(out) =>
      var lines := SplitLines(out);
      match OwnersUpTo(Verdicts(lines, port), p => ProcessName(p, tasklist(p)), |lines|)
      case None => []
      case Some(owners) => owners
  }

  /**
   * Every owner comes from a listening line, in line order, and carries the
   * name given for its PID; the result is None exactly when some line has a
   * PID that does not parse.
   */
  lemma {:induction false} OwnersSound(verdicts: seq<Verdict>, name: int -> string, n: nat)
    requires n <= |verdicts|
    ensures OwnersUpTo(verdicts, name, n).None? <==> exists j :: 0 <= j < n && verdicts[j] == BadPid
    ensures OwnersUpTo(verdicts, name, n).Some? ==>
      var owners := OwnersUpTo(verdicts, name, n).value;
      && |owners| <= n
      && forall k :: 0 <= k < |owners| ==>
           owners[k].name == name(owners[k].pid)
           && exists j :: 0 <= j < n && verdicts[j] == ListeningPid(owners[k].pid)
  {
    if n > 0 {
      OwnersSound(verdicts, name, n - 1);
      var r := OwnersUpTo(verdicts, name, n);
      if r.Some? {
        var prev := OwnersUpTo(verdicts, name, n - 1).value;
        var owners := r.value;
        forall k | 0 <= k < |owners|
          ensures owners[k].name == name(owners[k].pid)
          ensures exists j :: 0 <= j < n && verdicts[j] == ListeningPid(owners[k].pid)
        {
          if k < |prev| {
            assert owners[k] == prev[k];
          } else {
            assert verdicts[n - 1] == ListeningPid(owners[k].pid);
          }
        }
      }
    }
  }

  /**
   * Every listening line contributes its owner: when no PID field is bad,
   * there is one owner per listening line.
   */
  lemma {:induction false} OwnersComplete(verdicts: seq<Verdict>, name: int -> string, n: nat, j: nat)
    requires j < n <= |verdicts|
    requires OwnersUpTo(verdicts, name, n).Some? && verdicts[j].ListeningPid?
    ensures Owner(verdicts[j].pid, name(verdicts[j].pid)) in OwnersUpTo(verdicts, name, n).value
  {
    var prev := OwnersUpTo(verdicts, name, n - 1);
    assert prev.Some?;
    if j < n - 1 {
      OwnersComplete(verdicts, name, n - 1, j);
    }
  }

  lemma WordOfNumber(n: int)
    ensures IsWord(IntToString(n))
  {
    var s := IntToString(n);
    forall i | 0 <= i < |s| ensures !IsSpace(s[i]) {
      assert IsDigit(s[i]) || s[i] == '-';
    }
  }

  /**
   * A netstat row "TCP local foreign state pid" whose local address ends in
   * ":port" and whose state is LISTENING in any case is read as a listener
   * with that PID.
   */
  lemma ListeningRow(local: string, foreign: string, state: string, pid: int, port: int)
    requires IsWord(local) && IsWord(foreign) && IsWord(state)
    requires EndsWith(local, [':'] + IntToString(port)) && Upper(state) == "LISTENING"
    ensures Classify(Join([' '], ["TCP", local, foreign, state, IntToString(pid)]), port) == ListeningPid(pid)
  {
    var ws := ["TCP", local, foreign, state, IntToString(pid)];
    WordOfNumber(pid);
    assert IsWord(ws[0]) by {
      assert forall i :: 0 <= i < 3 ==> !IsSpace(ws[0][i]);
    }
    WordsOfJoin(ws);
    ParseIntOfString(pid);
  }

  /**
   * The loop of _get_port_owners over the classified lines: stops with None
   * at the first bad PID, otherwise collects one owner per listening line.
   */
  method CollectOwners(verdicts: seq<Verdict>, name: int -> string) returns (r: Option<seq<Owner>>)
    ensures r == OwnersUpTo(verdicts, name, |verdicts|)
  {
    var owners := [];
    var i := 0;
    while i < |verdicts|
      invariant 0 <= i <= |verdicts|
      invariant OwnersUpTo(verdicts, name, i) == Some(owners)
    {
      match verdicts[i] {
        case BadPid =>
          OwnersSound(verdicts, name, |verdicts|);
          return None;
        case NotListening =>
        case ListeningPid(p) =>
          owners := owners + [Owner(p, name(p))];
      }
      i := i + 1;
    }
    r := Some(owners);
  }

  /** _get_port_owners. */
  method GetPortOwners(port: int, netstat: Option<string>, tasklist: int -> Option<string>) returns (owners: seq<Owner>)
    ensures owners == PortOwners(port, netstat, tasklist)
  {
    if netstat.None? {
      return [];
    }
    var lines := SplitLines(netstat.value);
    var r := CollectOwners(Verdicts(lines, port), p => ProcessName(p, tasklist(p)));
    owners := if r.Some? then r.value else [];
  }

  /**
   * _kill_pids: runs taskkill for each PID; `run(k)` is the return code of
   * the k-th run, None where subprocess.run raises, which ends the loop. The
   * result is True exactly when every run returned 0. `attempts` counts the
   * runs started.
   */
  method KillPids(pids: seq<int>, run: nat -> Option<int>) returns (ok: bool, attempts: nat)
    ensures ok <==> forall k :: 0 <= k < |pids| ==> run(k) == Some(0)
    ensures attempts <= |pids|
    ensures forall k :: 0 <= k < attempts - 1 ==> run(k).Some?
    ensures attempts < |pids| ==> attempts > 0 && run(attempts - 1).None?
    ensures (forall k :: 0 <= k < |pids| ==> run(k).Some?) ==> attempts == |pids|
  {
    var success := true;
    attempts := 0;
    while attempts < |pids|
      invariant 0 <= attempts <= |pids|
      invariant forall k :: 0 <= k < attempts ==> run(k).Some?
      invariant success <==> forall k :: 0 <= k < attempts ==> run(k) == Some(0)
    {
      var res := run(attempts);
      attempts := attempts + 1;
      if res.None? {
        return false, attempts;
      }
      if res.value != 0 {
        success := false;
      }
    }
    ok := success;
  }

  // ---------------------------------------------------------------------------
  // The window
  // ---------------------------------------------------------------------------

  /** MainWindow, with the state the modelled methods touch. */
  class MainWindow {
    var widths: Option<seq<nat>>       // _field_widths, absent until first formatted
    var headersShown: bool
    var rows: seq<seq<string>>
    var rawLines: seq<string>
    var table: seq<seq<string>>
    var text: seq<string>
    var log: seq<string>
    var bytesReceived: nat
    var formattedView: bool
    var queue: seq<(string, Address)>
    const names: seq<string>           // FIELD_NAMES, as imported from the server
    const cursor: Cursor

    /** The widths are cached, one per field, and the header has been written. */
    ghost predicate Valid()
      reads this, cursor
    {
      |names| == FieldCount && widths == Some(Widths(names)) && headersShown && cursor.Valid()
    }

    function Snapshot(): View
      reads this
    {
      View(rows, rawLines, table, text, log, bytesReceived)
    }

    /** __init__: empty state, formatted view, header written once. */
    constructor()
      ensures Valid() && fresh(cursor) && names == FieldNames()
      ensures rows == [] && rawLines == [] && table == [] && log == [] && bytesReceived == 0
      ensures formattedView && queue == [] && cursor.matches == [] && cursor.index == -1
      ensures text == ["<b>" + HeaderText(names, Widths(names)) + "</b>", ""]
    {
      widths := None;
      headersShown := false;
      rows, rawLines, table, text, log := [], [], [], [], [];
      bytesReceived := 0;
      formattedView := true;
      queue := [];
      names := FieldNames();
      cursor := new Cursor();
      new;
      InsertHeaders();
    }

    /** _format_headers: computes and caches the widths on first use, then lays out the titles. */
    method FormatHeaders() returns (header: string)
      modifies this
      ensures widths == if old(widths).None? then Some(Widths(names)) else old(widths)
      ensures header == HeaderText(names, widths.value)
      ensures Snapshot() == old(Snapshot()) && headersShown == old(headersShown)
      ensures formattedView == old(formattedView) && queue == old(queue)
    {
      if widths.None? {
        var ws := ComputeWidths(names);
        widths := Some(ws);
      }
      header := HeaderText(names, widths.value);
    }

    /** _insert_headers: appends the bold header and a blank line, only once. */
    method InsertHeaders()
      modifies this
      ensures headersShown
      ensures widths == if old(headersShown) || old(widths).Some? then old(widths) else Some(Widths(names))
      ensures text == if old(headersShown) then old(text) else old(text) + ["<b>" + HeaderText(names, widths.value) + "</b>", ""]
      ensures rows == old(rows) && rawLines == old(rawLines) && table == old(table) && log == old(log)
      ensures bytesReceived == old(bytesReceived) && formattedView == old(formattedView) && queue == old(queue)
    {
      if !headersShown {
        var header := FormatHeaders();
        text := text + ["<b>" + header + "</b>", ""];
        headersShown := true;
      }
    }

    /** _on_data_from_server: enqueue for the GUI thread. */
    method OnDataFromServer(data: string, addr: Address)
      modifies this
      ensures queue == old(queue) + [(data, addr)]
      ensures Snapshot() == old(Snapshot()) && widths == old(widths) && headersShown == old(headersShown)
      ensures formattedView == old(formattedView)
    {
      queue := queue + [(data, addr)];
    }

    /** _format_row, with the cached widths. */
    method FormatRow(fields: seq<Option<string>>) returns (row: string)
      requires widths.Some?
      ensures row == RowText(fields, widths.value)
    {
      var ws := widths.value;
      var cols: seq<string> := seq(FieldCount, _ => "");
      var i := 0;
      while i < |fields| && i < FieldCount
        invariant 0 <= i <= FieldCount && |cols| == FieldCount
        invariant forall j :: 0 <= j < FieldCount ==> cols[j] == if j < i then ColumnValue(fields, j) else ""
      {
        cols := cols[i := if fields[i].Some? then fields[i].value else ""];
        i := i + 1;
      }
      var parts: seq<string> := [];
      var n := Min(FieldCount, |ws|);
      for k := 0 to n
        invariant |parts| == k && forall j :: 0 <= j < k ==> parts[j] == Cell(ColumnValue(fields, j), ws[j])
      {
        var val, w := cols[k], ws[k];
        var cell;
        if |val| <= w {
          cell := LJust(val, w);
        } else if w > 3 {
          cell := val[..w - 3] + "...";
        } else {
          cell := val[..w];
        }
        parts := parts + [cell];
      }
      assert parts == RowCells(fields, ws);
      row := Join(ColSep, parts);
    }

    /** _append_table_row. */
    method AppendTableRow(parsed: seq<string>)
      modifies this
      ensures table == old(table) + [TableRow(parsed)]
      ensures rows == old(rows) && rawLines == old(rawLines) && text == old(text) && log == old(log)
      ensures bytesReceived == old(bytesReceived) && widths == old(widths) && headersShown == old(headersShown)
      ensures formattedView == old(formattedView) && queue == old(queue)
    {
      var cells := BuildTableRow(parsed);
      table := table + [cells];
    }

    /** How _poll_queue shows one non-empty line: parse, format, or fall back to the raw line. */
    method ShowLine(line: string, ts: string, addr: Address, env: Env) returns (shown: Shown)
      requires widths.Some? && env.widths == widths.value
      ensures shown == Show(line, ts, addr, env)
    {
      var raw := Stamped(ts, addr, line);
      var parsed := env.parse(line);
      var formatted := "";
      if parsed.Some? {
        formatted := FormatRow(AsFields(parsed.value));
      }
      if formatted != "" {
        shown := Shown(raw, parsed, formatted);
      } else {
        shown := Shown(raw, None, raw);
      }
    }

    /** Records a shown line: raw line, record, table row, text, log and byte count. */
    method Record(shown: Shown, env: Env)
      requires Valid() && env.formattedView == formattedView
      modifies this
      ensures Valid() && Snapshot() == Apply(old(Snapshot()), shown, env)
      ensures formattedView == old(formattedView) && widths == old(widths) && queue == old(queue)
    {
      var k := |rawLines|;
      rawLines := rawLines + [shown.raw];
      if shown.stored.Some? {
        rows := rows + [shown.stored.value];
        if formattedView {
          AppendTableRow(shown.stored.value);
        }
      }
      text := text + [shown.out];
      if env.logWritable(k) {
        log := log + [shown.out + "\n"];
      }
      bytesReceived := bytesReceived + |shown.out| + 1;
    }

    /** One line of a received text, as the inner loop of _poll_queue handles it. */
    method HandleLine(line: string, ts: string, addr: Address, env: Env)
      requires Valid() && env.widths == widths.value && env.formattedView == formattedView
      modifies this
      ensures Valid() && Snapshot() == LineStep(old(Snapshot()), line, ts, addr, env)
      ensures formattedView == old(formattedView) && widths == old(widths) && queue == old(queue)
    {
      if line != [] {
        var shown := ShowLine(line, ts, addr, env);
        Record(shown, env);
      }
    }

    /** One queued item: every line of its text, stamped with ts. */
    method HandleItem(item: (string, Address), ts: string, env: Env)
      requires Valid() && env.widths == widths.value && env.formattedView == formattedView
      modifies this
      ensures Valid() && Snapshot() == ItemStep(old(Snapshot()), item, ts, env)
      ensures formattedView == old(formattedView) && widths == old(widths) && queue == old(queue)
    {
      var lines := SplitLines(item.0);
      ghost var before := Snapshot();
      for m := 0 to |lines|
        invariant Valid() && formattedView == env.formattedView && widths == old(widths) && queue == old(queue)
        invariant Snapshot() == LinesStep(before, lines, ts, item.1, env, m)
      {
        HandleLine(lines[m], ts, item.1, env);
      }
    }

    /**
     * _poll_queue: drains the queue in order; item k is timestamped stamp(k).
     * The new state is PollSpec of the old one, which PollGrows and
     * ShowKeepsParsed describe.
     */
    method PollQueue(parse: string -> Option<seq<string>>, stamp: nat -> string, logWritable: nat -> bool)
      requires Valid()
      modifies this
      ensures Valid() && queue == []
      ensures Snapshot() == PollSpec(old(Snapshot()), old(queue), stamp,
                                     Env(parse, Widths(names), formattedView, logWritable), |old(queue)|)
      ensures formattedView == old(formattedView)
    {
      var env := Env(parse, Widths(names), formattedView, logWritable);
      var items := queue;
      ghost var v0 := Snapshot();
      var k := 0;
      while k < |items|
        invariant 0 <= k <= |items| && Valid() && formattedView == env.formattedView
        invariant Snapshot() == PollSpec(v0, items, stamp, env, k)
      {
        HandleItem(items[k], stamp(k), env);
        k := k + 1;
      }
      queue := [];
    }

    /** _search_next in the formatted view: the table search; the text view's search is not modelled. */
    method SearchNext(input: string) returns (selected: Option<Match>)
      requires Valid()
      modifies cursor
      ensures Valid()
      ensures !formattedView ==> selected == None && cursor.matches == old(cursor.matches) && cursor.index == old(cursor.index)
      ensures formattedView && Strip(input) == [] ==>
                selected == None && cursor.matches == old(cursor.matches) && cursor.index == old(cursor.index)
      ensures formattedView && Strip(input) != [] ==>
                cursor.Searched(old(cursor.matches), old(cursor.index), table, Strip(input), selected)
    {
      if !formattedView {
        return None;
      }
      selected := cursor.Next(table, input);
    }

    /** _clear_search. */
    method ClearSearch()
      requires Valid()
      modifies cursor
      ensures Valid() && cursor.matches == [] && cursor.index == -1
    {
      cursor.Clear();
    }
  }
}
