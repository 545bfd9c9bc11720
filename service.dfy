/**
 * The background service: it receives chunks from an SMDR listener, queues
 * them, and appends every non-blank line of each chunk, stamped with the
 * time and the sender, to the log file, counting the characters written.
 * Timestamps and the outcome of each file write are parameters.
 */
module Service {
  import opened Text
  import opened Server
  import opened LogLine

  /** f"[{ts}] {addr[0]}:{addr[1]} {line}\n": one log-file entry. */
  function Entry(ts: string, addr: Address, line: string): string
  {
    Stamped(ts, addr, line) + "\n"
  }

  /** `not line.strip()`: the line is all whitespace (StripEmptyIffAllSpace). */
  predicate Blank(line: string)
  {
    AllSpace(line)
  }

  /** The lines the service keeps, in order: the non-blank ones. */
  function NonBlank(lines: seq<string>): (r: seq<string>)
    ensures |r| <= |lines|
    ensures forall k :: 0 <= k < |r| ==> !Blank(r[k])
  {
    if lines == [] then []
    else
      var r := NonBlank(lines[..|lines| - 1]);
      if Blank(lines[|lines| - 1]) then r else r + [lines[|lines| - 1]]
  }

  /** A line is kept exactly when it occurs and is not all whitespace. */
  lemma {:induction false} NonBlankMembers(lines: seq<string>, x: string)
    ensures x in NonBlank(lines) <==> x in lines && Strip(x) != []
  {
    StripEmptyIffAllSpace(x);
    if lines != [] {
      var init := lines[..|lines| - 1];
      NonBlankMembers(init, x);
      assert lines == init + [lines[|lines| - 1]];
    }
  }

  /** The entries written for `lines`, one per non-blank line. */
  function Entries(lines: seq<string>, ts: string, addr: Address): seq<string>
  {
    if lines == [] then []
    else
      var r := Entries(lines[..|lines| - 1], ts, addr);
      if Blank(lines[|lines| - 1]) then r else r + [Entry(ts, addr, lines[|lines| - 1])]
  }

  /** The j-th entry stamps the j-th non-blank line. */
  lemma {:induction false} EntriesAreStamped(lines: seq<string>, ts: string, addr: Address)
    ensures |Entries(lines, ts, addr)| == |NonBlank(lines)|
    ensures forall j :: 0 <= j < |NonBlank(lines)| ==> Entries(lines, ts, addr)[j] == Entry(ts, addr, NonBlank(lines)[j])
  {
    if lines != [] {
      EntriesAreStamped(lines[..|lines| - 1], ts, addr);
    }
  }

  /**
   * How many of n writes succeed when each one runs only if all before it
   * did: the index of the first failing write, or n when none fails.
   */
  function Committed(n: nat, writable: nat -> bool): (c: nat)
    ensures c <= n
    ensures forall j :: 0 <= j < c ==> writable(j)
    ensures c < n ==> !writable(c)
  {
    if n == 0 then 0
    else
      var c := Committed(n - 1, writable);
      if c == n - 1 && writable(n - 1) then n else c
  }

  /** The contract of Committed determines it: any count with its properties is it. */
  lemma CommittedUnique(n: nat, writable: nat -> bool, c: nat)
    requires c <= n
    requires forall j :: 0 <= j < c ==> writable(j)
    requires c < n ==> !writable(c)
    ensures Committed(n, writable) == c
  {
  }

  /** What one call of _log_data appends: the entries up to the first failed write. */
  function Logged(text: string, addr: Address, ts: string, writable: nat -> bool): seq<string>
  {
    var es := Entries(SplitLines(text), ts, addr);
    es[..Committed(|es|, writable)]
  }

  /** The log-file text a sequence of entries makes. */
  function Concat(es: seq<string>): string
  {
    if es == [] then "" else Concat(es[..|es| - 1]) + es[|es| - 1]
  }

  lemma ConcatAppend(es: seq<string>, e: string)
    ensures Concat(es + [e]) == Concat(es) + e
  {
    assert (es + [e])[..|es|] == es;
  }

  lemma {:induction false} ConcatAppendAll(es: seq<string>, more: seq<string>)
    ensures |Concat(es + more)| == |Concat(es)| + |Concat(more)|
  {
    if more != [] {
      var n := |more| - 1;
      ConcatAppendAll(es, more[..n]);
      assert (es + more)[..|es| + n] == es + more[..n];
    } else {
      assert es + more == es;
    }
  }

  /** Appending one terminated line to terminated lines. */
  lemma {:induction false} TerminatedSnoc(xs: seq<string>, x: string)
    ensures Terminated(xs + [x]) == Terminated(xs) + x + "\n"
  {
    if xs != [] {
      assert (xs + [x])[1..] == xs[1..] + [x];
      TerminatedSnoc(xs[1..], x);
    } else {
      assert Terminated([x]) == x + "\n" + Terminated([]);
    }
  }

  /** Entries that are lines each followed by "\n" concatenate to the terminated lines. */
  lemma {:induction false} ConcatOfTerminated(es: seq<string>, xs: seq<string>)
    requires |es| == |xs|
    requires forall j :: 0 <= j < |es| ==> es[j] == xs[j] + "\n"
    ensures Concat(es) == Terminated(xs)
  {
    if es != [] {
      var n := |es| - 1;
      ConcatOfTerminated(es[..n], xs[..n]);
      TerminatedSnoc(xs[..n], xs[n]);
      assert xs == xs[..n] + [xs[n]];
    }
  }

  lemma NoLineBreakAppend(a: string, b: string)
    requires NoLineBreak(a) && NoLineBreak(b)
    ensures NoLineBreak(a + b)
  {
    forall i | 0 <= i < |a + b| ensures !IsLineBreak((a + b)[i]) {
      if i >= |a| {
        assert (a + b)[i] == b[i - |a|];
      }
    }
  }

  lemma NumberHasNoLineBreak(n: int)
    ensures NoLineBreak(IntToString(n))
  {
    var s := IntToString(n);
    forall i | 0 <= i < |s| ensures !IsLineBreak(s[i]) {
      assert IsDigit(s[i]) || s[i] == '-';
    }
  }

  /** A stamped line is one line when its parts are. */
  lemma StampedIsOneLine(ts: string, addr: Address, line: string)
    requires NoLineBreak(ts) && NoLineBreak(addr.host) && NoLineBreak(line)
    ensures NoLineBreak(Stamped(ts, addr, line))
  {
    NumberHasNoLineBreak(addr.port);
    NoLineBreakAppend(addr.host, [':']);
    NoLineBreakAppend(addr.host + [':'], IntToString(addr.port));
    NoLineBreakAppend("[", ts);
    NoLineBreakAppend("[" + ts, "] ");
    NoLineBreakAppend("[" + ts + "] ", AddressText(addr));
    NoLineBreakAppend("[" + ts + "] " + AddressText(addr), " ");
    NoLineBreakAppend("[" + ts + "] " + AddressText(addr) + " ", line);
  }

  /**
   * What the service writes for one chunk reads back, line by line, as the
   * stamped non-blank lines of the chunk, however many of the writes
   * succeeded; the viewer's CSV extraction of each gives the received line
   * unchanged.
   */
  lemma LogReadBack(text: string, addr: Address, ts: string, writable: nat -> bool)
    requires NoLineBreak(ts) && Excludes(ts, ']')
    requires NoLineBreak(addr.host) && Excludes(addr.host, ' ')
    ensures var got := SplitLines(Concat(Logged(text, addr, ts, writable)));
      && |got| == |Logged(text, addr, ts, writable)| <= |NonBlank(SplitLines(text))|
      && forall j :: 0 <= j < |got| ==>
           got[j] == Stamped(ts, addr, NonBlank(SplitLines(text))[j])
           && CsvPart(got[j]) == Some(NonBlank(SplitLines(text))[j])
  {
    var lines := SplitLines(text);
    var nb := NonBlank(lines);
    var es := Entries(lines, ts, addr);
    EntriesAreStamped(lines, ts, addr);
    var k := Committed(|es|, writable);
    var logged := es[..k];
    var xs := seq(k, j requires 0 <= j < k => Stamped(ts, addr, nb[j]));
    ConcatOfTerminated(logged, xs);
    forall j | 0 <= j < k ensures NoLineBreak(xs[j]) {
      NonBlankMembers(lines, nb[j]);
      StampedIsOneLine(ts, addr, nb[j]);
    }
    SplitLinesOfTerminated(xs);
    forall j | 0 <= j < k ensures CsvPart(xs[j]) == Some(nb[j]) {
      CsvPartOfStamped(ts, addr, nb[j]);
    }
  }

  /** The entries each of `items` gets, the k-th stamped with stamps(k) and written under writable(k). */
  function ChunkLogs(items: seq<(string, Address)>, stamps: nat -> string, writable: nat -> nat -> bool): (r: seq<seq<string>>)
    ensures |r| == |items|
  {
    seq(|items|, k requires 0 <= k < |items| => Logged(items[k].0, items[k].1, stamps(k), writable(k)))
  }

  /** One sequence of entries after another. */
  function Flatten(chunks: seq<seq<string>>): seq<string>
  {
    if chunks == [] then [] else Flatten(chunks[..|chunks| - 1]) + chunks[|chunks| - 1]
  }

  /** The chunk logs of one more item end with that item's entries. */
  lemma ChunkLogsSnoc(items: seq<(string, Address)>, k: nat, stamps: nat -> string, writable: nat -> nat -> bool)
    requires k < |items|
    ensures ChunkLogs(items[..k + 1], stamps, writable) ==
      ChunkLogs(items[..k], stamps, writable) + [Logged(items[k].0, items[k].1, stamps(k), writable(k))]
  {
  }

  lemma AppendAssoc(a: seq<string>, b: seq<string>, c: seq<string>)
    ensures (a + b) + c == a + (b + c)
  {
  }

  lemma FlattenSnoc(chunks: seq<seq<string>>, c: seq<string>)
    ensures Flatten(chunks + [c]) == Flatten(chunks) + c
  {
    assert (chunks + [c])[..|chunks|] == chunks;
  }

  /** The service object: its flag, its queue, its listener and what it has appended to the log. */
  class SMDRService {
    var running: bool
    var queue: seq<(string, Address)>
    var server: Listener?
    /** The entries this process has appended to the log file, in order. */
    var log: seq<string>
    var bytesReceived: nat
    const port: int

    /** bytes_received counts exactly the characters appended. */
    predicate Valid()
      reads this
    {
      bytesReceived == |Concat(log)|
    }

    constructor(port: int)
      ensures Valid()
      ensures running && queue == [] && server == null && log == [] && bytesReceived == 0
      ensures this.port == port
    {
      this.port := port;
      running := true;
      queue := [];
      server := null;
      log := [];
      bytesReceived := 0;
    }

    /**
     * SvcStop: clears the flag and stops the listener when there is one.
     */
    method SvcStop()
      modifies this, server
      ensures !running && server == old(server)
      ensures queue == old(queue) && log == old(log) && bytesReceived == old(bytesReceived)
      ensures server != null ==> server.Stopped() && server.closed == old(server.closed) + old(server.StopCloses())
    {
      running := false;
      if server != null {
        server.Stop();
      }
    }

    /**
     * The start of main(): a new listener with this service's callback is
     * started on the configured port; when starting raises, the error is
     * logged and the service stops itself.
     */
    method StartListener(bind: BindOutcome, listen: ListenOutcome) returns (r: StartResult)
      modifies this
      ensures fresh(server) && server.hasCallback
      ensures var bound := TryBind(port, bind);
        && (bound.Some? ==> r == Raised(CouldNotBind(BindErrorMessage(port, bound.value))))
        && (bound.None? && listen.ListenFailed? ==> r == Raised(ListenError(listen.cause)))
        && (bound.None? && listen.Listening? <==> r == Started)
      ensures r == Started ==> server.running && server.port == listen.actualPort && running == old(running)
      ensures r.Raised? ==> !running && server.Stopped()
      ensures queue == old(queue) && log == old(log) && bytesReceived == old(bytesReceived)
    {
      var s := new Listener(true);
      server := s;
      r := s.Start(port, bind, listen);
      if r.Raised? {
        SvcStop();
      }
    }

    /** _on_data_received: the chunk joins the back of the queue. */
    method OnDataReceived(text: string, addr: Address)
      modifies this
      ensures queue == old(queue) + [(text, addr)]
      ensures running == old(running) && server == old(server)
      ensures log == old(log) && bytesReceived == old(bytesReceived)
    {
      queue := queue + [(text, addr)];
    }

    /**
     * _log_data: appends an entry for each non-blank line of the chunk, all
     * with the one timestamp `ts`; `writable(j)` says whether the j-th write
     * succeeds. A failed write ends the call, and nothing after it is written.
     */
    method LogData(text: string, addr: Address, ts: string, writable: nat -> bool)
      modifies this
      requires Valid()
      ensures Valid()
      ensures log == old(log) + Logged(text, addr, ts, writable)
      ensures running == old(running) && queue == old(queue) && server == old(server)
    {
      var entries, chars := WriteLines(SplitLines(text), addr, ts, writable);
      ConcatAppendAll(log, entries);
      log := log + entries;
      bytesReceived := bytesReceived + chars;
    }

    /**
     * The loop of _log_data on the lines of a chunk: the entries written, in
     * order, and the number of characters they hold.
     */
    static method WriteLines(lines: seq<string>, addr: Address, ts: string, writable: nat -> bool)
      returns (entries: seq<string>, chars: nat)
      ensures var es := Entries(lines, ts, addr);
        entries == es[..Committed(|es|, writable)]
      ensures chars == |Concat(entries)|
    {
      ghost var es := Entries(lines, ts, addr);
      entries, chars := [], 0;
      var i := 0;
      while i < |lines|
        invariant 0 <= i <= |lines|
        invariant entries == Entries(lines[..i], ts, addr)
        invariant forall j :: 0 <= j < |entries| ==> writable(j)
        invariant chars == |Concat(entries)|
      {
        EntriesPrefix(lines, i, ts, addr);
        EntriesOfPrefix(lines, i + 1, ts, addr);
        if !Blank(lines[i]) {
          var entry := Entry(ts, addr, lines[i]);
          if !writable(|entries|) {
            CommittedUnique(|es|, writable, |entries|);
            return;
          }
          ConcatAppend(entries, entry);
          entries := entries + [entry];
          chars := chars + |entry|;
        }
        i := i + 1;
      }
      assert lines[..i] == lines;
      CommittedUnique(|es|, writable, |entries|);
    }

    /**
     * One turn of _process_queue: the front chunk, the k-th of `items`,
     * leaves the queue and is logged after the chunks before it.
     */
    method TakeItem(ghost items: seq<(string, Address)>, k: nat, stamps: nat -> string, writable: nat -> nat -> bool,
                    ghost log0: seq<string>)
      modifies this
      requires Valid() && k < |items| && queue == items[k..]
      requires log == log0 + Flatten(ChunkLogs(items[..k], stamps, writable))
      ensures Valid() && queue == items[k + 1..]
      ensures log == log0 + Flatten(ChunkLogs(items[..k + 1], stamps, writable))
      ensures running == old(running) && server == old(server)
    {
      var (text, addr) := queue[0];
      assert (text, addr) == items[k] && queue[1..] == items[k + 1..];
      queue := queue[1..];
      ghost var logged := Logged(text, addr, stamps(k), writable(k));
      ghost var chunks := ChunkLogs(items[..k], stamps, writable);
      LogData(text, addr, stamps(k), writable(k));
      ChunkLogsSnoc(items, k, stamps, writable);
      FlattenSnoc(chunks, logged);
      AppendAssoc(log0, Flatten(chunks), logged);
    }

    /**
     * _process_queue: while the flag is set, takes chunks from the front of
     * the queue in order and logs each; stamps(k) is the time read for the
     * k-th chunk and writable(k) the outcome of its writes. The flag only
     * changes from another thread, so this drains the whole queue.
     */
    method ProcessQueue(stamps: nat -> string, writable: nat -> nat -> bool)
      modifies this
      requires Valid()
      ensures Valid()
      ensures !old(running) ==> queue == old(queue) && log == old(log)
      ensures old(running) ==> queue == [] && log == old(log) + Flatten(ChunkLogs(old(queue), stamps, writable))
      ensures running == old(running) && server == old(server)
    {
      if !running {
        return;
      }
      ghost var items := queue;
      ghost var log0 := log;
      var k := 0;
      assert ChunkLogs(items[..0], stamps, writable) == [];
      while queue != []
        invariant 0 <= k <= |items| && queue == items[k..]
        invariant log == log0 + Flatten(ChunkLogs(items[..k], stamps, writable))
        invariant Valid() && running == old(running) && server == old(server)
        decreases |items| - k
      {
        TakeItem(items, k, stamps, writable, log0);
        k := k + 1;
      }
      assert items[..k] == items;
    }
  }

  /** The entries for one more line extend the entries for the lines before it. */
  lemma EntriesPrefix(lines: seq<string>, i: nat, ts: string, addr: Address)
    requires i < |lines|
    ensures Entries(lines[..i + 1], ts, addr) ==
      Entries(lines[..i], ts, addr) + (if Blank(lines[i]) then [] else [Entry(ts, addr, lines[i])])
  {
    assert lines[..i + 1][..i] == lines[..i];
  }

  /** The entries for the first i lines begin the entries for all of them. */
  lemma {:induction false} EntriesOfPrefix(lines: seq<string>, i: nat, ts: string, addr: Address)
    requires i <= |lines|
    ensures Entries(lines[..i], ts, addr) <= Entries(lines, ts, addr)
  {
    if i < |lines| {
      var init := lines[..|lines| - 1];
      EntriesOfPrefix(init, i, ts, addr);
      assert init[..i] == lines[..i];
    } else {
      assert lines[..i] == lines;
    }
  }

  /** Every entry committed by LogData is one of the chunk's entries, in order. */
  lemma LoggedIsPrefix(text: string, addr: Address, ts: string, writable: nat -> bool)
    ensures var es := Entries(SplitLines(text), ts, addr);
      Logged(text, addr, ts, writable) <= es
      && (Logged(text, addr, ts, writable) == es <==> forall j :: 0 <= j < |es| ==> writable(j))
  {
    var es := Entries(SplitLines(text), ts, addr);
    if forall j :: 0 <= j < |es| ==> writable(j) {
      CommittedUnique(|es|, writable, |es|);
    }
  }
}
