/**
 * The timestamped log-line format shared by the receiver window, the
 * service and the viewer: "[ts] host:port line". The receiver and the service
 * write it; the viewer reads the CSV data back out of it.
 */
module LogLine {
  import opened Text
  import opened Server

  /** f"[{ts}] {addr[0]}:{addr[1]} {line}". */
  function Stamped(ts: string, addr: Address, line: string): string
  {
    "[" + ts + "] " + AddressText(addr) + " " + line
  }

  /**
   * The viewer's extraction of the CSV part: everything after the first
   * space that follows the first "] ", or None when either is missing.
   */
  function CsvPart(line: string): (r: Option<string>)
  {
    match SplitOnce(line, "] ")
    case None => None
    case Some((pre, rest)) =>
      match SplitOnce(rest, " ")
      case None => None
      case Some((addr, data)) => Some(data)
  }

  /**
   * There is a CSV part exactly when the line holds "] " and a space after
   * it, and the CSV part is then a proper tail of the line.
   */
  lemma CsvPartSpec(line: string)
    ensures CsvPart(line).None? <==> !Contains(line, "] ") || !Contains(SplitOnce(line, "] ").value.1, " ")
    ensures CsvPart(line).Some? ==> |CsvPart(line).value| + 3 <= |line| && EndsWith(line, CsvPart(line).value)
  {
    SplitOnceSpec(line, "] ");
    if SplitOnce(line, "] ").Some? {
      var (pre, rest) := SplitOnce(line, "] ").value;
      SplitOnceSpec(rest, " ");
      if SplitOnce(rest, " ").Some? {
        var (addr, data) := SplitOnce(rest, " ").value;
        assert line == (pre + "] " + addr + " ") + data;
      }
    }
  }

  lemma AddressHasNoSpace(addr: Address)
    requires Excludes(addr.host, ' ')
    ensures Excludes(AddressText(addr), ' ')
  {
    var p := IntToString(addr.port);
    var a := AddressText(addr);
    forall j | 0 <= j < |a| ensures a[j] != ' ' {
      if j < |addr.host| {
        assert a[j] == addr.host[j];
      } else if j > |addr.host| {
        assert a[j] == p[j - |addr.host| - 1];
        assert IsDigit(p[j - |addr.host| - 1]) || p[j - |addr.host| - 1] == '-';
      }
    }
  }

  /**
   * What the receiver and the service write the viewer reads back: from a
   * stamped line whose timestamp has no ']' and whose host has no space, the
   * CSV part is exactly the original line.
   */
  lemma CsvPartOfStamped(ts: string, addr: Address, line: string)
    requires Excludes(ts, ']') && Excludes(addr.host, ' ')
    ensures CsvPart(Stamped(ts, addr, line)) == Some(line)
  {
    var head := "[" + ts;
    var rest := AddressText(addr) + " " + line;
    assert Excludes(head, ']') by {
      forall j | 0 <= j < |head| ensures head[j] != ']' {
        if j > 0 {
          assert head[j] == ts[j - 1];
        }
      }
    }
    SplitOnceFirst(head, "] ", rest);
    assert Stamped(ts, addr, line) == head + "] " + rest;
    AddressHasNoSpace(addr);
    SplitOnceFirst(AddressText(addr), " ", line);
  }
}
