/**
 * The Python string operations the SMDR programs rely on, written out over
 * `seq<char>`: whitespace test and stripping, `str.split(sep)`, `str.split()`,
 * `str.split(sep, 1)`, `str.splitlines()`, `str.join`, `str.ljust`,
 * `str.endswith`, the `in` substring test, ASCII and Latin-1 case mapping, `str(n)` for an
 * integer and `int(s)` for a decimal string.
 */
module Text {

  datatype Option<T> = None | Some(value: T)

  // ---------------------------------------------------------------------------
  // Whitespace, as Python's str.isspace() defines it
  // ---------------------------------------------------------------------------

  /** True for exactly the characters Python's str.isspace() accepts. */
  predicate IsSpace(c: char)
  {
    var n := c as int;
    (0x09 <= n <= 0x0d) || (0x1c <= n <= 0x20) || n == 0x85 || n == 0xa0 || n == 0x1680 ||
    (0x2000 <= n <= 0x200a) || n == 0x2028 || n == 0x2029 || n == 0x202f || n == 0x205f || n == 0x3000
  }

  predicate AllSpace(s: string)
  {
    forall i :: 0 <= i < |s| ==> IsSpace(s[i])
  }

  predicate NoSpace(s: string)
  {
    forall i :: 0 <= i < |s| ==> !IsSpace(s[i])
  }

  /** str.lstrip(): drops the leading whitespace. */
  function LStrip(s: string): (r: string)
    ensures |r| <= |s|
  {
    if s == [] || !IsSpace(s[0]) then s else LStrip(s[1..])
  }

  /** str.rstrip(): drops the trailing whitespace. */
  function RStrip(s: string): (r: string)
    ensures |r| <= |s|
  {
    if s == [] || !IsSpace(s[|s| - 1]) then s else RStrip(s[..|s| - 1])
  }

  /**
   * What lstrip keeps is a suffix of the string that does not start with
   * whitespace, and what it drops is whitespace only.
   */
  lemma {:induction false} LStripSpec(s: string)
    ensures LStrip(s) == s[|s| - |LStrip(s)|..]
    ensures AllSpace(s[..|s| - |LStrip(s)|])
    ensures LStrip(s) == [] || !IsSpace(LStrip(s)[0])
  {
    if s != [] && IsSpace(s[0]) {
      var t := LStrip(s[1..]);
      LStripSpec(s[1..]);
      assert s[..|s| - |t|] == [s[0]] + s[1..][..|s| - 1 - |t|];
    }
  }

  /**
   * What rstrip keeps is a prefix of the string that does not end with
   * whitespace, and what it drops is whitespace only.
   */
  lemma {:induction false} RStripSpec(s: string)
    ensures RStrip(s) == s[..|RStrip(s)|]
    ensures AllSpace(s[|RStrip(s)|..])
    ensures RStrip(s) == [] || !IsSpace(RStrip(s)[|RStrip(s)| - 1])
  {
    if s != [] && IsSpace(s[|s| - 1]) {
      var t := RStrip(s[..|s| - 1]);
      RStripSpec(s[..|s| - 1]);
      assert s[|t|..] == s[..|s| - 1][|t|..] + [s[|s| - 1]];
    }
  }

  /** str.strip(): drops the whitespace at both ends. */
  function Strip(s: string): (r: string)
  {
    RStrip(LStrip(s))
  }

  /** s.lstrip(c) for one character c. */
  function LStripChar(s: string, c: char): (r: string)
    ensures |r| <= |s| && r == s[|s| - |r|..]
    ensures forall i :: 0 <= i < |s| - |r| ==> s[i] == c
    ensures r == [] || r[0] != c
  {
    if s != [] && s[0] == c then LStripChar(s[1..], c) else s
  }

  /** s.rstrip(c) for one character c. */
  function RStripChar(s: string, c: char): (r: string)
    ensures |r| <= |s| && r == s[..|r|]
    ensures forall i :: |r| <= i < |s| ==> s[i] == c
    ensures r == [] || r[|r| - 1] != c
  {
    if s != [] && s[|s| - 1] == c then RStripChar(s[..|s| - 1], c) else s
  }

  /** s.strip(c) for one character c: every c at either end removed. */
  function StripChar(s: string, c: char): string
  {
    RStripChar(LStripChar(s, c), c)
  }

  /** The stripped string is the middle of the original, with whitespace only around it. */
  lemma StripIsMiddle(s: string)
    ensures exists i :: 0 <= i <= |s| - |Strip(s)| && s[i..i + |Strip(s)|] == Strip(s)
              && AllSpace(s[..i]) && AllSpace(s[i + |Strip(s)|..])
    ensures Strip(s) == [] || (!IsSpace(Strip(s)[0]) && !IsSpace(Strip(s)[|Strip(s)| - 1]))
  {
    var l := LStrip(s);
    var r := RStrip(l);
    var i := |s| - |l|;
    LStripSpec(s);
    RStripSpec(l);
    assert s[i..i + |r|] == l[..|r|];
    assert s[i + |r|..] == l[|r|..];
  }

  /** A string strips to the empty string exactly when it is all whitespace. */
  lemma StripEmptyIffAllSpace(s: string)
    ensures Strip(s) == [] <==> AllSpace(s)
  {
    var l := LStrip(s);
    LStripSpec(s);
    RStripSpec(l);
    if Strip(s) == [] {
      assert l == [];
      forall i | 0 <= i < |s| ensures IsSpace(s[i]) {
        assert s[i] == s[..|s| - |l|][i];
      }
    } else {
      assert !IsSpace(l[0]);
      assert s[|s| - |l|] == l[0];
    }
  }

  /** Wrapping a value in quotes other than c keeps it free of c. */
  lemma QuotedExcludes(v: string, q: char, c: char)
    requires Excludes(v, c) && q != c
    ensures Excludes([q] + v + [q], c)
  {
    var w := [q] + v + [q];
    forall i | 0 <= i < |w| ensures w[i] != c {
      if 0 < i < |w| - 1 {
        assert w[i] == v[i - 1];
      }
    }
  }

  /**
   * "v",rest -- a CSV line whose first column is quoted: the line is not
   * blank, and its first comma-separated piece, stripped of whitespace and
   * then of quotes, is v.
   */
  lemma QuotedFirstColumn(v: string, rest: string)
    requires Excludes(v, ',') && Excludes(v, '"')
    ensures Strip(['"'] + v + ['"'] + [','] + rest) != []
    ensures StripChar(Strip(Split(['"'] + v + ['"'] + [','] + rest, ',')[0]), '"') == v
  {
    var w := ['"'] + v + ['"'];
    var line := w + [','] + rest;
    QuotedExcludes(v, '"', ',');
    SplitPrefix(w, rest, ',');
    StripOfTrimmed(w);
    assert line[0] == '"';
    StripEmptyIffAllSpace(line);
    assert v == [] || (v[0] != '"' && v[|v| - 1] != '"');
    StripCharOfQuoted(v, '"');
  }

  /** A string that neither starts nor ends with whitespace strips to itself. */
  lemma StripOfTrimmed(s: string)
    requires s != [] && !IsSpace(s[0]) && !IsSpace(s[|s| - 1])
    ensures Strip(s) == s
  {
    assert LStrip(s) == s;
  }

  /**
   * Stripping a quote character from a value wrapped in that quote gives the
   * value back, provided the value itself does not start or end with it.
   */
  lemma StripCharOfQuoted(v: string, c: char)
    requires v == [] || (v[0] != c && v[|v| - 1] != c)
    ensures StripChar([c] + v + [c], c) == v
  {
    var q := [c] + v + [c];
    assert q[1..] == v + [c];
    if v == [] {
      assert (v + [c])[1..] == [];
    } else {
      assert (v + [c])[0] == v[0];
      assert (v + [c])[..|v|] == v;
    }
  }

  // ---------------------------------------------------------------------------
  // Joining and splitting on one separator character
  // ---------------------------------------------------------------------------

  /** sep.join(parts). */
  function Join(sep: string, parts: seq<string>): string
  {
    if |parts| == 0 then ""
    else if |parts| == 1 then parts[0]
    else parts[0] + sep + Join(sep, parts[1..])
  }

  /** Parts of the same lengths join to strings of the same length. */
  lemma {:induction false} JoinSameShape(sep: string, a: seq<string>, b: seq<string>)
    requires |a| == |b| && forall i :: 0 <= i < |a| ==> |a[i]| == |b[i]|
    ensures |Join(sep, a)| == |Join(sep, b)|
  {
    if |a| > 1 {
      JoinSameShape(sep, a[1..], b[1..]);
    }
  }

  /** Joining n >= 2 parts puts n - 1 separators between them. */
  lemma {:induction false} JoinLengthAtLeast(sep: string, parts: seq<string>)
    ensures |parts| > 0 ==> |Join(sep, parts)| >= (|parts| - 1) * |sep|
  {
    if |parts| > 1 {
      JoinLengthAtLeast(sep, parts[1..]);
    }
  }

  predicate Excludes(s: string, c: char)
  {
    forall i :: 0 <= i < |s| ==> s[i] != c
  }

  /** s.split(sep) for a one-character separator: the pieces between the separators. */
  function Split(s: string, sep: char): (r: seq<string>)
    ensures |r| >= 1
    ensures forall k :: 0 <= k < |r| ==> Excludes(r[k], sep)
  {
    if |s| == 0 then [""]
    else
      var rest := Split(s[1..], sep);
      if s[0] == sep then [""] + rest
      else [[s[0]] + rest[0]] + rest[1..]
  }

  /** Joining the pieces of a split with the separator gives back the string. */
  lemma {:induction false} JoinSplit(s: string, sep: char)
    ensures Join([sep], Split(s, sep)) == s
  {
    if |s| > 0 {
      var rest := Split(s[1..], sep);
      JoinSplit(s[1..], sep);
      if s[0] == sep {
        assert Split(s, sep) == [""] + rest;
        assert ([""] + rest)[1..] == rest;
      } else {
        var r := [[s[0]] + rest[0]] + rest[1..];
        if |rest| == 1 {
          assert Join([sep], rest) == rest[0];
        } else {
          assert rest == [rest[0]] + rest[1..];
          assert Join([sep], rest) == rest[0] + [sep] + Join([sep], rest[1..]);
          assert r[1..] == rest[1..];
        }
      }
    }
  }

  /** Splitting a join of separator-free pieces gives back the pieces. */
  lemma {:induction false} SplitJoin(parts: seq<string>, sep: char)
    requires |parts| >= 1
    requires forall k :: 0 <= k < |parts| ==> Excludes(parts[k], sep)
    ensures Split(Join([sep], parts), sep) == parts
  {
    if |parts| == 1 {
      SplitNoSep(parts[0], sep);
    } else {
      SplitJoin(parts[1..], sep);
      SplitPrefix(parts[0], Join([sep], parts[1..]), sep);
      assert [""] + Split(Join([sep], parts[1..]), sep) == [""] + parts[1..];
      assert parts == [parts[0]] + parts[1..];
    }
  }

  lemma {:induction false} SplitNoSep(s: string, sep: char)
    requires Excludes(s, sep)
    ensures Split(s, sep) == [s]
  {
    if |s| > 0 {
      SplitNoSep(s[1..], sep);
      assert [s[0]] + s[1..] == s;
    }
  }

  /** Split of a separator-free word, a separator and a tail. */
  lemma {:induction false} SplitPrefix(w: string, t: string, sep: char)
    requires Excludes(w, sep)
    ensures Split(w + [sep] + t, sep) == [w] + Split(t, sep)
  {
    if |w| == 0 {
      assert w + [sep] + t == [sep] + t;
      assert ([sep] + t)[1..] == t;
    } else {
      SplitPrefix(w[1..], t, sep);
      var s := w + [sep] + t;
      assert s[1..] == w[1..] + [sep] + t;
      assert [w[0]] + w[1..] == w;
    }
  }

  // ---------------------------------------------------------------------------
  // Python's negative-index slice xs[-n:]
  // ---------------------------------------------------------------------------

  /**
   * xs[-n:] in Python: the last n elements, all of xs when it is shorter, and,
   * because -0 == 0, all of xs when n is 0.
   */
  function Tail<T>(xs: seq<T>, n: nat): seq<T>
  {
    if n == 0 || |xs| <= n then xs else xs[|xs| - n..]
  }

  /** xs[-n:] is a suffix of xs, of length min(n, |xs|) when n > 0. */
  lemma TailSpec<T>(xs: seq<T>, n: nat)
    ensures |Tail(xs, n)| <= |xs| && Tail(xs, n) == xs[|xs| - |Tail(xs, n)|..]
    ensures n > 0 ==> |Tail(xs, n)| == if |xs| < n then |xs| else n
    ensures n == 0 ==> Tail(xs, n) == xs
  {
  }

  // ---------------------------------------------------------------------------
  // Substrings: find, in, endswith, split(sep, 1)
  // ---------------------------------------------------------------------------

  predicate OccursAt(s: string, pat: string, i: int)
  {
    0 <= i && i + |pat| <= |s| && s[i..i + |pat|] == pat
  }

  /** The first index at or after i where pat occurs in s (s.find(pat, i)). */
  function FindFrom(s: string, pat: string, i: nat): (r: Option<nat>)
    ensures r.Some? ==> i <= r.value && r.value + |pat| <= |s|
    decreases |s| - i
  {
    if i + |pat| > |s| then None
    else if s[i..i + |pat|] == pat then Some(i)
    else FindFrom(s, pat, i + 1)
  }

  /** find returns an occurrence, and no occurrence lies between the start and it. */
  lemma {:induction false} FindFromSpec(s: string, pat: string, i: nat)
    ensures FindFrom(s, pat, i).Some? ==> OccursAt(s, pat, FindFrom(s, pat, i).value)
    ensures FindFrom(s, pat, i).Some? ==> forall j :: i <= j < FindFrom(s, pat, i).value ==> !OccursAt(s, pat, j)
    ensures FindFrom(s, pat, i).None? ==> forall j :: i <= j ==> !OccursAt(s, pat, j)
    decreases |s| - i
  {
    if i + |pat| <= |s| && s[i..i + |pat|] != pat {
      FindFromSpec(s, pat, i + 1);
    }
  }

  /** s.find(pat): the first occurrence of pat in s. */
  function Find(s: string, pat: string): (r: Option<nat>)
  {
    FindFrom(s, pat, 0)
  }

  /** Python's `pat in s`. */
  predicate Contains(s: string, pat: string)
  {
    Find(s, pat).Some?
  }

  lemma ContainsIff(s: string, pat: string)
    ensures Contains(s, pat) <==> exists i :: OccursAt(s, pat, i)
  {
    FindFromSpec(s, pat, 0);
    if !Contains(s, pat) {
      assert forall j :: 0 <= j ==> !OccursAt(s, pat, j);
    }
  }

  /** s.endswith(suffix). */
  predicate EndsWith(s: string, suffix: string)
  {
    |suffix| <= |s| && s[|s| - |suffix|..] == suffix
  }

  /**
   * s.split(sep, 1) for a non-empty separator: two pieces around the first
   * occurrence, or None when Python would return the single piece [s].
   */
  function SplitOnce(s: string, sep: string): (r: Option<(string, string)>)
    requires |sep| > 0
  {
    match Find(s, sep)
    case None => None
    case Some(i) => Some((s[..i], s[i + |sep|..]))
  }

  /**
   * The two pieces and the separator between them make up the string, the
   * first piece holds no occurrence of the separator, and there are no
   * pieces exactly when the separator does not occur.
   */
  lemma SplitOnceSpec(s: string, sep: string)
    requires |sep| > 0
    ensures SplitOnce(s, sep).Some? ==> s == SplitOnce(s, sep).value.0 + sep + SplitOnce(s, sep).value.1
    ensures SplitOnce(s, sep).Some? ==> forall j :: 0 <= j < |SplitOnce(s, sep).value.0| ==> !OccursAt(s, sep, j)
    ensures SplitOnce(s, sep).None? <==> !Contains(s, sep)
  {
    FindFromSpec(s, sep, 0);
    if Find(s, sep).Some? {
      var i := Find(s, sep).value;
      assert s == s[..i] + s[i..i + |sep|] + s[i + |sep|..];
    }
  }

  /** Splitting once at a separator whose first character does not occur before it. */
  lemma SplitOnceFirst(a: string, sep: string, b: string)
    requires |sep| > 0 && Excludes(a, sep[0])
    ensures SplitOnce(a + sep + b, sep) == Some((a, b))
  {
    var s := a + sep + b;
    assert s[|a|..|a| + |sep|] == sep;
    assert OccursAt(s, sep, |a|);
    forall j | 0 <= j < |a| ensures !OccursAt(s, sep, j) {
      assert s[j] == a[j];
      if j + |sep| <= |s| {
        assert s[j..j + |sep|][0] == s[j];
      }
    }
    FindFromSpec(s, sep, 0);
    var i := Find(s, sep).value;
    assert i == |a|;
    assert s[..i] == a && s[i + |sep|..] == b;
  }

  // ---------------------------------------------------------------------------
  // str.ljust and ASCII and Latin-1 case mapping
  // ---------------------------------------------------------------------------

  function Spaces(n: nat): (r: string)
    ensures |r| == n && forall i :: 0 <= i < n ==> r[i] == ' '
  {
    seq(n, _ => ' ')
  }

  /** s.ljust(w): s padded on the right with spaces up to width w. */
  function LJust(s: string, w: nat): (r: string)
    ensures |r| == if |s| >= w then |s| else w
    ensures r[..|s|] == s
    ensures forall i :: |s| <= i < |r| ==> r[i] == ' '
  {
    if |s| >= w then s else s + Spaces(w - |s|)
  }

  /**
   * The case mapping of str.lower() on the ASCII and Latin-1 letters: A-Z and
   * the accented capitals U+00C0-U+00DE (but not the multiplication sign
   * U+00D7) move 0x20 up.
   */
  function LowerChar(c: char): char
  {
    if 'A' <= c <= 'Z' || ('\U{C0}' <= c <= '\U{DE}' && c != '\U{D7}') then (c as int + 0x20) as char
    else c
  }

  /**
   * The case mapping of str.upper() on the ASCII and Latin-1 letters: a-z and
   * U+00E0-U+00FE (but not the division sign U+00F7) move 0x20 down, y with
   * diaeresis goes to U+0178 and the micro sign to the Greek capital mu
   * U+039C. The sharp s, which str.upper() turns into two letters, is kept.
   */
  function UpperChar(c: char): char
  {
    if 'a' <= c <= 'z' || ('\U{E0}' <= c <= '\U{FE}' && c != '\U{F7}') then (c as int - 0x20) as char
    else if c == '\U{FF}' then '\U{178}'
    else if c == '\U{B5}' then '\U{39C}'
    else c
  }

  /** str.lower() on the ASCII and Latin-1 letters. */
  function Lower(s: string): (r: string)
    ensures |r| == |s| && forall i :: 0 <= i < |s| ==> r[i] == LowerChar(s[i])
  {
    seq(|s|, i requires 0 <= i < |s| => LowerChar(s[i]))
  }

  /** str.upper() on the ASCII and Latin-1 letters. */
  function Upper(s: string): (r: string)
    ensures |r| == |s| && forall i :: 0 <= i < |s| ==> r[i] == UpperChar(s[i])
  {
    seq(|s|, i requires 0 <= i < |s| => UpperChar(s[i]))
  }

  /** s.replace(a, b) for single characters. */
  function ReplaceChar(s: string, a: char, b: char): (r: string)
    ensures |r| == |s|
    ensures forall i :: 0 <= i < |s| ==> r[i] == if s[i] == a then b else s[i]
  {
    seq(|s|, i requires 0 <= i < |s| => if s[i] == a then b else s[i])
  }

  // ---------------------------------------------------------------------------
  // str.split() on runs of whitespace
  // ---------------------------------------------------------------------------

  /** Index of the first whitespace character in s, or |s|. */
  function SpaceIndex(s: string): (k: nat)
    ensures k <= |s| && NoSpace(s[..k]) && (k < |s| ==> IsSpace(s[k]))
  {
    if s == [] || IsSpace(s[0]) then 0
    else
      var k := SpaceIndex(s[1..]);
      assert s[..k + 1] == [s[0]] + s[1..][..k];
      k + 1
  }

  /** A token of str.split(): nonempty, no whitespace. */
  predicate IsWord(w: string)
  {
    |w| > 0 && NoSpace(w)
  }

  /** s.split() with no argument: the maximal runs of non-whitespace characters. */
  function Words(s: string): (r: seq<string>)
    ensures forall k :: 0 <= k < |r| ==> IsWord(r[k])
    decreases |s|
  {
    var t := LStrip(s);
    if t == [] then []
    else
      LStripSpec(s);
      var k := SpaceIndex(t);
      assert k > 0;
      var rest := Words(t[k..]);
      assert IsWord(t[..k]);
      [t[..k]] + rest
  }

  /** Words separated by single spaces split back into the same words. */
  lemma {:induction false} WordsOfJoin(ws: seq<string>)
    requires forall k :: 0 <= k < |ws| ==> IsWord(ws[k])
    ensures Words(Join([' '], ws)) == ws
  {
    if |ws| == 0 {
      WordsOfEmpty();
    } else if |ws| == 1 {
      WordsOfSingle(ws[0]);
    } else {
      var w, rest := ws[0], ws[1..];
      assert [w] + rest == ws;
      WordsTail(ws);
      WordsOfJoin(rest);
      WordsOfJoinCons(w, rest);
    }
  }

  lemma WordsTail(ws: seq<string>)
    requires |ws| > 0 && forall k :: 0 <= k < |ws| ==> IsWord(ws[k])
    ensures IsWord(ws[0]) && forall k :: 0 <= k < |ws[1..]| ==> IsWord(ws[1..][k])
  {
    forall k | 0 <= k < |ws[1..]| ensures IsWord(ws[1..][k]) {
      assert ws[1..][k] == ws[k + 1];
    }
  }

  lemma WordsOfSingle(w: string)
    requires IsWord(w)
    ensures Words(Join([' '], [w])) == [w]
  {
    WordsOfWord(w, []);
    WordsOfEmpty();
    assert w + [] == w;
  }

  lemma WordsOfJoinCons(w: string, ws: seq<string>)
    requires IsWord(w) && |ws| >= 1
    requires Words(Join([' '], ws)) == ws
    ensures Words(Join([' '], [w] + ws)) == [w] + ws
  {
    var rest := Join([' '], ws);
    assert ([w] + ws)[1..] == ws;
    assert Join([' '], [w] + ws) == w + [' '] + rest;
    WordsCons(w, rest);
  }

  /** A word, a space, then more text: the word comes first. */
  lemma WordsCons(w: string, rest: string)
    requires IsWord(w)
    ensures Words(w + [' '] + rest) == [w] + Words(rest)
  {
    var tail := [' '] + rest;
    assert w + [' '] + rest == w + tail;
    WordsOfWord(w, tail);
    LStripSpace(rest);
    WordsAfterLStrip(tail, rest);
  }

  lemma WordsAfterLStrip(a: string, b: string)
    requires LStrip(a) == LStrip(b)
    ensures Words(a) == Words(b)
  {
  }

  lemma WordsOfEmpty()
    ensures Words([]) == []
  {
    assert LStrip([]) == [];
  }

  lemma LStripSpace(s: string)
    ensures LStrip([' '] + s) == LStrip(s)
  {
    var t := [' '] + s;
    assert t[0] == ' ' && t[1..] == s;
    assert IsSpace(t[0]);
    assert LStrip(t) == LStrip(t[1..]);
  }

  /** A word followed by a tail that is empty or starts with whitespace. */
  lemma WordsOfWord(w: string, t: string)
    requires IsWord(w)
    requires t == [] || IsSpace(t[0])
    ensures Words(w + t) == [w] + Words(t)
  {
    var s := w + t;
    assert LStrip(s) == s;
    SpaceIndexOf(w, t);
    assert s[..|w|] == w && s[|w|..] == t;
  }

  lemma {:induction false} SpaceIndexOf(w: string, t: string)
    requires NoSpace(w)
    requires t == [] || IsSpace(t[0])
    ensures SpaceIndex(w + t) == |w|
  {
    if |w| > 0 {
      SpaceIndexOf(w[1..], t);
      assert (w + t)[1..] == w[1..] + t;
    } else {
      assert w + t == t;
    }
  }

  // ---------------------------------------------------------------------------
  // str.splitlines()
  // ---------------------------------------------------------------------------

  /** The characters str.splitlines() treats as line boundaries ("\r\n" counts once). */
  predicate IsLineBreak(c: char)
  {
    var n := c as int;
    (0x0a <= n <= 0x0d) || (0x1c <= n <= 0x1e) || n == 0x85 || n == 0x2028 || n == 0x2029
  }

  predicate NoLineBreak(s: string)
  {
    forall i :: 0 <= i < |s| ==> !IsLineBreak(s[i])
  }

  /** Index of the first line boundary in s, or |s|. */
  function BreakIndex(s: string): (k: nat)
    ensures k <= |s| && NoLineBreak(s[..k]) && (k < |s| ==> IsLineBreak(s[k]))
  {
    if s == [] || IsLineBreak(s[0]) then 0
    else
      var k := BreakIndex(s[1..]);
      assert s[..k + 1] == [s[0]] + s[1..][..k];
      k + 1
  }

  /** s.splitlines(): the lines of s without their boundaries; no final empty line. */
  function SplitLines(s: string): (r: seq<string>)
    ensures forall k :: 0 <= k < |r| ==> NoLineBreak(r[k])
    ensures r == [] <==> s == []
    decreases |s|
  {
    if s == [] then []
    else
      var k := BreakIndex(s);
      if k == |s| then [s]
      else if s[k] == '\r' && k + 1 < |s| && s[k + 1] == '\n' then [s[..k]] + SplitLines(s[k + 2..])
      else [s[..k]] + SplitLines(s[k + 1..])
  }

  /** Lines each followed by "\n". */
  function Terminated(lines: seq<string>): string
  {
    if lines == [] then "" else lines[0] + "\n" + Terminated(lines[1..])
  }

  /** Splitting newline-terminated lines gives back the lines. */
  lemma {:induction false} SplitLinesOfTerminated(lines: seq<string>)
    requires forall k :: 0 <= k < |lines| ==> NoLineBreak(lines[k])
    ensures SplitLines(Terminated(lines)) == lines
  {
    if lines != [] {
      var w := lines[0];
      var rest := Terminated(lines[1..]);
      var s := w + "\n" + rest;
      BreakIndexOf(w, "\n" + rest);
      assert s == w + ("\n" + rest);
      assert s[|w|] == '\n';
      assert s[..|w|] == w && s[|w| + 1..] == rest;
      SplitLinesOfTerminated(lines[1..]);
      assert lines == [w] + lines[1..];
    }
  }

  lemma {:induction false} BreakIndexOf(w: string, t: string)
    requires NoLineBreak(w)
    requires t == [] || IsLineBreak(t[0])
    ensures BreakIndex(w + t) == |w|
  {
    if |w| > 0 {
      BreakIndexOf(w[1..], t);
      assert (w + t)[1..] == w[1..] + t;
    } else {
      assert w + t == t;
    }
  }

  // ---------------------------------------------------------------------------
  // str(n) and int(s) for decimal integers
  // ---------------------------------------------------------------------------

  predicate IsDigit(c: char)
  {
    '0' <= c <= '9'
  }

  function DigitChar(d: nat): char
    requires d < 10
  {
    ('0' as int + d) as char
  }

  /** str(n) for n >= 0: decimal digits, no leading zeros. */
  function NatToString(n: nat): (r: string)
    ensures |r| > 0 && forall i :: 0 <= i < |r| ==> IsDigit(r[i])
    ensures r[0] == '0' ==> n == 0
  {
    if n < 10 then [DigitChar(n)] else NatToString(n / 10) + [DigitChar(n % 10)]
  }

  /** str(n) for any integer. */
  function IntToString(n: int): (r: string)
  {
    if n < 0 then ['-'] + NatToString(-n) else NatToString(n)
  }

  /** The value of a string of digits and underscores, the underscores skipped. */
  function DigitsValue(d: string): nat
  {
    if d == [] then 0
    else if d[|d| - 1] == '_' then DigitsValue(d[..|d| - 1])
    else if IsDigit(d[|d| - 1]) then DigitsValue(d[..|d| - 1]) * 10 + (d[|d| - 1] as int - '0' as int)
    else DigitsValue(d[..|d| - 1]) * 10
  }

  /**
   * The digit part int() accepts: ASCII digits, where a single underscore may
   * stand between two digits.
   */
  predicate WellFormedDigits(d: string)
  {
    |d| > 0 && IsDigit(d[0]) && IsDigit(d[|d| - 1]) &&
    (forall i :: 0 <= i < |d| ==> IsDigit(d[i]) || d[i] == '_') &&
    (forall i :: 0 <= i < |d| - 1 ==> d[i] == '_' ==> d[i + 1] != '_')
  }

  /**
   * int(s) on a decimal string: surrounding whitespace, an optional sign, then
   * the digits. None where Python raises ValueError. Non-ASCII digits are not
   * modelled.
   */
  function ParseInt(s: string): (r: Option<int>)
  {
    ParseStripped(Strip(s))
  }

  /** int() on a string with no surrounding whitespace. */
  function ParseStripped(t: string): (r: Option<int>)
  {
    if t == [] then None
    else if t[0] == '-' || t[0] == '+' then
      var d := t[1..];
      var v: int := DigitsValue(d);
      if WellFormedDigits(d) then Some(if t[0] == '-' then -v else v) else None
    else if WellFormedDigits(t) then Some(DigitsValue(t))
    else None
  }

  lemma {:induction false} DigitsValueOfNat(n: nat)
    ensures DigitsValue(NatToString(n)) == n
  {
    if n >= 10 {
      DigitsValueOfNat(n / 10);
      var d := NatToString(n / 10) + [DigitChar(n % 10)];
      assert d[..|d| - 1] == NatToString(n / 10);
    }
  }

  lemma NatStringWellFormed(n: nat)
    ensures WellFormedDigits(NatToString(n))
  {
  }

  lemma NoSpaceInNumber(s: string)
    requires forall i :: 0 <= i < |s| ==> IsDigit(s[i]) || s[i] == '-' || s[i] == '_'
    ensures Strip(s) == s
  {
    assert s == [] || !IsSpace(s[0]);
    assert LStrip(s) == s;
    assert s == [] || !IsSpace(s[|s| - 1]);
  }

  lemma ParseIntOfDigits(d: string)
    requires WellFormedDigits(d)
    ensures ParseInt(d) == Some(DigitsValue(d))
  {
    NoSpaceInNumber(d);
    assert ParseStripped(d) == Some(DigitsValue(d));
  }

  lemma ParseIntOfNegative(d: string)
    requires WellFormedDigits(d)
    ensures ParseInt(['-'] + d) == Some(-(DigitsValue(d) as int))
  {
    var s := ['-'] + d;
    NoSpaceInNumber(s);
    assert s[0] == '-' && s[1..] == d;
    assert ParseStripped(s) == Some(-(DigitsValue(d) as int));
  }

  /** int(str(n)) == n. */
  lemma ParseIntOfString(n: int)
    ensures ParseInt(IntToString(n)) == Some(n)
  {
    var m: nat := if n < 0 then -n else n;
    DigitsValueOfNat(m);
    NatStringWellFormed(m);
    if n < 0 {
      ParseIntOfNegative(NatToString(m));
    } else {
      ParseIntOfDigits(NatToString(m));
    }
  }
}
