/**
 * The record table shared by the receiver window (smdr/gui.py) and the viewer
 * (smdr_viewer.py): the row both insert for a parsed record, and the
 * case-insensitive substring search over every cell in row-major order, whose
 * matches are kept and stepped through cyclically until a different term is
 * searched for.
 */
module Search {
  import opened Text
  import Server

  // ---------------------------------------------------------------------------
  // Table rows
  // ---------------------------------------------------------------------------

  /** The cells a parsed record fills: one per field, '' where the record is short. */
  function TableRow(parsed: seq<string>): seq<string>
  {
    seq(Server.FieldCount, i requires 0 <= i < Server.FieldCount => if i < |parsed| then parsed[i] else "")
  }

  /**
   * A row always has one cell per field: a full record keeps its first 37
   * fields, a short one is kept whole and padded with empty cells, and a row
   * already of table shape is left as it is.
   */
  lemma TableRowShape(parsed: seq<string>)
    ensures |TableRow(parsed)| == |Server.FieldNames()|
    ensures |parsed| >= Server.FieldCount ==> TableRow(parsed) == parsed[..Server.FieldCount]
    ensures |parsed| < Server.FieldCount ==>
              TableRow(parsed)[..|parsed|] == parsed
              && forall i :: |parsed| <= i < Server.FieldCount ==> TableRow(parsed)[i] == ""
    ensures TableRow(TableRow(parsed)) == TableRow(parsed)
  {
  }

  /** The loop that fills the new row cell by cell (setItem per column). */
  method BuildTableRow(parsed: seq<string>) returns (cells: seq<string>)
    ensures cells == TableRow(parsed)
  {
    cells := [];
    for col := 0 to Server.FieldCount
      invariant cells == TableRow(parsed)[..col]
    {
      var v := if col < |parsed| then parsed[col] else "";
      cells := cells + [v];
    }
  }

  // ---------------------------------------------------------------------------
  // Search
  // ---------------------------------------------------------------------------

  /** A matching cell, with the lower-cased term that found it. */
  datatype Match = Match(row: nat, col: nat, term: string)

  /** `term in cell.lower()`, for a term that is already lower case. */
  predicate Hit(cell: string, term: string)
  {
    Contains(Lower(cell), term)
  }

  /** An accented capital folds to its small letter, so "josé" is found in "JOSÉ". */
  lemma HitFoldsLatin1()
    ensures Hit("JOSÉ", "josé")
  {
    var l := Lower("JOSÉ");
    assert l[0] == 'j' && l[1] == 'o' && l[2] == 's' && l[3] == 'é';
    assert l[0..4] == "josé";
    ContainsIff(l, "josé");
  }

  /** Row-major order: a comes strictly before b. */
  predicate Before(a: Match, b: Match)
  {
    a.row < b.row || (a.row == b.row && a.col < b.col)
  }

  predicate Ordered(ms: seq<Match>)
  {
    forall i, j :: 0 <= i < j < |ms| ==> Before(ms[i], ms[j])
  }

  /** The matches among the first n cells of row r. */
  function RowMatches(cells: seq<string>, r: nat, term: string, n: nat): seq<Match>
    requires n <= |cells|
  {
    if n == 0 then []
    else RowMatches(cells, r, term, n - 1) + (if Hit(cells[n - 1], term) then [Match(r, n - 1, term)] else [])
  }

  /** The matches among the first n rows. */
  function TableMatches(table: seq<seq<string>>, term: string, n: nat): seq<Match>
    requires n <= |table|
  {
    if n == 0 then []
    else TableMatches(table, term, n - 1) + RowMatches(table[n - 1], n - 1, term, |table[n - 1]|)
  }

  /** Every cell of the table that contains the term, in row-major order. */
  function FindMatches(table: seq<seq<string>>, term: string): seq<Match>
  {
    TableMatches(table, term, |table|)
  }

  /** A cell the term was found in: inside the table and containing the term. */
  predicate IsMatchOf(table: seq<seq<string>>, term: string, m: Match)
  {
    m.row < |table| && m.col < |table[m.row]| && m.term == term && Hit(table[m.row][m.col], term)
  }

  lemma OrderedConcat(a: seq<Match>, b: seq<Match>)
    requires Ordered(a) && Ordered(b)
    requires forall i, j :: 0 <= i < |a| && 0 <= j < |b| ==> Before(a[i], b[j])
    ensures Ordered(a + b)
  {
    forall i, j | 0 <= i < j < |a + b| ensures Before((a + b)[i], (a + b)[j]) {
      if j < |a| {
        assert (a + b)[i] == a[i] && (a + b)[j] == a[j];
      } else if i < |a| {
        assert (a + b)[i] == a[i] && (a + b)[j] == b[j - |a|];
      } else {
        assert (a + b)[i] == b[i - |a|] && (a + b)[j] == b[j - |a|];
      }
    }
  }

  lemma {:induction false} RowMatchesSpec(cells: seq<string>, r: nat, term: string, n: nat)
    requires n <= |cells|
    ensures forall m :: m in RowMatches(cells, r, term, n) <==>
              m.row == r && m.col < n && m.term == term && Hit(cells[m.col], term)
    ensures Ordered(RowMatches(cells, r, term, n))
    ensures forall i :: 0 <= i < |RowMatches(cells, r, term, n)| ==>
              RowMatches(cells, r, term, n)[i].row == r && RowMatches(cells, r, term, n)[i].col < n
  {
    if n > 0 {
      RowMatchesSpec(cells, r, term, n - 1);
      var a := RowMatches(cells, r, term, n - 1);
      var b: seq<Match> := if Hit(cells[n - 1], term) then [Match(r, n - 1, term)] else [];
      OrderedConcat(a, b);
      assert RowMatches(cells, r, term, n) == a + b;
    }
  }

  lemma {:induction false} TableMatchesSpec(table: seq<seq<string>>, term: string, n: nat)
    requires n <= |table|
    ensures forall m :: m in TableMatches(table, term, n) <==> m.row < n && IsMatchOf(table, term, m)
    ensures Ordered(TableMatches(table, term, n))
    ensures forall i :: 0 <= i < |TableMatches(table, term, n)| ==> TableMatches(table, term, n)[i].row < n
  {
    if n > 0 {
      TableMatchesSpec(table, term, n - 1);
      var a := TableMatches(table, term, n - 1);
      var b := RowMatches(table[n - 1], n - 1, term, |table[n - 1]|);
      RowMatchesSpec(table[n - 1], n - 1, term, |table[n - 1]|);
      OrderedConcat(a, b);
      assert TableMatches(table, term, n) == a + b;
    }
  }

  /**
   * The matches are exactly the cells containing the term (each found with
   * that term), listed once each in row-major order.
   */
  lemma FindMatchesSpec(table: seq<seq<string>>, term: string)
    ensures forall m :: m in FindMatches(table, term) <==> IsMatchOf(table, term, m)
    ensures Ordered(FindMatches(table, term))
  {
    TableMatchesSpec(table, term, |table|);
  }

  lemma MatchesShareTerm(table: seq<seq<string>>, term: string)
    ensures forall i :: 0 <= i < |FindMatches(table, term)| ==> FindMatches(table, term)[i].term == term
  {
    var ms := FindMatches(table, term);
    FindMatchesSpec(table, term);
    forall i | 0 <= i < |ms| ensures ms[i].term == term {
      assert ms[i] in ms;
    }
  }

  /** The nested row/column loop that collects the matches. */
  method CollectMatches(table: seq<seq<string>>, term: string) returns (ms: seq<Match>)
    ensures ms == FindMatches(table, term)
  {
    ms := [];
    var r := 0;
    while r < |table|
      invariant 0 <= r <= |table|
      invariant ms == TableMatches(table, term, r)
    {
      var c := 0;
      while c < |table[r]|
        invariant 0 <= c <= |table[r]|
        invariant ms == TableMatches(table, term, r) + RowMatches(table[r], r, term, c)
      {
        if Hit(table[r][c], term) {
          ms := ms + [Match(r, c, term)];
        }
        c := c + 1;
      }
      r := r + 1;
    }
  }

  /**
   * The search state a window keeps: `_search_matches` and
   * `_current_search_index`.
   */
  class Cursor {
    var matches: seq<Match>
    var index: int

    /** The index is -1 or points into the matches, which all share one term. */
    predicate Valid()
      reads this
    {
      -1 <= index < |matches| && forall i :: 0 <= i < |matches| ==> matches[i].term == matches[0].term
    }

    constructor()
      ensures Valid() && matches == [] && index == -1
    {
      matches := [];
      index := -1;
    }

    /**
     * Find Next with the text of the search box: a blank term (after
     * stripping) does nothing, any other is searched for.
     */
    method Next(table: seq<seq<string>>, input: string) returns (selected: Option<Match>)
      requires Valid()
      modifies this
      ensures Valid()
      ensures Strip(input) == [] ==> selected == None && matches == old(matches) && index == old(index)
      ensures Strip(input) != [] ==> Searched(old(matches), old(index), table, Strip(input), selected)
    {
      var t := Strip(input);
      if t == [] {
        return None;
      }
      selected := SearchIn(table, t);
    }

    /**
     * The outcome of searching: a term other than the one the old matches
     * were found with (or no old matches at all) recomputes them over `table`
     * and resets the index to -1. With no matches the index stays put;
     * otherwise it advances by one, wrapping to the first match, and that
     * match is selected.
     */
    ghost predicate Searched(oldMatches: seq<Match>, oldIndex: int, table: seq<seq<string>>, searchTerm: string,
                             selected: Option<Match>)
      reads this
    {
      var term := Lower(searchTerm);
      var recompute := oldMatches == [] || oldMatches[0].term != term;
      && matches == (if recompute then FindMatches(table, term) else oldMatches)
      && (matches == [] ==> selected == None && index == -1)
      && (matches != [] ==>
            index == ((if recompute then -1 else oldIndex) + 1) % |matches|
            && selected == Some(matches[index]))
    }

    /** _search_in_table. */
    method SearchIn(table: seq<seq<string>>, searchTerm: string) returns (selected: Option<Match>)
      requires Valid()
      modifies this
      ensures Valid()
      ensures Searched(old(matches), old(index), table, searchTerm, selected)
    {
      var term := Lower(searchTerm);
      if matches == [] || matches[0].term != term {
        var ms := CollectMatches(table, term);
        MatchesShareTerm(table, term);
        matches := ms;
        index := -1;
      }
      if matches == [] {
        return None;
      }
      index := (index + 1) % |matches|;
      selected := Some(matches[index]);
    }

    /** _clear_search: forgets the matches and resets the index. */
    method Clear()
      modifies this
      ensures Valid() && matches == [] && index == -1
    {
      matches := [];
      index := -1;
    }
  }
}
