/**
 * The record filter of `get_filtered_data` (main.py): rows of a sheet are
 * kept, in their original order, when every active constraint of the filter
 * holds. A constraint is active when its value is truthy (neither `None` nor
 * the empty string), and it holds when the lower-cased value is a substring
 * of the lower-cased cell, a missing cell reading as the empty string.
 */
module RowFilter {
  import opened Wrappers
  import opened Text
  import opened Subsequences

  /** One record of the sheet: column name to cell text. */
  type Row = map<string, string>

  /** Column name to the value it must contain; `None` or `""` imposes nothing. */
  type FilterSpec = map<string, Option<string>>

  /** Python truthiness of an optional string. */
  predicate Active(value: Option<string>)
    ensures Active(value) <==> value != None && value != Some("")
  {
    value.Some? && value.value != ""
  }

  /** `row.get(key, "")`. */
  function Cell(row: Row, key: string): (cell: string)
    ensures key in row ==> cell == row[key]
    ensures key !in row ==> cell == ""
  {
    if key in row then row[key] else ""
  }

  /** The row passes the constraint that `value` places on column `key`. */
  predicate Satisfies(row: Row, key: string, value: Option<string>)
    ensures !Active(value) ==> Satisfies(row, key, value)
    ensures Active(value) && key !in row ==> !Satisfies(row, key, value)
  {
    !Active(value) || IsSubstring(Lower(value.value), Lower(Cell(row, key)))
  }

  /** The row passes every constraint of the filter. */
  predicate Matches(row: Row, filters: FilterSpec)
    ensures (forall key | key in filters :: !Active(filters[key])) ==> Matches(row, filters)
    ensures Matches(row, filters) ==> forall key | key in filters && Active(filters[key]) :: key in row
  {
    forall key | key in filters :: Satisfies(row, key, filters[key])
  }

  /** The functional definition of the filter: the matching rows, in input order. */
  function FilterRows(rows: seq<Row>, filters: FilterSpec): (kept: seq<Row>)
    ensures |kept| <= |rows|
    ensures forall r | r in kept :: r in rows && Matches(r, filters)
    ensures forall i | 0 <= i < |rows| && Matches(rows[i], filters) :: rows[i] in kept
  {
    if rows == [] then []
    else if Matches(rows[0], filters) then [rows[0]] + FilterRows(rows[1..], filters)
    else FilterRows(rows[1..], filters)
  }

  /** Filtering distributes over concatenation: each row is judged on its own. */
  lemma {:induction false} FilterConcat(a: seq<Row>, b: seq<Row>, filters: FilterSpec)
    ensures FilterRows(a + b, filters) == FilterRows(a, filters) + FilterRows(b, filters)
  {
    if a != [] {
      assert (a + b)[0] == a[0];
      assert (a + b)[1..] == a[1..] + b;
      FilterConcat(a[1..], b, filters);
      if Matches(a[0], filters) {
        assert FilterRows(a + b, filters) == [a[0]] + FilterRows(a[1..] + b, filters);
        assert FilterRows(a, filters) == [a[0]] + FilterRows(a[1..], filters);
      }
    } else {
      assert a + b == b;
    }
  }

  /** Filtering one more row appends it exactly when it matches. */
  lemma FilterSnoc(rows: seq<Row>, row: Row, filters: FilterSpec)
    ensures FilterRows(rows + [row], filters)
         == FilterRows(rows, filters) + (if Matches(row, filters) then [row] else [])
  {
    FilterConcat(rows, [row], filters);
    assert [row][1..] == [];
  }

  /** Filtering a prefix one row longer appends that row exactly when it matches. */
  lemma FilterPrefixStep(rows: seq<Row>, i: nat, filters: FilterSpec)
    requires i < |rows|
    ensures FilterRows(rows[..i + 1], filters)
         == FilterRows(rows[..i], filters) + (if Matches(rows[i], filters) then [rows[i]] else [])
  {
    assert rows[..i + 1] == rows[..i] + [rows[i]];
    FilterSnoc(rows[..i], rows[i], filters);
  }

  /** The kept rows are a subsequence of the input: nothing reordered or duplicated. */
  lemma {:induction false} FilterIsSubsequence(rows: seq<Row>, filters: FilterSpec)
    ensures IsSubsequence(FilterRows(rows, filters), rows)
  {
    if rows != [] {
      FilterIsSubsequence(rows[1..], filters);
      var tail := FilterRows(rows[1..], filters);
      if !Matches(rows[0], filters) && tail != [] {
        assert tail[0] in tail;
      }
    }
  }

  /**
   * Exact multiplicities: a matching row occurs in the result as often as in
   * the input, a failing one not at all.
   */
  lemma {:induction false} FilterCounts(rows: seq<Row>, filters: FilterSpec, r: Row)
    ensures multiset(FilterRows(rows, filters))[r]
         == if Matches(r, filters) then multiset(rows)[r] else 0
  {
    if rows != [] {
      var tail := FilterRows(rows[1..], filters);
      FilterCounts(rows[1..], filters, r);
      assert rows == [rows[0]] + rows[1..];
      CountCons(rows[0], rows[1..], r);
      if Matches(rows[0], filters) {
        assert FilterRows(rows, filters) == [rows[0]] + tail;
        CountCons(rows[0], tail, r);
      } else {
        assert FilterRows(rows, filters) == tail;
      }
    }
  }

  /** The multiplicity of `r` after putting `x` in front of `s`. */
  lemma CountCons(x: Row, s: seq<Row>, r: Row)
    ensures multiset([x] + s)[r] == multiset(s)[r] + (if x == r then 1 else 0)
  {
    assert multiset([x] + s) == multiset([x]) + multiset(s);
  }

  /** Rows that all match pass through the filter unchanged. */
  lemma {:induction false} FilterAllMatching(rows: seq<Row>, filters: FilterSpec)
    requires forall i | 0 <= i < |rows| :: Matches(rows[i], filters)
    ensures FilterRows(rows, filters) == rows
  {
    if rows != [] {
      assert Matches(rows[0], filters);
      FilterAllMatching(rows[1..], filters);
      assert rows == [rows[0]] + rows[1..];
    }
  }

  /** Filtering the result again with the same filter changes nothing. */
  lemma FilterIdempotent(rows: seq<Row>, filters: FilterSpec)
    ensures FilterRows(FilterRows(rows, filters), filters) == FilterRows(rows, filters)
  {
    var kept := FilterRows(rows, filters);
    assert forall i | 0 <= i < |kept| :: kept[i] in kept;
    FilterAllMatching(kept, filters);
  }

  /** A filter whose values are all `None` or `""` keeps every row, in order. */
  lemma FilterInactiveIsIdentity(rows: seq<Row>, filters: FilterSpec)
    requires forall key | key in filters :: !Active(filters[key])
    ensures FilterRows(rows, filters) == rows
  {
    FilterAllMatching(rows, filters);
  }

  /**
   * An active constraint on a column drops every row that lacks the column:
   * the missing cell reads as `""`, which contains no non-empty string.
   */
  lemma MissingColumnExcluded(rows: seq<Row>, filters: FilterSpec, key: string)
    requires key in filters && Active(filters[key])
    ensures forall r | r in FilterRows(rows, filters) :: key in r
  {
  }

  /**
   * When every row of the input passing `strong` also passes `weak`,
   * filtering by `strong` is filtering by `weak` and then by `strong`.
   */
  lemma {:induction false} FilterStronger(rows: seq<Row>, weak: FilterSpec, strong: FilterSpec)
    requires forall i | 0 <= i < |rows| :: Matches(rows[i], strong) ==> Matches(rows[i], weak)
    ensures FilterRows(rows, strong) == FilterRows(FilterRows(rows, weak), strong)
  {
    if rows != [] {
      FilterStronger(rows[1..], weak, strong);
    }
  }

  /**
   * A row passes the filter with one more constraint exactly when it passes
   * the old filter and the new constraint, provided the old filter placed
   * no active constraint on that column.
   */
  lemma MatchesWithConstraint(r: Row, filters: FilterSpec, key: string, value: Option<string>)
    requires key !in filters || !Active(filters[key])
    ensures Matches(r, filters[key := value]) <==> Matches(r, filters) && Satisfies(r, key, value)
  {
    var strong := filters[key := value];
    if Matches(r, filters) && Satisfies(r, key, value) {
      forall k | k in strong
        ensures Satisfies(r, k, strong[k])
      {
        if k != key {
          assert Satisfies(r, k, filters[k]);
        }
      }
    }
    if Matches(r, strong) {
      assert Satisfies(r, key, strong[key]);
      forall k | k in filters
        ensures Satisfies(r, k, filters[k])
      {
        if k != key {
          assert Satisfies(r, k, strong[k]);
        }
      }
    }
  }

  /**
   * Adding or activating one more constraint is the conjunction of the old
   * filter and the new constraint, so the result is a subsequence of the
   * previous result.
   */
  lemma AddConstraint(rows: seq<Row>, filters: FilterSpec, key: string, value: Option<string>)
    requires key !in filters || !Active(filters[key])
    ensures FilterRows(rows, filters[key := value])
         == FilterRows(FilterRows(rows, filters), map[key := value])
    ensures IsSubsequence(FilterRows(rows, filters[key := value]), FilterRows(rows, filters))
  {
    var strong := filters[key := value];
    var single := map[key := value];
    forall r: Row
      ensures Matches(r, strong) <==> Matches(r, filters) && Matches(r, single)
    {
      MatchesWithConstraint(r, filters, key, value);
      assert Matches(r, single) <==> Satisfies(r, key, value) by {
        assert single.Keys == {key};
      }
    }
    FilterStronger(rows, filters, strong);
    var once := FilterRows(rows, filters);
    SameFilterOnRows(once, strong, single);
    FilterIsSubsequence(once, strong);
  }

  /** Two filters that accept the same rows of the input give the same result. */
  lemma {:induction false} SameFilterOnRows(rows: seq<Row>, f: FilterSpec, g: FilterSpec)
    requires forall i | 0 <= i < |rows| :: Matches(rows[i], f) <==> Matches(rows[i], g)
    ensures FilterRows(rows, f) == FilterRows(rows, g)
  {
    if rows != [] {
      SameFilterOnRows(rows[1..], f, g);
    }
  }

  /** Applying two filters one after the other does not depend on their order. */
  lemma {:induction false} FilterCommutes(rows: seq<Row>, f: FilterSpec, g: FilterSpec)
    ensures FilterRows(FilterRows(rows, f), g) == FilterRows(FilterRows(rows, g), f)
  {
    if rows != [] {
      FilterCommutes(rows[1..], f, g);
    }
  }

  /** Two filters that differ only in the letter case of their values. */
  predicate SameFilterIgnoringCase(f: FilterSpec, g: FilterSpec) {
    && f.Keys == g.Keys
    && forall key | key in f ::
         && Active(f[key]) == Active(g[key])
         && (Active(f[key]) ==> Lower(f[key].value) == Lower(g[key].value))
  }

  /** Two rows that differ only in the letter case of their cells. */
  predicate SameRowIgnoringCase(r: Row, s: Row) {
    && r.Keys == s.Keys
    && forall key | key in r :: Lower(r[key]) == Lower(s[key])
  }

  /** Changing the case of the filter values does not change the result. */
  lemma {:induction false} FilterCaseInsensitiveInValues(rows: seq<Row>, f: FilterSpec, g: FilterSpec)
    requires SameFilterIgnoringCase(f, g)
    ensures FilterRows(rows, f) == FilterRows(rows, g)
  {
    if rows != [] {
      var r := rows[0];
      if Matches(r, f) {
        forall key | key in g ensures Satisfies(r, key, g[key]) {
          assert Satisfies(r, key, f[key]);
        }
      }
      if Matches(r, g) {
        forall key | key in f ensures Satisfies(r, key, f[key]) {
          assert Satisfies(r, key, g[key]);
        }
      }
      FilterCaseInsensitiveInValues(rows[1..], f, g);
    }
  }

  /** Upper-casing the value of a constraint leaves the result unchanged. */
  lemma UpperCasedValue(rows: seq<Row>, filters: FilterSpec, key: string, value: string)
    ensures FilterRows(rows, filters[key := Some(Upper(value))])
         == FilterRows(rows, filters[key := Some(value)])
  {
    LowerOfUpper(value);
    FilterCaseInsensitiveInValues(rows, filters[key := Some(Upper(value))], filters[key := Some(value)]);
  }

  /** Changing the case of a row's cells does not change whether it matches. */
  lemma MatchesCaseInsensitiveInCells(r: Row, s: Row, filters: FilterSpec)
    requires SameRowIgnoringCase(r, s)
    ensures Matches(r, filters) <==> Matches(s, filters)
  {
    forall key
      ensures Lower(Cell(r, key)) == Lower(Cell(s, key))
    {
    }
  }

  /** Row sequences of equal length that agree row by row up to letter case. */
  predicate SameRowsIgnoringCase(rows: seq<Row>, others: seq<Row>)
    decreases |rows|
  {
    && |rows| == |others|
    && (rows != [] ==>
          SameRowIgnoringCase(rows[0], others[0]) && SameRowsIgnoringCase(rows[1..], others[1..]))
  }

  /**
   * Filtering rows that differ only in letter case keeps the same positions:
   * the two results have the same length and agree row by row up to case.
   */
  lemma {:induction false} FilterCaseInsensitiveInCells(rows: seq<Row>, others: seq<Row>, filters: FilterSpec)
    requires SameRowsIgnoringCase(rows, others)
    ensures SameRowsIgnoringCase(FilterRows(rows, filters), FilterRows(others, filters))
  {
    if rows != [] {
      MatchesCaseInsensitiveInCells(rows[0], others[0], filters);
      FilterCaseInsensitiveInCells(rows[1..], others[1..], filters);
      if Matches(rows[0], filters) {
        var tail, otherTail := FilterRows(rows[1..], filters), FilterRows(others[1..], filters);
        assert FilterRows(rows, filters) == [rows[0]] + tail;
        assert FilterRows(others, filters) == [others[0]] + otherTail;
        assert ([rows[0]] + tail)[1..] == tail && ([others[0]] + otherTail)[1..] == otherTail;
      }
    }
  }

  /**
   * The inner loop of `get_filtered_data`: visits the filter entries in an
   * arbitrary order and stops at the first active constraint that fails.
   */
  method RowMatches(row: Row, filters: FilterSpec) returns (matched: bool)
    ensures matched <==> Matches(row, filters)
  {
    matched := true;
    var pending := filters.Keys;
    while pending != {}
      invariant pending <= filters.Keys
      invariant forall key | key in filters.Keys - pending :: Satisfies(row, key, filters[key])
      decreases |pending|
    {
      var key :| key in pending;
      var value := filters[key];
      if value.Some? && value.value != "" {
        var found := Contains(Lower(Cell(row, key)), Lower(value.value));
        if !found {
          matched := false;
          break;
        }
      }
      pending := pending - {key};
    }
  }

  /**
   * The outer loop of `get_filtered_data`: appends each matching row in
   * iteration order. Computes exactly the functional filter.
   */
  method GetFilteredData(rows: seq<Row>, filters: FilterSpec) returns (filtered: seq<Row>)
    ensures filtered == FilterRows(rows, filters)
  {
    filtered := [];
    for i := 0 to |rows|
      invariant filtered == FilterRows(rows[..i], filters)
    {
      var row := rows[i];
      var matched := RowMatches(row, filters);
      if matched {
        filtered := filtered + [row];
      }
      FilterPrefixStep(rows, i, filters);
    }
    assert rows[..|rows|] == rows;
  }
}
