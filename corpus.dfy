/** Lookups over the reference corpus, an immutable table of rows with the
    columns ポジション, 業界, 部門 and 職務内容 (app.py, `get_similar_samples`,
    `get_random_samples`, `search_database`). */
module Corpus {
  import opened PyStr
  import opened Normalizer
  import opened Roles

  /** A searched cell: text, or a missing / non-text value. */
  datatype Cell = Missing | Text(value: string)

  /** One corpus row: ポジション, 業界, 部門 and the description 職務内容. */
  datatype Row = Row(position: Cell, industry: Cell, department: Cell, description: string)

  /** pandas `str.contains(pattern, na=False, case=False)` on one cell, read as
      literal, ASCII-case-insensitive containment. A missing cell never matches;
      the empty pattern matches every text cell. */
  predicate CellContains(cell: Cell, pattern: string) {
    cell.Text? && Contains(ToLower(cell.value), ToLower(pattern))
  }

  /** A boolean mask applied to a table: the rows that `keep`, in table order. */
  function Filter(rows: seq<Row>, keep: Row -> bool): (r: seq<Row>)
    ensures |r| <= |rows|
    ensures forall x :: x in r ==> x in rows && keep(x)
    ensures forall i :: 0 <= i < |rows| && keep(rows[i]) ==> rows[i] in r
    ensures r == [] <==> forall i :: 0 <= i < |rows| ==> !keep(rows[i])
  {
    if rows == [] then []
    else
      var rest := Filter(rows[1..], keep);
      assert forall i :: 1 <= i < |rows| ==> rows[i] == rows[1..][i - 1];
      if keep(rows[0]) then [rows[0]] + rest else rest
  }

  /** A mask distributes over the concatenation of two tables. */
  lemma {:induction false} FilterAppend(a: seq<Row>, b: seq<Row>, keep: Row -> bool)
    ensures Filter(a + b, keep) == Filter(a, keep) + Filter(b, keep)
  {
    if a == [] {
      assert a + b == b;
    } else {
      assert (a + b)[1..] == a[1..] + b;
      FilterAppend(a[1..], b, keep);
    }
  }

  /** Rows are kept in table order: extending the table by one row extends the
      selection by that row exactly when it passes. */
  lemma FilterSnoc(rows: seq<Row>, i: nat, keep: Row -> bool)
    requires i < |rows|
    ensures Filter(rows[..i + 1], keep) == Filter(rows[..i], keep) + (if keep(rows[i]) then [rows[i]] else [])
  {
    assert rows[..i + 1] == rows[..i] + [rows[i]];
    FilterAppend(rows[..i], [rows[i]], keep);
    assert [rows[i]][1..] == [];
  }

  /** Two masks that agree on every row of the table select the same rows. */
  lemma {:induction false} FilterCongruent(rows: seq<Row>, p: Row -> bool, q: Row -> bool)
    requires forall i :: 0 <= i < |rows| ==> p(rows[i]) == q(rows[i])
    ensures Filter(rows, p) == Filter(rows, q)
  {
    if rows != [] {
      FilterCongruent(rows[1..], p, q);
    }
  }

  /** `table["職務内容"].tolist()`. */
  function Descriptions(rows: seq<Row>): (r: seq<string>)
    ensures |r| == |rows|
    ensures forall i :: 0 <= i < |rows| ==> r[i] == rows[i].description
  {
    if rows == [] then [] else [rows[0].description] + Descriptions(rows[1..])
  }

  /** pandas `.sample(k)` without replacement. The random generator is the
      parameter `draw`: at each step the next number picks one of the entries
      not yet taken (0 once `draw` runs out). The sample has exactly `k` entries,
      all taken from distinct positions of `pool`, so its multiset is contained
      in the pool's; a sample of the whole pool is a reordering of it. */
  function Sample(pool: seq<string>, k: nat, draw: seq<nat>): (r: seq<string>)
    requires k <= |pool|
    ensures |r| == k
    ensures multiset(r) <= multiset(pool)
    ensures k == |pool| ==> multiset(r) == multiset(pool)
    decreases k
  {
    if k == 0 then []
    else
      var j := (if draw == [] then 0 else draw[0]) % |pool|;
      var remaining := pool[..j] + pool[j + 1..];
      assert pool == pool[..j] + [pool[j]] + pool[j + 1..];
      assert multiset(pool) == multiset(remaining) + multiset{pool[j]};
      [pool[j]] + Sample(remaining, k - 1, if draw == [] then [] else draw[1..])
  }

  /** The row test of `search_database`: all three columns contain their term. */
  predicate ExactMatch(row: Row, position: string, industry: string, department: string) {
    && CellContains(row.position, position)
    && CellContains(row.industry, industry)
    && CellContains(row.department, department)
  }

  /** The term `search_database` looks for in the ポジション column: the inferred
      category for every non-empty position, never the raw text; "" otherwise. */
  function SearchPosition(position: string): (p: string)
    ensures position == "" ==> p == ""
    ensures position != "" ==> p == InferPositionCategory(position)
    ensures position != "" ==> p == ManagerLabel || p == StaffLabel
  {
    var inferred := InferPositionCategory(position);
    if inferred != "" then inferred else position
  }

  /** The rows `search_database` selects, in corpus order. */
  function ExactMatches(corpus: seq<Row>, position: string, industry: string, department: string): seq<Row>
  {
    var p, i, d := SearchPosition(position), NormalizeIndustry(industry), NormalizeDepartment(department);
    Filter(corpus, row => ExactMatch(row, p, i, d))
  }

  /** The selected rows are exactly the corpus rows passing all three tests. */
  lemma ExactMatchesRows(corpus: seq<Row>, position: string, industry: string, department: string)
    ensures forall x :: x in ExactMatches(corpus, position, industry, department) ==>
      x in corpus && ExactMatch(x, SearchPosition(position), NormalizeIndustry(industry), NormalizeDepartment(department))
    ensures forall i ::
      (0 <= i < |corpus| &&
       ExactMatch(corpus[i], SearchPosition(position), NormalizeIndustry(industry), NormalizeDepartment(department))) ==>
      corpus[i] in ExactMatches(corpus, position, industry, department)
  {
  }

  /** `search_database`: at most 10 descriptions, the first ones in corpus order
      of the rows whose ポジション contains the search position, 業界 the
      normalised industry and 部門 the normalised department; empty exactly
      when no row passes all three tests. */
  function SearchDatabase(corpus: seq<Row>, position: string, industry: string, department: string): (r: seq<string>)
    ensures |r| <= 10
    ensures r <= Descriptions(ExactMatches(corpus, position, industry, department))
    ensures |r| == Min(10, |ExactMatches(corpus, position, industry, department)|)
    ensures r == [] <==> forall i :: 0 <= i < |corpus| ==>
      !ExactMatch(corpus[i], SearchPosition(position), NormalizeIndustry(industry), NormalizeDepartment(department))
  {
    var results := ExactMatches(corpus, position, industry, department);
    if results != [] then Take(Descriptions(results), 10) else []
  }

  /** Every description `search_database` returns is that of a corpus row
      passing all three tests. */
  lemma SearchDatabaseRows(corpus: seq<Row>, position: string, industry: string, department: string)
    ensures forall k :: 0 <= k < |SearchDatabase(corpus, position, industry, department)| ==>
      exists i :: 0 <= i < |corpus| &&
        corpus[i].description == SearchDatabase(corpus, position, industry, department)[k] &&
        ExactMatch(corpus[i], SearchPosition(position), NormalizeIndustry(industry), NormalizeDepartment(department))
  {
    var p, ind, d := SearchPosition(position), NormalizeIndustry(industry), NormalizeDepartment(department);
    var results := ExactMatches(corpus, position, industry, department);
    var r := SearchDatabase(corpus, position, industry, department);
    forall k | 0 <= k < |r|
      ensures exists i :: 0 <= i < |corpus| && corpus[i].description == r[k] && ExactMatch(corpus[i], p, ind, d)
    {
      assert r[k] == Descriptions(results)[k] == results[k].description;
      assert results[k] in results;
      var i :| 0 <= i < |corpus| && corpus[i] == results[k];
      assert ExactMatch(corpus[i], p, ind, d);
    }
  }

  /** Two non-empty positions with the same category give the same lookup: the
      raw position text itself is never searched for. */
  lemma SearchUsesCategoryOnly(corpus: seq<Row>, p1: string, p2: string, industry: string, department: string)
    ensures p1 != "" && p2 != "" && InferPositionCategory(p1) == InferPositionCategory(p2) ==>
      SearchDatabase(corpus, p1, industry, department) == SearchDatabase(corpus, p2, industry, department)
  {
  }

  /** The row test `get_similar_samples` applies when at least one term is
      non-empty: a term that is empty is not used at all; the others are ORed. */
  predicate SimilarMatch(row: Row, industry: string, department: string) {
    || (industry != "" && CellContains(row.industry, industry))
    || (department != "" && CellContains(row.department, department))
  }

  /** The filtered rows of `get_similar_samples`, branch by branch as the source
      selects them. */
  function SimilarMatches(corpus: seq<Row>, industry: string, department: string): seq<Row>
    requires industry != "" || department != ""
  {
    if industry != "" && department != "" then
      Filter(corpus, (row: Row) => CellContains(row.industry, industry) || CellContains(row.department, department))
    else if industry != "" then
      Filter(corpus, (row: Row) => CellContains(row.industry, industry))
    else
      Filter(corpus, (row: Row) => CellContains(row.department, department))
  }

  /** Whatever the branch, the filtered rows are those passing `SimilarMatch`:
      both terms ORed, or the one non-empty term alone. */
  lemma SimilarMatchesSelect(corpus: seq<Row>, industry: string, department: string)
    requires industry != "" || department != ""
    ensures SimilarMatches(corpus, industry, department) == Filter(corpus, row => SimilarMatch(row, industry, department))
  {
    var unified := (row: Row) => SimilarMatch(row, industry, department);
    if industry != "" && department != "" {
      FilterCongruent(corpus, (row: Row) => CellContains(row.industry, industry) || CellContains(row.department, department), unified);
    } else if industry != "" {
      FilterCongruent(corpus, (row: Row) => CellContains(row.industry, industry), unified);
    } else {
      FilterCongruent(corpus, (row: Row) => CellContains(row.department, department), unified);
    }
  }

  /** The table `get_similar_samples` draws from: the filtered rows, or the whole
      corpus when both normalised terms are empty. */
  function SimilarPool(corpus: seq<Row>, industry: string, department: string): seq<Row>
  {
    var ni, nd := NormalizeIndustry(industry), NormalizeDepartment(department);
    if ni != "" || nd != "" then SimilarMatches(corpus, ni, nd) else corpus
  }

  /** With a non-empty normalised term the pool is exactly the corpus rows
      matching a non-empty term; with none it is the whole corpus. */
  lemma SimilarPoolRows(corpus: seq<Row>, industry: string, department: string)
    ensures NormalizeIndustry(industry) == "" && NormalizeDepartment(department) == "" ==>
      SimilarPool(corpus, industry, department) == corpus
    ensures NormalizeIndustry(industry) != "" || NormalizeDepartment(department) != "" ==>
      (forall x :: x in SimilarPool(corpus, industry, department) ==>
        x in corpus && SimilarMatch(x, NormalizeIndustry(industry), NormalizeDepartment(department)))
      && (forall i :: 0 <= i < |corpus| && SimilarMatch(corpus[i], NormalizeIndustry(industry), NormalizeDepartment(department)) ==>
        corpus[i] in SimilarPool(corpus, industry, department))
  {
    var ni, nd := NormalizeIndustry(industry), NormalizeDepartment(department);
    if ni != "" || nd != "" {
      SimilarMatchesSelect(corpus, ni, nd);
    }
  }

  /** `get_similar_samples(industry, department, count)`; `firstDraw` and
      `secondDraw` stand for the two calls to the random generator. The result
      has `min(count, |pool|)` descriptions taken from distinct rows of the pool.
      With filter terms and fewer than `count` matches it is exactly the matched
      descriptions in corpus order; when the pool has at most `count` rows it is
      a reordering of all of them. */
  function GetSimilarSamples(corpus: seq<Row>, industry: string, department: string, count: nat,
                             firstDraw: seq<nat>, secondDraw: seq<nat>): (r: seq<string>)
    ensures |r| == Min(count, |SimilarPool(corpus, industry, department)|)
    ensures multiset(r) <= multiset(Descriptions(SimilarPool(corpus, industry, department)))
    ensures |SimilarPool(corpus, industry, department)| <= count ==>
      multiset(r) == multiset(Descriptions(SimilarPool(corpus, industry, department)))
    ensures ((NormalizeIndustry(industry) != "" || NormalizeDepartment(department) != "") &&
             |SimilarPool(corpus, industry, department)| < count) ==>
      r == Descriptions(SimilarPool(corpus, industry, department))
  {
    var ni := if industry != "" then NormalizeIndustry(industry) else "";
    var nd := if department != "" then NormalizeDepartment(department) else "";
    var results :=
      if ni != "" || nd != "" then Descriptions(SimilarMatches(corpus, ni, nd))
      else Sample(Descriptions(corpus), Min(count, |corpus|), firstDraw);
    if |results| < count then results else Sample(results, count, secondDraw)
  }

  /** `get_random_samples(count)`: `min(count, |corpus|)` descriptions from
      distinct rows, all of them (reordered) when `count` covers the corpus. */
  function GetRandomSamples(corpus: seq<Row>, count: nat, draw: seq<nat>): (r: seq<string>)
    ensures |r| == Min(count, |corpus|)
    ensures multiset(r) <= multiset(Descriptions(corpus))
    ensures |corpus| <= count ==> multiset(r) == multiset(Descriptions(corpus))
  {
    Sample(Descriptions(corpus), Min(count, |corpus|), draw)
  }
}
