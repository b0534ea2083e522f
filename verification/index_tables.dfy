// Rows of the three index tables, and tables as sequences of versions.
module IndexTables {
  import opened Sorting

  type Path = string
  type Vector = seq<real>

  datatype Row =
    | ChunkRow(path: Path, text: string, vector: Vector)
    | LinkRow(path: Path, kind: string, target: string, normalized: string, to: Path, resolved: bool, details: string)
    | AliasRow(path: Path, alias: string, aliasNormalized: string)

  // A dataset keeps every version; the last one is its contents.
  type Table = t: seq<seq<Row>> | |t| > 0 witness [[]]

  function Rows(t: Table): seq<Row> { t[|t| - 1] }

  function Version(t: Table): nat { |t| - 1 }

  // `DELETE WHERE path = p`.
  function WithoutPath(rows: seq<Row>, p: Path): seq<Row> {
    if rows == [] then []
    else (if rows[0].path == p then [] else [rows[0]]) + WithoutPath(rows[1..], p)
  }

  lemma {:induction false} WithoutPathCount(rows: seq<Row>, p: Path, r: Row)
    ensures multiset(WithoutPath(rows, p))[r] == if r.path == p then 0 else multiset(rows)[r]
  {
    if rows != [] {
      WithoutPathCount(rows[1..], p, r);
      assert rows == [rows[0]] + rows[1..];
    }
  }

  lemma {:induction false} WithoutPathAbsent(rows: seq<Row>, p: Path)
    requires forall r :: r in rows ==> r.path != p
    ensures WithoutPath(rows, p) == rows
  {
    if rows != [] {
      WithoutPathAbsent(rows[1..], p);
    }
  }

  lemma {:induction false} DistinctCount(s: seq<Row>, r: Row)
    requires Distinct(s)
    ensures multiset(s)[r] == if r in s then 1 else 0
  {
    if s != [] {
      DistinctCount(s[1..], r);
      assert s == [s[0]] + s[1..];
    }
  }

  lemma SameRowsSameMultiset(s: seq<Row>, t: seq<Row>)
    requires Distinct(s) && Distinct(t)
    requires forall r :: r in s <==> r in t
    ensures multiset(s) == multiset(t)
  {
    forall r
      ensures multiset(s)[r] == multiset(t)[r]
    {
      DistinctCount(s, r);
      DistinctCount(t, r);
    }
  }
}
