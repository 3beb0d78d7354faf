/**
 * Data frames as values: a row maps column names to cells, a cell is a value or
 * missing (NaN), and a table is its column list and its rows in order.
 */
module Frames {
  import opened Wrappers
  import opened Calendar

  /** What a cell can hold: a number, a calendar day (a `date`), a timestamp, or a string. */
  datatype Value = Num(x: real) | Day(n: int) | Stamp(at: Instant) | Str(s: string)

  /** A cell; None is pandas' NaN. */
  type Cell = Option<Value>

  type Row = map<string, Cell>

  datatype Table = Table(columns: seq<string>, rows: seq<Row>)

  predicate Distinct<T(==)>(s: seq<T>)
  {
    forall i, j :: 0 <= i < j < |s| ==> s[i] != s[j]
  }

  /** The columns are distinct and every row has a cell for exactly those columns. */
  predicate WellFormed(t: Table)
  {
    Distinct(t.columns) && forall r :: r in t.rows ==> r.Keys == set c | c in t.columns
  }

  /** The cell of column `c`; a column the row lacks reads as missing. */
  function Get(r: Row, c: string): Cell
  {
    if c in r then r[c] else None
  }

  /** The row restricted or widened to `columns`, missing where it has no cell. */
  function Widen(r: Row, columns: seq<string>): (w: Row)
    ensures w.Keys == set c | c in columns
    ensures forall c :: c in columns ==> w[c] == Get(r, c)
  {
    map c | c in columns :: Get(r, c)
  }

  /** The columns of `a`, then those of `b` that `a` lacks, in order of appearance. */
  function UnionColumns(a: seq<string>, b: seq<string>): (u: seq<string>)
    ensures |a| <= |u| && u[..|a|] == a
    ensures forall c :: c in u <==> c in a || c in b
    ensures Distinct(a) && Distinct(b) ==> Distinct(u)
    decreases |b|
  {
    if b == [] then a
    else
      var u := UnionColumns(a, b[..|b| - 1]);
      var c := b[|b| - 1];
      assert forall x :: x in b <==> x in b[..|b| - 1] || x == c;
      if c in u then u else u + [c]
  }

  /** The columns of all frames, in order of first appearance. */
  function AllColumns(frames: seq<Table>): (u: seq<string>)
    ensures forall c :: c in u <==> exists i :: 0 <= i < |frames| && c in frames[i].columns
  {
    if frames == [] then []
    else UnionColumns(AllColumns(frames[..|frames| - 1]), frames[|frames| - 1].columns)
  }

  /** The rows of all frames, frame after frame. */
  function AllRows(frames: seq<Table>): (rows: seq<Row>)
  {
    if frames == [] then [] else AllRows(frames[..|frames| - 1]) + frames[|frames| - 1].rows
  }

  /**
   * `pd.concat(frames)`: the rows of every frame in order, each widened to the union
   * of the columns, missing where its own frame had no such column.
   */
  function Concat(frames: seq<Table>): (t: Table)
    ensures t.columns == AllColumns(frames)
    ensures |t.rows| == |AllRows(frames)|
    ensures forall i :: 0 <= i < |t.rows| ==> t.rows[i] == Widen(AllRows(frames)[i], t.columns)
  {
    var columns := AllColumns(frames);
    var rows := AllRows(frames);
    Table(columns, seq(|rows|, i requires 0 <= i < |rows| => Widen(rows[i], columns)))
  }

  /** Every row of every frame is among the concatenated rows, in frame order. */
  lemma {:induction false} AllRowsOfFrames(frames: seq<Table>, k: nat)
    requires k < |frames|
    ensures |AllRows(frames[..k])| + |frames[k].rows| <= |AllRows(frames)|
    ensures AllRows(frames)[|AllRows(frames[..k])|..][..|frames[k].rows|] == frames[k].rows
  {
    var n := |frames| - 1;
    assert frames[..n + 1] == frames;
    if k < n {
      AllRowsOfFrames(frames[..n], k);
      assert frames[..n][..k] == frames[..k];
      assert AllRows(frames) == AllRows(frames[..n]) + frames[n].rows;
    } else {
      assert AllRows(frames) == AllRows(frames[..k]) + frames[k].rows;
    }
  }

  /** The position of the first occurrence of `x`. */
  function IndexOf<T(==)>(s: seq<T>, x: T): (i: nat)
    requires x in s
    ensures i < |s| && s[i] == x && x !in s[..i]
  {
    if s[0] == x then 0
    else
      assert s == [s[0]] + s[1..];
      var j := IndexOf(s[1..], x);
      assert s[..j + 1] == [s[0]] + s[1..][..j];
      j + 1
  }

  /** A position holding `x` with no `x` before it is the first occurrence. */
  lemma IndexOfIsFirst<T>(s: seq<T>, x: T, i: nat)
    requires i < |s| && s[i] == x && x !in s[..i]
    ensures IndexOf(s, x) == i
  {
  }

  /** The elements of `s` that satisfy `keep`, in their order and as often as they occur. */
  function Filter<T(==,!new)>(s: seq<T>, keep: T -> bool): (r: seq<T>)
    ensures forall x :: x in r <==> x in s && keep(x)
    ensures |r| <= |s|
  {
    if s == [] then []
    else
      assert forall x :: x in s <==> x == s[0] || x in s[1..];
      (if keep(s[0]) then [s[0]] else []) + Filter(s[1..], keep)
  }

  /** Filtering distributes over concatenation, so the kept elements stay in their order. */
  lemma {:induction false} FilterAppend<T(!new)>(a: seq<T>, b: seq<T>, keep: T -> bool)
    ensures Filter(a + b, keep) == Filter(a, keep) + Filter(b, keep)
  {
    if a == [] {
      assert a + b == b;
    } else {
      assert (a + b)[0] == a[0];
      assert (a + b)[1..] == a[1..] + b;
      FilterAppend(a[1..], b, keep);
    }
  }

  /** Filtering keeps each kept element as many times as it occurs, and no other. */
  lemma {:induction false} FilterCount<T(!new)>(s: seq<T>, keep: T -> bool)
    ensures forall x :: multiset(Filter(s, keep))[x] == if keep(x) then multiset(s)[x] else 0
  {
    if s != [] {
      FilterCount(s[1..], keep);
      assert s == [s[0]] + s[1..];
      assert multiset(s) == multiset{s[0]} + multiset(s[1..]);
    }
  }

  /** The values `f` gives for the elements of `s`, in order, skipping those it gives none for. */
  function FilterMap<T, U(!new)>(s: seq<T>, f: T -> Option<U>): (r: seq<U>)
    ensures forall y :: y in r <==> exists j :: 0 <= j < |s| && f(s[j]) == Some(y)
  {
    if s == [] then []
    else
      var rest := FilterMap(s[1..], f);
      assert forall y, j :: 0 < j < |s| && f(s[j]) == Some(y) ==> y in rest by {
        forall y, j | 0 < j < |s| && f(s[j]) == Some(y)
          ensures y in rest
        {
          assert s[1..][j - 1] == s[j];
        }
      }
      (if f(s[0]).Some? then [f(s[0]).value] else []) + rest
  }

  /** FilterMap of a non-empty sequence: the first element's value, if any, then the rest's. */
  lemma FilterMapFront<T, U(!new)>(s: seq<T>, f: T -> Option<U>) returns (h: seq<U>)
    requires s != []
    ensures h == if f(s[0]).Some? then [f(s[0]).value] else []
    ensures FilterMap(s, f) == h + FilterMap(s[1..], f)
  {
    h := if f(s[0]).Some? then [f(s[0]).value] else [];
  }

  /**
   * The first kept value is the value of the first element whose value is kept: no
   * earlier element has a value `keep` accepts.
   */
  lemma {:induction false} FirstKept<T, U(!new)>(s: seq<T>, f: T -> Option<U>, keep: U -> bool) returns (j: nat)
    requires Filter(FilterMap(s, f), keep) != []
    ensures j < |s| && f(s[j]).Some? && keep(f(s[j]).value)
    ensures Filter(FilterMap(s, f), keep)[0] == f(s[j]).value
    ensures forall i :: 0 <= i < j ==> f(s[i]).None? || !keep(f(s[i]).value)
  {
    assert s != [];
    var h := FilterMapFront(s, f);
    FilterAppend(h, FilterMap(s[1..], f), keep);
    if f(s[0]).Some? && keep(f(s[0]).value) {
      assert h[1..] == [];
      j := 0;
    } else {
      assert Filter(h, keep) == [] by {
        if h != [] {
          assert h[1..] == [];
        }
      }
      var j' := FirstKept(s[1..], f, keep);
      j := j' + 1;
      forall i | 1 <= i < j
        ensures f(s[i]).None? || !keep(f(s[i]).value)
      {
        assert s[i] == s[1..][i - 1];
      }
    }
  }

  /** `drop_duplicates()`: the first occurrence of each element, in order. */
  function Dedup<T(==,!new)>(s: seq<T>): (r: seq<T>)
    ensures Distinct(r)
    ensures forall x :: x in r <==> x in s
    ensures |r| <= |s|
  {
    if s == [] then []
    else
      var p := Dedup(s[..|s| - 1]);
      if s[|s| - 1] in p then p else p + [s[|s| - 1]]
  }

  /** The de-duplicated elements come in the order of their first occurrences. */
  lemma {:induction false} DedupFirstOccurrences<T(!new)>(s: seq<T>)
    ensures forall i, j :: 0 <= i < j < |Dedup(s)| ==> IndexOf(s, Dedup(s)[i]) < IndexOf(s, Dedup(s)[j])
  {
    if s != [] {
      var n := |s| - 1;
      var q := s[..n];
      DedupFirstOccurrences(q);
      forall y | y in q
        ensures IndexOf(s, y) == IndexOf(q, y)
      {
        var k := IndexOf(q, y);
        assert s[..k] == q[..k];
        IndexOfIsFirst(s, y, k);
      }
      if s[n] !in Dedup(q) {
        assert s[n] !in s[..n];
        IndexOfIsFirst(s, s[n], n);
      }
    }
  }

  /** De-duplicating a longer sequence keeps the de-duplicated prefix in front. */
  lemma {:induction false} DedupKeepsPrefix<T(!new)>(a: seq<T>, b: seq<T>)
    ensures |Dedup(a)| <= |Dedup(a + b)|
    ensures Dedup(a + b)[..|Dedup(a)|] == Dedup(a)
    decreases |b|
  {
    if b == [] {
      assert a + b == a;
    } else {
      var n := |b| - 1;
      assert (a + b)[..|a + b| - 1] == a + b[..n];
      DedupKeepsPrefix(a, b[..n]);
    }
  }

  /** De-duplicating a sequence that starts without repetitions keeps that start as it is. */
  lemma DedupKeepsDistinctPrefix<T(!new)>(a: seq<T>, b: seq<T>)
    requires Distinct(a)
    ensures |a| <= |Dedup(a + b)| && Dedup(a + b)[..|a|] == a
  {
    DedupKeepsPrefix(a, b);
    DedupOfDistinct(a);
  }

  /** A sequence without repetitions is its own de-duplication. */
  lemma {:induction false} DedupOfDistinct<T(!new)>(s: seq<T>)
    requires Distinct(s)
    ensures Dedup(s) == s
  {
    if s != [] {
      var n := |s| - 1;
      DedupOfDistinct(s[..n]);
      assert s[..n] + [s[n]] == s;
    }
  }

  /** Appending elements already present does not change the de-duplication of a sequence without repetitions. */
  lemma {:induction false} DedupAbsorbs<T(!new)>(a: seq<T>, b: seq<T>)
    requires Distinct(a)
    requires forall x :: x in b ==> x in a
    ensures Dedup(a + b) == a
    decreases |b|
  {
    if b == [] {
      assert a + b == a;
      DedupOfDistinct(a);
    } else {
      var n := |b| - 1;
      assert (a + b)[..|a + b| - 1] == a + b[..n];
      assert b[n] in b;
      DedupAbsorbs(a, b[..n]);
    }
  }

  /** The union with columns already present adds nothing. */
  lemma {:induction false} UnionColumnsAbsorbs(a: seq<string>, b: seq<string>)
    requires forall c :: c in b ==> c in a
    ensures UnionColumns(a, b) == a
    decreases |b|
  {
    if b != [] {
      assert b[|b| - 1] in b;
      UnionColumnsAbsorbs(a, b[..|b| - 1]);
    }
  }

  /** The union of no columns with distinct columns is those columns, in their order. */
  lemma {:induction false} UnionColumnsOfNone(b: seq<string>)
    requires Distinct(b)
    ensures UnionColumns([], b) == b
    decreases |b|
  {
    if b != [] {
      var n := |b| - 1;
      UnionColumnsOfNone(b[..n]);
      assert b[..n] + [b[n]] == b;
    }
  }

  /** Widening a row to columns that already hold all its cells, then to more columns, is widening it once. */
  lemma WidenTwice(r: Row, a: seq<string>, b: seq<string>)
    requires forall c :: c in r ==> c in a
    requires forall c :: c in a ==> c in b
    ensures Widen(Widen(r, a), b) == Widen(r, b)
  {
  }
}
