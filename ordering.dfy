/**
 * The order in which pandas' groupby returns its groups: keys ascending. Strings
 * compare code point by code point, as Python's `<` does; cells of different kinds
 * are ranked numbers, days, timestamps, strings.
 */
module Ordering {
  import opened Calendar
  import opened Frames

  /** Python's `a < b` on strings: lexicographic on code points. */
  predicate StrLess(a: string, b: string)
  {
    b != [] && (a == [] || a[0] < b[0] || (a[0] == b[0] && StrLess(a[1..], b[1..])))
  }

  lemma {:induction false} StrLessIrreflexive(a: string)
    ensures !StrLess(a, a)
  {
    if a != [] {
      StrLessIrreflexive(a[1..]);
    }
  }

  lemma {:induction false} StrLessTransitive(a: string, b: string, c: string)
    requires StrLess(a, b) && StrLess(b, c)
    ensures StrLess(a, c)
  {
    if a != [] && a[0] == b[0] && b[0] == c[0] {
      StrLessTransitive(a[1..], b[1..], c[1..]);
    }
  }

  lemma {:induction false} StrLessTotal(a: string, b: string)
    requires a != b
    ensures StrLess(a, b) || StrLess(b, a)
  {
    if a != [] && b != [] && a[0] == b[0] {
      assert a == [a[0]] + a[1..] && b == [b[0]] + b[1..];
      StrLessTotal(a[1..], b[1..]);
    }
  }

  function Rank(v: Value): int
  {
    match v
    case Num(_) => 0
    case Day(_) => 1
    case Stamp(_) => 2
    case Str(_) => 3
  }

  predicate ValueLess(a: Value, b: Value)
  {
    Rank(a) < Rank(b)
    || (match (a, b)
        case (Num(x), Num(y)) => x < y
        case (Day(m), Day(n)) => m < n
        case (Stamp(s), Stamp(t)) => s.day < t.day || (s.day == t.day && s.second < t.second)
        case (Str(s), Str(t)) => StrLess(s, t)
        case _ => false)
  }

  lemma ValueLessIrreflexive(a: Value)
    ensures !ValueLess(a, a)
  {
    if a.Str? {
      StrLessIrreflexive(a.s);
    }
  }

  lemma ValueLessTransitive(a: Value, b: Value, c: Value)
    requires ValueLess(a, b) && ValueLess(b, c)
    ensures ValueLess(a, c)
  {
    if a.Str? && b.Str? && c.Str? {
      StrLessTransitive(a.s, b.s, c.s);
    }
  }

  lemma ValueLessTotal(a: Value, b: Value)
    requires a != b
    ensures ValueLess(a, b) || ValueLess(b, a)
  {
    if a.Str? && b.Str? {
      StrLessTotal(a.s, b.s);
    }
  }

  /** A groupby key: (end date, pollutant, zone). */
  datatype Key = Key(end: Value, pollutant: Value, zone: Value)

  /** Keys ordered lexicographically, as pandas sorts a multi-column groupby. */
  predicate KeyLess(k: Key, l: Key)
  {
    ValueLess(k.end, l.end)
    || (k.end == l.end && ValueLess(k.pollutant, l.pollutant))
    || (k.end == l.end && k.pollutant == l.pollutant && ValueLess(k.zone, l.zone))
  }

  lemma KeyLessIrreflexive(k: Key)
    ensures !KeyLess(k, k)
  {
    ValueLessIrreflexive(k.end);
    ValueLessIrreflexive(k.pollutant);
    ValueLessIrreflexive(k.zone);
  }

  lemma KeyLessTransitive(k: Key, l: Key, m: Key)
    requires KeyLess(k, l) && KeyLess(l, m)
    ensures KeyLess(k, m)
  {
    forall a, b, c | ValueLess(a, b) && ValueLess(b, c) ensures ValueLess(a, c) {
      ValueLessTransitive(a, b, c);
    }
  }

  lemma KeyLessTotal(k: Key, l: Key)
    requires k != l
    ensures KeyLess(k, l) || KeyLess(l, k)
  {
    if k.end != l.end {
      ValueLessTotal(k.end, l.end);
    } else if k.pollutant != l.pollutant {
      ValueLessTotal(k.pollutant, l.pollutant);
    } else {
      ValueLessTotal(k.zone, l.zone);
    }
  }

  predicate StrictlySorted(ks: seq<Key>)
  {
    forall i, j :: 0 <= i < j < |ks| ==> KeyLess(ks[i], ks[j])
  }

  /** Strictly sorted keys are pairwise distinct. */
  lemma SortedDistinct(ks: seq<Key>)
    requires StrictlySorted(ks)
    ensures Distinct(ks)
  {
    forall i, j | 0 <= i < j < |ks| ensures ks[i] != ks[j] {
      KeyLessIrreflexive(ks[i]);
    }
  }

  /** Insert a key into a strictly sorted list unless it is already there. */
  function Insert(k: Key, ks: seq<Key>): (r: seq<Key>)
    requires StrictlySorted(ks)
    ensures StrictlySorted(r)
    ensures forall x :: x in r <==> x in ks || x == k
  {
    if ks == [] then [k]
    else if k == ks[0] then ks
    else if KeyLess(k, ks[0]) then
      assert forall j :: 0 < j < |ks| ==> KeyLess(k, ks[j]) by {
        forall j | 0 < j < |ks| ensures KeyLess(k, ks[j]) {
          KeyLessTransitive(k, ks[0], ks[j]);
        }
      }
      [k] + ks
    else
      KeyLessTotal(k, ks[0]);
      var tail := Insert(k, ks[1..]);
      assert forall x :: x in ks <==> x == ks[0] || x in ks[1..];
      assert forall j :: 0 <= j < |tail| ==> KeyLess(ks[0], tail[j]) by {
        forall j | 0 <= j < |tail| ensures KeyLess(ks[0], tail[j]) {
          assert tail[j] in tail;
          if tail[j] != k {
            assert tail[j] in ks[1..];
            var i :| 0 <= i < |ks[1..]| && ks[1..][i] == tail[j];
            assert ks[i + 1] == tail[j];
          }
        }
      }
      [ks[0]] + tail
  }
}
