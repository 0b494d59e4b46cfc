/**
 * `Vec::sort` as the diff tool uses it. Rust's `sort` is a stable sort that
 * decides "goes before" with `PartialOrd::lt`; `PackageInfo` leaves `lt` at
 * its default, which asks the hand-written `partial_cmp`, so records are
 * compared by name only and records with equal names keep their order.
 * The stable insertion sort below has exactly that outcome.
 */
module NameSort {
  import opened Text
  import opened Package

  /** No record is `lt` a record before it. */
  ghost predicate SortedByName(s: seq<PackageInfo>)
  {
    forall i, j :: 0 <= i < j < |s| ==> Compare(s[i].name, s[j].name) != Greater
  }

  /** `x` placed after every record of `r` that is not greater than it. */
  function Insert(r: seq<PackageInfo>, x: PackageInfo): (r': seq<PackageInfo>)
    ensures multiset(r') == multiset(r) + multiset{x}
  {
    if r == [] || PartialCmp(x, r[0]) == Less then [x] + r
    else
      assert r == [r[0]] + r[1..];
      [r[0]] + Insert(r[1..], x)
  }

  /** A record not greater than anything in a sorted sequence can go in front of it. */
  lemma SortedCons(y: PackageInfo, t: seq<PackageInfo>)
    requires SortedByName(t)
    requires forall z :: z in t ==> Compare(y.name, z.name) != Greater
    ensures SortedByName([y] + t)
  {
    forall i, j | 0 <= i < j < |[y] + t|
      ensures Compare(([y] + t)[i].name, ([y] + t)[j].name) != Greater
    {
      assert ([y] + t)[j] == t[j - 1];
      if i == 0 {
        assert t[j - 1] in t;
      } else {
        assert ([y] + t)[i] == t[i - 1];
      }
    }
  }

  /** Every record of a sorted sequence is not below its first. */
  lemma SortedHead(r: seq<PackageInfo>, z: PackageInfo)
    requires SortedByName(r) && r != [] && z in r
    ensures Compare(r[0].name, z.name) != Greater
  {
    var j :| 0 <= j < |r| && r[j] == z;
    if j == 0 {
      CompareEqual(z.name, z.name);
    }
  }

  lemma SortedTail(r: seq<PackageInfo>)
    requires SortedByName(r) && r != []
    ensures SortedByName(r[1..])
  {
  }

  /** How `Insert` proceeds past a first record that `x` is not below. */
  lemma InsertPast(r: seq<PackageInfo>, x: PackageInfo)
    requires r != [] && PartialCmp(x, r[0]) != Less
    ensures Insert(r, x) == [r[0]] + Insert(r[1..], x)
  {
  }

  lemma {:induction false} InsertSorted(r: seq<PackageInfo>, x: PackageInfo)
    requires SortedByName(r)
    ensures SortedByName(Insert(r, x))
  {
    if r == [] {
      SortedCons(x, r);
    } else if PartialCmp(x, r[0]) == Less {
      forall z | z in r ensures Compare(x.name, z.name) != Greater {
        SortedHead(r, z);
        CompareTransitive(x.name, r[0].name, z.name);
      }
      SortedCons(x, r);
    } else {
      SortedTail(r);
      InsertSorted(r[1..], x);
      var t := Insert(r[1..], x);
      CompareAntisymmetric(x.name, r[0].name);
      forall z | z in t ensures Compare(r[0].name, z.name) != Greater {
        assert z in multiset(t);
        if z != x {
          assert z in r;
          SortedHead(r, z);
        }
      }
      SortedCons(r[0], t);
      InsertPast(r, x);
    }
  }

  /**
   * The outcome of Rust's stable `sort` under the name-only `lt`: a
   * permutation of the input, non-decreasing by name.
   */
  function SortByName(s: seq<PackageInfo>): (r: seq<PackageInfo>)
    ensures multiset(r) == multiset(s)
    ensures SortedByName(r)
  {
    if s == [] then []
    else
      var rest := SortByName(s[..|s| - 1]);
      InsertSorted(rest, s[|s| - 1]);
      assert s == s[..|s| - 1] + [s[|s| - 1]];
      Insert(rest, s[|s| - 1])
  }

  /** The records of `s` named `n`, in order. */
  function WithName(s: seq<PackageInfo>, n: string): seq<PackageInfo>
  {
    if s == [] then []
    else (if s[0].name == n then [s[0]] else []) + WithName(s[1..], n)
  }

  lemma {:induction false} WithNameAppend(a: seq<PackageInfo>, b: seq<PackageInfo>, n: string)
    ensures WithName(a + b, n) == WithName(a, n) + WithName(b, n)
  {
    if a == [] {
      assert a + b == b;
    } else {
      assert (a + b)[1..] == a[1..] + b;
      WithNameAppend(a[1..], b, n);
    }
  }

  /** A sorted sequence starting above `n` holds nothing named `n`. */
  lemma {:induction false} NoneNamedBelowStart(r: seq<PackageInfo>, n: string)
    requires SortedByName(r) && r != []
    requires Compare(n, r[0].name) == Less
    ensures WithName(r, n) == []
  {
    CompareEqual(n, r[0].name);
    if |r| > 1 {
      CompareLessTransitive(n, r[0].name, r[1].name);
      NoneNamedBelowStart(r[1..], n);
    }
  }

  /** The records named `n` in a one-record sequence. */
  lemma WithNameSingle(x: PackageInfo, n: string)
    ensures WithName([x], n) == if x.name == n then [x] else []
  {
    assert [x][1..] == [];
  }

  /** Inserting `x` puts it after every record of the same name. */
  lemma {:induction false} InsertWithName(r: seq<PackageInfo>, x: PackageInfo, n: string)
    requires SortedByName(r)
    ensures WithName(Insert(r, x), n) == WithName(r, n) + (if x.name == n then [x] else [])
  {
    if r == [] {
      WithNameSingle(x, n);
    } else if PartialCmp(x, r[0]) == Less {
      InsertInFront(r, x, n);
    } else {
      SortedTail(r);
      InsertWithName(r[1..], x, n);
      ConsWithName(r[0], Insert(r[1..], x), r[1..], if x.name == n then [x] else [], n);
      InsertPast(r, x);
      assert [r[0]] + r[1..] == r;
    }
  }

  lemma InsertInFront(r: seq<PackageInfo>, x: PackageInfo, n: string)
    requires SortedByName(r) && r != [] && PartialCmp(x, r[0]) == Less
    ensures WithName([x] + r, n) == WithName(r, n) + (if x.name == n then [x] else [])
  {
    WithNameAppend([x], r, n);
    WithNameSingle(x, n);
    if x.name == n {
      NoneNamedBelowStart(r, n);
    }
  }

  /** A record put in front of two sequences with the same named records keeps them alike. */
  lemma ConsWithName(y: PackageInfo, t: seq<PackageInfo>, rest: seq<PackageInfo>, extra: seq<PackageInfo>, n: string)
    requires WithName(t, n) == WithName(rest, n) + extra
    ensures WithName([y] + t, n) == WithName([y] + rest, n) + extra
  {
    WithNameCons(y, t, n);
    WithNameCons(y, rest, n);
  }

  lemma WithNameCons(x: PackageInfo, s: seq<PackageInfo>, n: string)
    ensures WithName([x] + s, n) == (if x.name == n then [x] else []) + WithName(s, n)
  {
    assert ([x] + s)[1..] == s;
  }

  /** Stability: for every name, the records with that name keep their input order. */
  lemma {:induction false} SortByNameStable(s: seq<PackageInfo>, n: string)
    ensures WithName(SortByName(s), n) == WithName(s, n)
  {
    if s != [] {
      var init, x := s[..|s| - 1], s[|s| - 1];
      var mine := if x.name == n then [x] else [];
      assert s == init + [x];
      calc {
        WithName(SortByName(s), n);
        WithName(Insert(SortByName(init), x), n);
        { InsertWithName(SortByName(init), x, n); }
        WithName(SortByName(init), n) + mine;
        { SortByNameStable(init, n); }
        WithName(init, n) + mine;
        { WithNameSingle(x, n); }
        WithName(init, n) + WithName([x], n);
        { WithNameAppend(init, [x], n); }
        WithName(s, n);
      }
    }
  }

  /** Dropping records from a sorted sequence keeps it sorted. */
  lemma {:induction false} SortedSubsequence(s: seq<PackageInfo>, keep: PackageInfo -> bool)
    requires SortedByName(s)
    ensures SortedByName(Seqs.Filter(s, keep))
  {
    if s != [] {
      SortedSubsequence(s[1..], keep);
      var t := Seqs.Filter(s[1..], keep);
      if keep(s[0]) {
        forall i, j | 0 <= i < j < |[s[0]] + t|
          ensures Compare(([s[0]] + t)[i].name, ([s[0]] + t)[j].name) != Greater
        {
          assert ([s[0]] + t)[j] == t[j - 1] && t[j - 1] in t;
          if i > 0 {
            assert ([s[0]] + t)[i] == t[i - 1];
          }
        }
      }
    }
  }
}
