/**
 * What the printed report promises, for every iteration order the two hash
 * sets may have: which records each mode prints, in which order, under
 * which filter, with which header and in which column.
 */
module DiffProperties {
  import opened Seqs
  import opened Text
  import opened Package
  import opened NameSort
  import opened Columns
  import opened EnvDiff

  /**
   * The report is the header, exactly when `--format` is given and in every
   * mode, followed by one line per printed record.
   */
  lemma ReportLayout(flags: Flags, firstEnv: string, firstDiff: seq<PackageInfo>, secondDiff: seq<PackageInfo>)
    ensures var r := Report(flags, firstEnv, firstDiff, secondDiff);
      var rows := Printed(Selected(flags, firstDiff, secondDiff), flags.pipOnly);
      var h := if flags.format then 1 else 0;
      && |r| == h + |rows|
      && (|r| > 0 && r[0] == Header() <==> flags.format)
      && forall k :: 0 <= k < |rows| ==> r[h + k] == RenderRow(rows[k], UsesColumns(flags), firstEnv)
  {
    var r := Report(flags, firstEnv, firstDiff, secondDiff);
    var rows := Printed(Selected(flags, firstDiff, secondDiff), flags.pipOnly);
    var h := if flags.format then 1 else 0;
    forall k | 0 <= k < |rows| ensures r[h + k] == RenderRow(rows[k], UsesColumns(flags), firstEnv) {
      RenderAt(rows, UsesColumns(flags), firstEnv, k);
    }
    HeaderColumns();
    if !flags.format && |rows| > 0 {
      RenderAt(rows, false, firstEnv, 0);
      assert r[0] == Display(rows[0]);
      assert Display(rows[0])[0] == '(';
    }
  }

  /**
   * `--first-only` prints the records of the first set whose package the
   * second set lacks, each once, sorted by name, as free text; it takes
   * precedence over `--second-only`.
   */
  lemma FirstOnlyMode(flags: Flags, firstEnv: string, firstOrder: seq<PackageInfo>, secondDiff: seq<PackageInfo>,
                      firstSet: set<PackageInfo>, secondSet: set<PackageInfo>)
    requires flags.firstOnly
    requires multiset(firstOrder) == multiset(firstSet)
    ensures var rows := Selected(flags, Difference(firstOrder, secondSet), secondDiff);
      && multiset(rows) == multiset(DiffSet(firstSet, secondSet))
      && SortedByName(rows)
      && !UsesColumns(flags)
    ensures Report(flags, firstEnv, Difference(firstOrder, secondSet), secondDiff)
         == Report(flags.(secondOnly := !flags.secondOnly), firstEnv, Difference(firstOrder, secondSet), secondDiff)
  {
    DifferenceEnumerates(firstOrder, firstSet, secondSet);
  }

  /** `--second-only` alone is the mirror image of `--first-only`. */
  lemma SecondOnlyMode(flags: Flags, firstDiff: seq<PackageInfo>, secondOrder: seq<PackageInfo>,
                       firstSet: set<PackageInfo>, secondSet: set<PackageInfo>)
    requires !flags.firstOnly && flags.secondOnly
    requires multiset(secondOrder) == multiset(secondSet)
    ensures var rows := Selected(flags, firstDiff, Difference(secondOrder, firstSet));
      && multiset(rows) == multiset(DiffSet(secondSet, firstSet))
      && SortedByName(rows)
      && !UsesColumns(flags)
  {
    DifferenceEnumerates(secondOrder, secondSet, firstSet);
  }

  /**
   * The default mode prints both differences, each record once, sorted by
   * name: as many rows as the two differences have records together.
   */
  lemma TwoWayMode(flags: Flags, firstOrder: seq<PackageInfo>, secondOrder: seq<PackageInfo>,
                   firstSet: set<PackageInfo>, secondSet: set<PackageInfo>)
    requires !flags.firstOnly && !flags.secondOnly
    requires multiset(firstOrder) == multiset(firstSet)
    requires multiset(secondOrder) == multiset(secondSet)
    ensures var rows := Selected(flags, Difference(firstOrder, secondSet), Difference(secondOrder, firstSet));
      && multiset(rows) == multiset(DiffSet(firstSet, secondSet)) + multiset(DiffSet(secondSet, firstSet))
      && |rows| == |DiffSet(firstSet, secondSet)| + |DiffSet(secondSet, firstSet)|
      && SortedByName(rows)
  {
    var d1, d2 := Difference(firstOrder, secondSet), Difference(secondOrder, firstSet);
    DifferenceEnumerates(firstOrder, firstSet, secondSet);
    DifferenceEnumerates(secondOrder, secondSet, firstSet);
    assert multiset(d1 + d2) == multiset(d1) + multiset(d2);
    assert |multiset(d1 + d2)| == |d1 + d2|;
  }

  /**
   * In the default mode the sort is stable on one concatenation: among rows
   * of the same name, those of the first difference come first, each side
   * in its set's iteration order.
   */
  lemma TwoWayTies(flags: Flags, firstDiff: seq<PackageInfo>, secondDiff: seq<PackageInfo>, name: string)
    requires !flags.firstOnly && !flags.secondOnly
    ensures WithName(Selected(flags, firstDiff, secondDiff), name) == WithName(firstDiff, name) + WithName(secondDiff, name)
  {
    SortByNameStable(firstDiff + secondDiff, name);
    WithNameAppend(firstDiff, secondDiff, name);
  }

  /**
   * Printed rows are sorted by name in every mode; with `--pip-only` they are
   * exactly the `pypi` records among the unfiltered rows, as often as there.
   */
  lemma PrintedRows(flags: Flags, firstDiff: seq<PackageInfo>, secondDiff: seq<PackageInfo>, p: PackageInfo)
    ensures SortedByName(Printed(Selected(flags, firstDiff, secondDiff), flags.pipOnly))
    ensures flags.pipOnly ==>
      multiset(Printed(Selected(flags, firstDiff, secondDiff), true))[p]
        == if p.channel == PypiChannel then multiset(Selected(flags, firstDiff, secondDiff))[p] else 0
  {
    var rows := Selected(flags, firstDiff, secondDiff);
    SortedSubsequence(rows, IsPypi);
    FilterCount(rows, IsPypi, p);
  }

  /** A listing compared with itself has no differences, whatever the two environments are called. */
  lemma SameListingNoDifference(lines: seq<string>, env1: string, env2: string)
    ensures DiffSet(ListingSet(lines, env1), ListingSet(lines, env2)) == {}
  {
    var s1, s2 := ListingSet(lines, env1), ListingSet(lines, env2);
    forall p | p in s1 ensures Contains(s2, p) {
      var line :| line in lines && !IsComment(line) && Parse(line, env1).Ok? && Parse(line, env1).value == p;
      ParseRetagged(line, env1, env2);
      SamePackageIsEquivalence(p, Parse(line, env2).value, p);
      assert Parse(line, env2).value in s2;
    }
  }

  /** Two identical listings print no rows in any mode: at most the header. */
  lemma IdenticalListingsPrintNoRows(flags: Flags, lines: seq<string>, env1: string, env2: string,
                                     firstOrder: seq<PackageInfo>, secondOrder: seq<PackageInfo>)
    requires multiset(firstOrder) == multiset(ListingSet(lines, env1))
    requires multiset(secondOrder) == multiset(ListingSet(lines, env2))
    ensures Report(flags, env1, Difference(firstOrder, ListingSet(lines, env2)), Difference(secondOrder, ListingSet(lines, env1)))
         == (if flags.format then [Header()] else [])
  {
    var s1, s2 := ListingSet(lines, env1), ListingSet(lines, env2);
    SameListingNoDifference(lines, env1, env2);
    SameListingNoDifference(lines, env2, env1);
    DifferenceEnumerates(firstOrder, s1, s2);
    DifferenceEnumerates(secondOrder, s2, s1);
    assert Difference(firstOrder, s2) == [] && Difference(secondOrder, s1) == [];
    assert Selected(flags, [], []) == [];
  }

  /**
   * In the default mode with columns, a row lands in the first-env column
   * exactly when it comes from the first difference, provided the two
   * environments have different names.
   */
  lemma FirstColumnIffFirstSide(flags: Flags, lines1: seq<string>, lines2: seq<string>, env1: string, env2: string,
                                firstOrder: seq<PackageInfo>, secondOrder: seq<PackageInfo>, p: PackageInfo)
    requires env1 != env2
    requires !flags.firstOnly && !flags.secondOnly
    requires multiset(firstOrder) == multiset(ListingSet(lines1, env1))
    requires multiset(secondOrder) == multiset(ListingSet(lines2, env2))
    requires p in Selected(flags, Difference(firstOrder, ListingSet(lines2, env2)), Difference(secondOrder, ListingSet(lines1, env1)))
    ensures p.envName == env1 <==> p in DiffSet(ListingSet(lines1, env1), ListingSet(lines2, env2))
  {
    var s1, s2 := ListingSet(lines1, env1), ListingSet(lines2, env2);
    TwoWayMode(flags, firstOrder, secondOrder, s1, s2);
    var rows := Selected(flags, Difference(firstOrder, s2), Difference(secondOrder, s1));
    assert p in multiset(rows);
    ListingSetContents(lines1, env1);
    ListingSetContents(lines2, env2);
  }

  /**
   * Naming the environments in the other order prints the same records in
   * the default mode; only their column placement changes.
   */
  lemma SwappedEnvironmentsSameRecords(flags: Flags, firstSet: set<PackageInfo>, secondSet: set<PackageInfo>,
                                       firstOrder: seq<PackageInfo>, secondOrder: seq<PackageInfo>,
                                       firstOrder': seq<PackageInfo>, secondOrder': seq<PackageInfo>)
    requires !flags.firstOnly && !flags.secondOnly
    requires multiset(firstOrder) == multiset(firstSet) && multiset(firstOrder') == multiset(firstSet)
    requires multiset(secondOrder) == multiset(secondSet) && multiset(secondOrder') == multiset(secondSet)
    ensures multiset(Selected(flags, Difference(firstOrder, secondSet), Difference(secondOrder, firstSet)))
         == multiset(Selected(flags, Difference(secondOrder', firstSet), Difference(firstOrder', secondSet)))
  {
    TwoWayMode(flags, firstOrder, secondOrder, firstSet, secondSet);
    TwoWayMode(flags, secondOrder', firstOrder', secondSet, firstSet);
  }

  /**
   * A `conda list` that fails (a misspelt environment, say) still hands back
   * its standard output, typically empty. That listing reads as an empty
   * package set, so every package of the other environment is a difference
   * and none of the failed one is.
   */
  lemma EmptyListingDiffersInEverything(separator: string, lines: seq<string>, env1: string, env2: string)
    requires separator != []
    ensures ListingSet(Split("", separator), env2) == {}
    ensures DiffSet(ListingSet(lines, env1), ListingSet(Split("", separator), env2)) == ListingSet(lines, env1)
    ensures DiffSet(ListingSet(Split("", separator), env2), ListingSet(lines, env1)) == {}
  {
    assert Split("", separator) == [""];
    assert Split("", " ") == [""];
    assert Tokens("") == [];
    assert !Parse("", env2).Ok?;
  }

  // ---------------------------------------------------------------------
  // The difference the Rust hash set actually computes
  // ---------------------------------------------------------------------

  /** The fields `Hash::hash` feeds to the hasher: all five, the environment tag included. */
  function HashedFields(p: PackageInfo): seq<string>
  {
    [p.name, p.version, p.build, p.channel, p.envName]
  }

  /**
   * `HashSet::contains` as written: a stored record is compared with `eq`
   * only when its hash matches, modelled with a hash that has no collisions.
   */
  predicate ContainsByHash(s: set<PackageInfo>, p: PackageInfo)
  {
    exists q :: q in s && HashedFields(q) == HashedFields(p) && SamePackage(q, p)
  }

  /** `HashSet::difference` as written, under the same collision-free hash. */
  function DiffSetByHash(a: set<PackageInfo>, b: set<PackageInfo>): set<PackageInfo>
  {
    set p | p in a && !ContainsByHash(b, p)
  }

  /**
   * The same package line in two differently named environments: the
   * hash-based difference reports it, the `eq`-based one does not.
   */
  lemma HashedDiffReportsSharedPackage(line: string, env1: string, env2: string)
    requires env1 != env2 && !IsComment(line) && Parse(line, env1).Ok?
    ensures var s1, s2 := ListingSet([line], env1), ListingSet([line], env2);
      && s1 == {Parse(line, env1).value}
      && DiffSetByHash(s1, s2) == s1
      && DiffSet(s1, s2) == {}
  {
    var s1, s2 := ListingSet([line], env1), ListingSet([line], env2);
    var p1 := Parse(line, env1).value;
    ParseRetagged(line, env1, env2);
    assert s1 == {p1};
    assert s2 == {Parse(line, env2).value};
    assert HashedFields(Parse(line, env2).value)[4] != HashedFields(p1)[4];
    assert !ContainsByHash(s2, p1);
    SameListingNoDifference([line], env1, env2);
  }
}
