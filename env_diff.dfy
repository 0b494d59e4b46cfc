/**
 * The body of the env_diff tool: read two environment listings into package
 * sets, take the two set differences, and print them in one of three modes,
 * as free text or in fixed-width columns.
 *
 * Set membership is decided by `SamePackage` (Rust's `eq`). The Rust
 * `HashSet` also hashes the environment tag, which `eq` ignores; within one
 * set every record carries the same tag, so there hash and `eq` agree, but
 * across the two sets they do not (see `DiffSetByHash`).
 */
module EnvDiff {
  import opened Wrappers
  import opened Seqs
  import opened Text
  import opened Package
  import opened NameSort
  import opened Columns

  /** The command-line switches `--pip-only`, `--first-only`, `--second-only` and `--format`. */
  datatype Flags = Flags(pipOnly: bool, firstOnly: bool, secondOnly: bool, format: bool)

  const WrongEnvCount: string := "Error: wrong env list length"

  /** The only channel `--pip-only` lets through. */
  const PypiChannel: string := "pypi"

  /** Listing lines starting with `#` are headers and comments. */
  predicate IsComment(line: string)
  {
    |line| > 0 && line[0] == '#'
  }

  // ---------------------------------------------------------------------
  // Reading a listing into a package set
  // ---------------------------------------------------------------------

  /** The package set of one environment: the records of its non-comment lines that parse. */
  function ListingSet(lines: seq<string>, envName: string): set<PackageInfo>
  {
    set line | line in lines && !IsComment(line) && Parse(line, envName).Ok? :: Parse(line, envName).value
  }

  /**
   * What a package set holds: exactly the records of its parsable
   * non-comment lines, all tagged with the environment, and no two of them
   * the same package.
   */
  lemma ListingSetContents(lines: seq<string>, envName: string)
    ensures forall line :: line in lines && !IsComment(line) && Parse(line, envName).Ok? ==>
      Parse(line, envName).value in ListingSet(lines, envName)
    ensures forall p :: p in ListingSet(lines, envName) ==> p.envName == envName && WellFormed(p)
    ensures forall p, q :: p in ListingSet(lines, envName) && q in ListingSet(lines, envName) && SamePackage(p, q) ==> p == q
  {
  }

  /** A line that repeats the package of an earlier line, however spaced, adds nothing. */
  lemma RepeatedPackageCollapses(lines: seq<string>, earlier: string, line: string, envName: string)
    requires earlier in lines && !IsComment(earlier) && Parse(earlier, envName).Ok?
    requires Parse(line, envName).Ok? && SamePackage(Parse(line, envName).value, Parse(earlier, envName).value)
    ensures ListingSet(lines + [line], envName) == ListingSet(lines, envName)
  {
    var s := ListingSet(lines + [line], envName);
    forall p | p in s ensures p in ListingSet(lines, envName) {
      var l :| l in lines + [line] && !IsComment(l) && Parse(l, envName).Ok? && Parse(l, envName).value == p;
      if l !in lines {
        assert Parse(line, envName).value == Parse(earlier, envName).value;
      }
    }
  }

  /** Reading one more line adds at most its record. */
  lemma ListingSetSnoc(lines: seq<string>, line: string, envName: string)
    ensures ListingSet(lines + [line], envName)
         == ListingSet(lines, envName)
            + (if !IsComment(line) && Parse(line, envName).Ok? then {Parse(line, envName).value} else {})
  {
  }

  /** The reading loop of `main` for one environment: skip comments, keep what parses. */
  method BuildSet(text: string, separator: string, envName: string) returns (packages: set<PackageInfo>)
    requires separator != []
    ensures packages == ListingSet(Split(text, separator), envName)
  {
    var lines := Split(text, separator);
    packages := {};
    for i := 0 to |lines|
      invariant packages == ListingSet(lines[..i], envName)
    {
      var line := lines[i];
      assert lines[..i + 1] == lines[..i] + [line];
      ListingSetSnoc(lines[..i], line, envName);
      if IsComment(line) {
        continue;
      }
      var parsed := Parse(line, envName);
      if parsed.Ok? {
        packages := packages + {parsed.value};
      }
    }
    assert lines[..|lines|] == lines;
  }

  /**
   * The order in which a `HashSet` yields its elements: every element once,
   * in an order the program does not control.
   */
  method IterationOrder(s: set<PackageInfo>) returns (order: seq<PackageInfo>)
    ensures multiset(order) == multiset(s)
  {
    order := [];
    var rest := s;
    while rest != {}
      invariant rest <= s
      invariant multiset(order) + multiset(rest) == multiset(s)
      decreases |rest|
    {
      var p :| p in rest;
      assert multiset(rest) == multiset(rest - {p}) + multiset{p};
      order := order + [p];
      rest := rest - {p};
    }
  }

  // ---------------------------------------------------------------------
  // Set differences
  // ---------------------------------------------------------------------

  /** Some record of `s` is the same package as `p`. */
  predicate Contains(s: set<PackageInfo>, p: PackageInfo)
  {
    exists q :: q in s && SamePackage(q, p)
  }

  /** The records of `a` whose package `b` lacks. */
  function DiffSet(a: set<PackageInfo>, b: set<PackageInfo>): set<PackageInfo>
  {
    set p | p in a && !Contains(b, p)
  }

  function Absent(other: set<PackageInfo>): PackageInfo -> bool
  {
    p => !Contains(other, p)
  }

  /** `HashSet::difference`: the records of an iteration order that `other` lacks, in that order. */
  function Difference(order: seq<PackageInfo>, other: set<PackageInfo>): seq<PackageInfo>
  {
    Filter(order, Absent(other))
  }

  /** Walking a set's iteration order and dropping what `b` holds lists `a - b` once each. */
  lemma DifferenceEnumerates(order: seq<PackageInfo>, a: set<PackageInfo>, b: set<PackageInfo>)
    requires multiset(order) == multiset(a)
    ensures multiset(Difference(order, b)) == multiset(DiffSet(a, b))
    ensures |Difference(order, b)| == |DiffSet(a, b)|
  {
    forall x ensures multiset(Difference(order, b))[x] == multiset(DiffSet(a, b))[x] {
      FilterCount(order, Absent(other := b), x);
    }
    assert multiset(Difference(order, b)) == multiset(DiffSet(a, b));
    assert |multiset(Difference(order, b))| == |multiset(DiffSet(a, b))|;
  }

  /** No record is in both differences, so together they hold `|a - b| + |b - a|` records. */
  lemma DiffSetsDisjoint(a: set<PackageInfo>, b: set<PackageInfo>)
    ensures DiffSet(a, b) !! DiffSet(b, a)
    ensures |DiffSet(a, b) + DiffSet(b, a)| == |DiffSet(a, b)| + |DiffSet(b, a)|
  {
    forall p | p in DiffSet(a, b) ensures p !in DiffSet(b, a) {
      SamePackageIsEquivalence(p, p, p);
    }
  }

  // ---------------------------------------------------------------------
  // Rendering
  // ---------------------------------------------------------------------

  function IsPypi(p: PackageInfo): bool
  {
    p.channel == PypiChannel
  }

  /**
   * The records a mode prints, after the one sort and before the
   * `--pip-only` filter: `--first-only` is looked at before `--second-only`.
   */
  function Selected(flags: Flags, firstDiff: seq<PackageInfo>, secondDiff: seq<PackageInfo>): seq<PackageInfo>
  {
    if flags.firstOnly then SortByName(firstDiff)
    else if flags.secondOnly then SortByName(secondDiff)
    else SortByName(firstDiff + secondDiff)
  }

  /** The records actually printed. */
  function Printed(records: seq<PackageInfo>, pipOnly: bool): seq<PackageInfo>
  {
    if pipOnly then Filter(records, IsPypi) else records
  }

  /** Only the two-way mode uses columns; the one-sided modes always print free text. */
  function UsesColumns(flags: Flags): bool
  {
    flags.format && !flags.firstOnly && !flags.secondOnly
  }

  /** One output line for a record: in columns it goes to the first-env column iff its tag is the first env. */
  function RenderRow(p: PackageInfo, columns: bool, firstEnv: string): string
  {
    if columns then FormatRow(p, p.envName == firstEnv) else Display(p)
  }

  /** One output line per record, in order. */
  function Render(records: seq<PackageInfo>, columns: bool, firstEnv: string): (lines: seq<string>)
    ensures |lines| == |records|
  {
    if records == [] then []
    else Render(records[..|records| - 1], columns, firstEnv) + [RenderRow(records[|records| - 1], columns, firstEnv)]
  }

  /** Line `k` is record `k` rendered. */
  lemma {:induction false} RenderAt(records: seq<PackageInfo>, columns: bool, firstEnv: string, k: nat)
    requires k < |records|
    ensures Render(records, columns, firstEnv)[k] == RenderRow(records[k], columns, firstEnv)
  {
    if k < |records| - 1 {
      RenderAt(records[..|records| - 1], columns, firstEnv, k);
    }
  }

  /** Everything printed after the two listings were read: the header, if asked for, then the rows. */
  function Report(flags: Flags, firstEnv: string, firstDiff: seq<PackageInfo>, secondDiff: seq<PackageInfo>): seq<string>
  {
    (if flags.format then [Header()] else [])
      + Render(Printed(Selected(flags, firstDiff, secondDiff), flags.pipOnly), UsesColumns(flags), firstEnv)
  }

  /** Printing one more record adds at most its line. */
  lemma PrintedSnoc(records: seq<PackageInfo>, p: PackageInfo, pipOnly: bool, columns: bool, firstEnv: string)
    ensures Render(Printed(records + [p], pipOnly), columns, firstEnv)
         == Render(Printed(records, pipOnly), columns, firstEnv)
            + (if !pipOnly || IsPypi(p) then [RenderRow(p, columns, firstEnv)] else [])
  {
    FilterAppend(records, [p], IsPypi);
    assert Filter([p], IsPypi) == if IsPypi(p) then [p] else [];
    var before := Printed(records, pipOnly);
    if !pipOnly || IsPypi(p) {
      assert Printed(records + [p], pipOnly) == before + [p];
      assert (before + [p])[..|before|] == before;
    } else {
      assert Printed(records + [p], pipOnly) == before;
    }
  }

  /** A printing loop of `main`: the `--pip-only` test is made record by record while printing. */
  method EmitRows(records: seq<PackageInfo>, pipOnly: bool, columns: bool, firstEnv: string) returns (lines: seq<string>)
    ensures lines == Render(Printed(records, pipOnly), columns, firstEnv)
  {
    lines := [];
    for i := 0 to |records|
      invariant lines == Render(Printed(records[..i], pipOnly), columns, firstEnv)
    {
      var p := records[i];
      assert records[..i + 1] == records[..i] + [p];
      PrintedSnoc(records[..i], p, pipOnly, columns, firstEnv);
      if pipOnly {
        if p.channel == PypiChannel {
          lines := lines + [RenderRow(p, columns, firstEnv)];
        }
      } else {
        lines := lines + [RenderRow(p, columns, firstEnv)];
      }
    }
    assert records[..|records|] == records;
  }

  // ---------------------------------------------------------------------
  // The whole run
  // ---------------------------------------------------------------------

  /**
   * `main` after argument parsing: `envs` are the positional environment
   * names, `firstListing` and `secondListing` what `conda list` returned for
   * the first and the last of them (`None` when conda could not be started or
   * its output was not UTF-8; a conda run that fails still yields `Some` of
   * its standard output), `separator` the platform's line ending. Returns
   * the printed lines and the exit code; `firstOrder` and `secondOrder` are
   * the iteration orders of the two hash sets, which the program does not
   * control.
   */
  method Run(envs: seq<string>, flags: Flags, separator: string,
             firstListing: Option<string>, secondListing: Option<string>)
    returns (out: seq<string>, exitCode: int, ghost firstOrder: seq<PackageInfo>, ghost secondOrder: seq<PackageInfo>)
    requires separator != []
    ensures |envs| != 2 ==> out == [WrongEnvCount] && exitCode == 1
    ensures |envs| == 2 && (firstListing.None? || secondListing.None?) ==> out == [] && exitCode == 1
    ensures |envs| == 2 && firstListing.Some? && secondListing.Some? ==>
      var firstSet := ListingSet(Split(firstListing.value, separator), envs[0]);
      var secondSet := ListingSet(Split(secondListing.value, separator), envs[1]);
      && exitCode == 0
      && multiset(firstOrder) == multiset(firstSet)
      && multiset(secondOrder) == multiset(secondSet)
      && out == Report(flags, envs[0], Difference(firstOrder, secondSet), Difference(secondOrder, firstSet))
  {
    firstOrder, secondOrder := [], [];
    if |envs| != 2 {
      out, exitCode := [WrongEnvCount], 1;
      return;
    }
    out, exitCode := [], 1;
    if firstListing.None? {
      return;
    }
    var firstSet := BuildSet(firstListing.value, separator, envs[0]);
    if secondListing.None? {
      return;
    }
    var secondSet := BuildSet(secondListing.value, separator, envs[1]);
    var firstIter := IterationOrder(firstSet);
    var secondIter := IterationOrder(secondSet);
    firstOrder, secondOrder := firstIter, secondIter;

    if flags.format {
      out := [Header()];
    }
    exitCode := 0;

    if flags.firstOnly {
      var diff := Difference(firstIter, secondSet);
      diff := SortByName(diff);
      var rows := EmitRows(diff, flags.pipOnly, false, envs[0]);
      out := out + rows;
      return;
    }

    if flags.secondOnly {
      var diff := Difference(secondIter, firstSet);
      diff := SortByName(diff);
      var rows := EmitRows(diff, flags.pipOnly, false, envs[0]);
      out := out + rows;
      return;
    }

    var diff := Difference(firstIter, secondSet) + Difference(secondIter, firstSet);
    diff := SortByName(diff);
    var rows := EmitRows(diff, flags.pipOnly, flags.format, envs[0]);
    out := out + rows;
  }
}
