/**
 * The package record of a conda environment listing (`PackageInfo`), with
 * its parser, its equality, its two orderings and its free-text rendering.
 * The repository holds two identical copies of this type, one in the
 * env_diff tool and one in the shared tools_core library; this module models
 * both.
 */
module Package {
  import opened Wrappers
  import opened Text

  /** One installed package, tagged with the environment whose listing it came from. */
  datatype PackageInfo = PackageInfo(
    name: string,
    version: string,
    build: string,
    channel: string,  // "" when the listing line has no channel column
    envName: string)

  /**
   * `PartialEq::eq`: two records describe the same package when name,
   * version, build and channel agree; the environment tag is ignored.
   */
  function SamePackage(p: PackageInfo, q: PackageInfo): (same: bool)
    ensures same <==> p.(envName := q.envName) == q
  {
    p.name == q.name && p.version == q.version && p.build == q.build && p.channel == q.channel
  }

  /** `eq` is an equivalence relation, as `impl Eq` promises. */
  lemma SamePackageIsEquivalence(p: PackageInfo, q: PackageInfo, r: PackageInfo)
    ensures SamePackage(p, p)
    ensures SamePackage(p, q) ==> SamePackage(q, p)
    ensures SamePackage(p, q) && SamePackage(q, r) ==> SamePackage(p, r)
  {
  }

  /** `Display::fmt`: the free-text form of a record. */
  function Display(p: PackageInfo): string
  {
    "(name " + (p.name + (", version " + (p.version + (",build " + (p.build
      + (", channel " + (p.channel + (",env_name " + (p.envName + ")")))))))))
  }

  /** Name, version, build and channel are free of spaces, as the parser guarantees. */
  predicate SpaceFreeFields(p: PackageInfo)
  {
    ' ' !in p.name && ' ' !in p.version && ' ' !in p.build && ' ' !in p.channel
  }

  /** The position of the first space in `s`, or `|s|` when there is none. */
  function FirstSpace(s: string): (k: nat)
    ensures k <= |s|
  {
    if s == [] || s[0] == ' ' then 0 else 1 + FirstSpace(s[1..])
  }

  /** In a space-free text followed by a space, the first space is that one. */
  lemma {:induction false} FirstSpaceAfter(y: string, r: string)
    requires ' ' !in y
    ensures FirstSpace(y + (" " + r)) == |y|
  {
    if y != [] {
      assert (y + (" " + r))[1..] == y[1..] + (" " + r);
      FirstSpaceAfter(y[1..], r);
    }
  }

  /** Two texts that agree on the first space agree on what precedes and follows it. */
  lemma CutAtFirstSpace(x1: string, x2: string, w: string, r1: string, r2: string)
    requires ' ' !in x1 && ' ' !in x2 && ' ' !in w
    requires x1 + (w + (" " + r1)) == x2 + (w + (" " + r2))
    ensures x1 == x2 && r1 == r2
  {
    var s := x1 + (w + (" " + r1));
    assert s == (x1 + w) + (" " + r1);
    assert s == (x2 + w) + (" " + r2);
    FirstSpaceAfter(x1 + w, r1);
    FirstSpaceAfter(x2 + w, r2);
    assert x1 == s[..|x1|];
    assert x2 == s[..|x2|];
    assert r1 == s[|x1| + |w| + 1..];
    assert r2 == s[|x2| + |w| + 1..];
  }

  /** A prefix common to two equal texts can be dropped. */
  lemma DropCommonPrefix(pre: string, a: string, b: string)
    requires pre + a == pre + b
    ensures a == b
  {
    assert a == (pre + a)[|pre|..];
    assert b == (pre + b)[|pre|..];
  }

  // The free-text form read from the right: each tail starts after a field's label.
  function DisplayTail1(p: PackageInfo): string { "version " + (p.version + (",build" + (" " + DisplayTail2(p)))) }
  function DisplayTail2(p: PackageInfo): string { p.build + ("," + (" " + DisplayTail3(p))) }
  function DisplayTail3(p: PackageInfo): string { "channel " + (p.channel + (",env_name" + (" " + DisplayTail4(p)))) }
  function DisplayTail4(p: PackageInfo): string { p.envName + ")" }

  /** A label `a + b + c` in front of `t`, regrouped. */
  lemma Regroup(a: string, b: string, c: string, t: string)
    ensures (a + b + c) + t == a + (b + (c + t))
  {
  }

  lemma DisplayShape(p: PackageInfo)
    ensures Display(p) == "(name " + (p.name + ("," + (" " + DisplayTail1(p))))
  {
    assert ", channel " == "," + " " + "channel ";
    Regroup(",", " ", "channel ", p.channel + (",env_name " + DisplayTail4(p)));
    assert ",env_name " == ",env_name" + " ";
    assert ",env_name " + DisplayTail4(p) == ",env_name" + (" " + DisplayTail4(p));
    assert ",build " + (p.build + (", channel " + (p.channel + (",env_name " + DisplayTail4(p)))))
        == ",build" + (" " + DisplayTail2(p));
    assert ", version " == "," + " " + "version ";
    Regroup(",", " ", "version ", p.version + (",build " + (p.build + (", channel " + (p.channel + (",env_name " + DisplayTail4(p)))))));
  }

  lemma DisplayTailsAgree(p: PackageInfo, q: PackageInfo)
    requires SpaceFreeFields(p) && SpaceFreeFields(q)
    requires DisplayTail1(p) == DisplayTail1(q)
    ensures p.version == q.version && p.build == q.build
    ensures DisplayTail3(p) == DisplayTail3(q)
  {
    DropCommonPrefix("version ", p.version + (",build" + (" " + DisplayTail2(p))), q.version + (",build" + (" " + DisplayTail2(q))));
    CutAtFirstSpace(p.version, q.version, ",build", DisplayTail2(p), DisplayTail2(q));
    CutAtFirstSpace(p.build, q.build, ",", DisplayTail3(p), DisplayTail3(q));
  }

  lemma DisplayLastTailsAgree(p: PackageInfo, q: PackageInfo)
    requires SpaceFreeFields(p) && SpaceFreeFields(q)
    requires DisplayTail3(p) == DisplayTail3(q)
    ensures p.channel == q.channel && p.envName == q.envName
  {
    DropCommonPrefix("channel ", p.channel + (",env_name" + (" " + DisplayTail4(p))), q.channel + (",env_name" + (" " + DisplayTail4(q))));
    CutAtFirstSpace(p.channel, q.channel, ",env_name", DisplayTail4(p), DisplayTail4(q));
    assert p.envName == DisplayTail4(p)[..|DisplayTail4(p)| - 1];
    assert q.envName == DisplayTail4(q)[..|DisplayTail4(q)| - 1];
  }

  /**
   * The free-text form identifies the record, environment included, as long
   * as the four parsed fields carry no spaces (every parsed record qualifies).
   */
  lemma DisplayInjective(p: PackageInfo, q: PackageInfo)
    requires SpaceFreeFields(p) && SpaceFreeFields(q)
    requires Display(p) == Display(q)
    ensures p == q
  {
    DisplayShape(p);
    DisplayShape(q);
    DropCommonPrefix("(name ", p.name + ("," + (" " + DisplayTail1(p))), q.name + ("," + (" " + DisplayTail1(q))));
    CutAtFirstSpace(p.name, q.name, ",", DisplayTail1(p), DisplayTail1(q));
    DisplayTailsAgree(p, q);
    DisplayLastTailsAgree(p, q);
  }

  /** `PartialOrd::partial_cmp`: records are ordered by name only. */
  function PartialCmp(p: PackageInfo, q: PackageInfo): Ordering
  {
    Compare(p.name, q.name)
  }

  /** `partial_cmp` says `Equal` exactly for records with the same name. */
  lemma PartialCmpByName(p: PackageInfo, q: PackageInfo)
    ensures PartialCmp(p, q) == Equal <==> p.name == q.name
    ensures PartialCmp(q, p) == PartialCmp(p, q).Reverse()
  {
    CompareEqual(p.name, q.name);
    CompareAntisymmetric(p.name, q.name);
  }

  /**
   * `#[derive(Ord)]`'s `cmp`: lexicographic over all five fields in
   * declaration order, the environment tag last.
   */
  function Cmp(p: PackageInfo, q: PackageInfo): Ordering
  {
    var byName := Compare(p.name, q.name);
    if byName != Equal then byName else
    var byVersion := Compare(p.version, q.version);
    if byVersion != Equal then byVersion else
    var byBuild := Compare(p.build, q.build);
    if byBuild != Equal then byBuild else
    var byChannel := Compare(p.channel, q.channel);
    if byChannel != Equal then byChannel else
    Compare(p.envName, q.envName)
  }

  /**
   * The derived order is antisymmetric, its `Equal` is identity of all five
   * fields, and it agrees with `partial_cmp` whenever the names differ;
   * `CmpTransitive` completes it to a total order.
   */
  lemma CmpIsTotalOrder(p: PackageInfo, q: PackageInfo)
    ensures Cmp(p, q) == Equal <==> p == q
    ensures Cmp(q, p) == Cmp(p, q).Reverse()
    ensures p.name != q.name ==> Cmp(p, q) == PartialCmp(p, q)
  {
    CompareEqual(p.name, q.name);
    CompareEqual(p.version, q.version);
    CompareEqual(p.build, q.build);
    CompareEqual(p.channel, q.channel);
    CompareEqual(p.envName, q.envName);
    CompareAntisymmetric(p.name, q.name);
    CompareAntisymmetric(p.version, q.version);
    CompareAntisymmetric(p.build, q.build);
    CompareAntisymmetric(p.channel, q.channel);
    CompareAntisymmetric(p.envName, q.envName);
  }

  /** The derived order is transitive: lexicographic order over transitive field orders. */
  lemma CmpTransitive(p: PackageInfo, q: PackageInfo, r: PackageInfo)
    requires Cmp(p, q) == Less && Cmp(q, r) == Less
    ensures Cmp(p, r) == Less
  {
    FieldTransitive(p.name, q.name, r.name);
    FieldTransitive(p.version, q.version, r.version);
    FieldTransitive(p.build, q.build, r.build);
    FieldTransitive(p.channel, q.channel, r.channel);
    FieldTransitive(p.envName, q.envName, r.envName);
  }

  /** One field's part in `CmpTransitive`: equal or less, then equal or less. */
  lemma FieldTransitive(a: string, b: string, c: string)
    ensures Compare(a, b) == Equal && Compare(b, c) == Equal ==> Compare(a, c) == Equal
    ensures Compare(a, b) == Less && Compare(b, c) != Greater ==> Compare(a, c) == Less
    ensures Compare(a, b) == Equal && Compare(b, c) == Less ==> Compare(a, c) == Less
  {
    CompareEqual(a, b);
    CompareEqual(b, c);
    CompareEqual(a, c);
    if Compare(a, b) == Less && Compare(b, c) != Greater {
      CompareLessTransitive(a, b, c);
    }
  }

  /**
   * The derived order and `eq` disagree: the same package seen in two
   * environments is `eq` but not `Ordering::Equal`.
   */
  lemma CmpDisagreesWithSamePackage(p: PackageInfo, env: string)
    requires env != p.envName
    ensures SamePackage(p, p.(envName := env)) && Cmp(p, p.(envName := env)) != Equal
  {
    CmpIsTotalOrder(p, p.(envName := env));
  }

  datatype ParseError = CannotConvert

  /** Everything `from_str` accepts: three space-free tokens and a space-free, possibly empty, channel. */
  predicate WellFormed(p: PackageInfo)
  {
    SpaceFreeFields(p) && p.name != [] && p.version != [] && p.build != []
  }

  /**
   * `from_str`: three tokens are name, version and build with an empty
   * channel; four tokens add the channel; any other count is an error.
   */
  function Parse(line: string, envName: string): (r: Result<PackageInfo, ParseError>)
    ensures r.Ok? <==> |Tokens(line)| == 3 || |Tokens(line)| == 4
    ensures r.Ok? ==> r.value.envName == envName && WellFormed(r.value)
    ensures r.Ok? ==> (r.value.channel == "" <==> |Tokens(line)| == 3)
  {
    var ts := Tokens(line);
    if |ts| == 3 then
      assert ts[0] in ts && ts[1] in ts && ts[2] in ts;
      Ok(PackageInfo(ts[0], ts[1], ts[2], "", envName))
    else if |ts| == 4 then
      assert ts[0] in ts && ts[1] in ts && ts[2] in ts && ts[3] in ts;
      Ok(PackageInfo(ts[0], ts[1], ts[2], ts[3], envName))
    else
      Err(CannotConvert)
  }

  /** The listing line a record is read from, with single spaces between its columns. */
  function ListingLine(p: PackageInfo): string
  {
    p.name + " " + p.version + " " + p.build + (if p.channel == "" then "" else " " + p.channel)
  }

  /** The columns of a record's listing line. */
  function ListingColumns(p: PackageInfo): seq<string>
  {
    [p.name, p.version, p.build] + (if p.channel == "" then [] else [p.channel])
  }

  lemma ListingLineIsJoin(p: PackageInfo)
    ensures ListingLine(p) == Join(ListingColumns(p), " ")
  {
    var cs := ListingColumns(p);
    if p.channel == "" {
      assert cs[1..][1..] == [p.build];
      JoinCons(p.version, [p.build], " ");
      JoinCons(p.name, [p.version, p.build], " ");
    } else {
      assert cs[1..][1..][1..] == [p.channel];
      JoinCons(p.build, [p.channel], " ");
      JoinCons(p.version, [p.build, p.channel], " ");
      JoinCons(p.name, [p.version, p.build, p.channel], " ");
      assert cs == [p.name, p.version, p.build, p.channel];
      assert ListingLine(p) == p.name + " " + (p.version + " " + (p.build + " " + p.channel));
    }
  }

  /** Round trip: every well-formed record is read back from its listing line. */
  lemma ParseListingLine(p: PackageInfo)
    requires WellFormed(p)
    ensures Parse(ListingLine(p), p.envName) == Ok(p)
  {
    ListingLineIsJoin(p);
    TokensOfJoin(ListingColumns(p));
  }

  /** An accepted line holds exactly the columns of the record read from it. */
  lemma ParsedColumns(line: string, envName: string)
    requires Parse(line, envName).Ok?
    ensures Tokens(line) == ListingColumns(Parse(line, envName).value)
  {
  }

  /** Runs of spaces, leading and trailing spaces do not change what a line parses to. */
  lemma ParseIgnoresSpacing(a: string, b: string, envName: string)
    ensures Parse(a + "  " + b, envName) == Parse(a + " " + b, envName)
    ensures Parse(" " + a, envName) == Parse(a, envName)
    ensures Parse(a + " ", envName) == Parse(a, envName)
  {
    DoubleSpaceIgnored(a, b);
    LeadingSpaceIgnored(a);
    TrailingSpaceIgnored(a);
  }

  /**
   * The environment tag only labels the result: a line parses under one
   * environment exactly when it parses under another, to the same package.
   */
  lemma ParseRetagged(line: string, env1: string, env2: string)
    ensures Parse(line, env1).Ok? == Parse(line, env2).Ok?
    ensures Parse(line, env1).Ok? ==>
      Parse(line, env2).value == Parse(line, env1).value.(envName := env2)
      && SamePackage(Parse(line, env1).value, Parse(line, env2).value)
  {
  }

  /** Two parsed records print the same free text only when they are the same record. */
  lemma ParsedDisplayInjective(line1: string, env1: string, line2: string, env2: string)
    requires Parse(line1, env1).Ok? && Parse(line2, env2).Ok?
    requires Display(Parse(line1, env1).value) == Display(Parse(line2, env2).value)
    ensures Parse(line1, env1).value == Parse(line2, env2).value
  {
    DisplayInjective(Parse(line1, env1).value, Parse(line2, env2).value);
  }
}
