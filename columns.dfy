/**
 * The fixed-width column output of the diff tool (`padding_string`,
 * `format_output` and the header row).
 */
module Columns {
  import opened Package

  /** `FIXED_LENGTH`: the width of every column. */
  const FixedLength: nat := 20

  function Spaces(n: nat): (r: string)
    ensures |r| == n && forall i :: 0 <= i < n ==> r[i] == ' '
  {
    seq(n, _ => ' ')
  }

  /**
   * `padding_string`: right-aligns a short text in a column of spaces and
   * cuts a long one to the column width, without any mark.
   */
  function Pad(s: string): (r: string)
    ensures |r| == FixedLength
    ensures |s| < FixedLength ==>
      r[FixedLength - |s|..] == s && forall i :: 0 <= i < FixedLength - |s| ==> r[i] == ' '
    ensures |s| >= FixedLength ==> r == s[..FixedLength]
  {
    if |s| < FixedLength then Spaces(FixedLength - |s|) + s else s[..FixedLength]
  }

  /** Padding a padded column changes nothing. */
  lemma PadIdempotent(s: string)
    ensures Pad(Pad(s)) == Pad(s)
  {
  }

  /** `s` without its leading spaces. */
  function TrimStart(s: string): string
  {
    if s != [] && s[0] == ' ' then TrimStart(s[1..]) else s
  }

  lemma {:induction false} TrimSpaces(n: nat, s: string)
    requires s == [] || s[0] != ' '
    ensures TrimStart(Spaces(n) + s) == s
  {
    if n > 0 {
      assert (Spaces(n) + s)[1..] == Spaces(n - 1) + s;
      TrimSpaces(n - 1, s);
    }
  }

  /** A text that fits its column and does not start with a space is read back from it. */
  lemma UnpadPad(s: string)
    requires |s| <= FixedLength
    requires s == [] || s[0] != ' '
    ensures TrimStart(Pad(s)) == s
  {
    if |s| < FixedLength {
      TrimSpaces(FixedLength - |s|, s);
    } else {
      assert s[..FixedLength] == s;
    }
  }

  /** The columns side by side, each padded to the fixed width. */
  function Row(cells: seq<string>): (r: string)
    ensures |r| == FixedLength * |cells|
  {
    if cells == [] then "" else Pad(cells[0]) + Row(cells[1..])
  }

  /** The text of column `k` of a row line. */
  function Column(line: string, k: nat): string
    requires FixedLength * (k + 1) <= |line|
  {
    line[FixedLength * k .. FixedLength * (k + 1)]
  }

  /** Column `k` of a row holds the `k`-th cell, padded. */
  lemma {:induction false} RowColumn(cells: seq<string>, k: nat)
    requires k < |cells|
    ensures FixedLength * (k + 1) <= |Row(cells)|
    ensures Column(Row(cells), k) == Pad(cells[k])
  {
    if k > 0 {
      RowColumn(cells[1..], k - 1);
      var rest := Row(cells[1..]);
      assert Row(cells) == Pad(cells[0]) + rest;
      assert Row(cells)[FixedLength * k .. FixedLength * (k + 1)]
          == rest[FixedLength * (k - 1) .. FixedLength * k];
    }
  }

  /**
   * `format_output`: name, version, build and channel, then the environment
   * name in the fifth column and a blank sixth column for a first-env
   * record, or the reverse.
   */
  function FormatRow(p: PackageInfo, first: bool): string
  {
    if first then Row([p.name, p.version, p.build, p.channel, p.envName, ""])
    else Row([p.name, p.version, p.build, p.channel, "", p.envName])
  }

  /**
   * A formatted row is six columns wide and each column is its padded field;
   * the environment name sits in column 5 for a first-env record and in
   * column 6 otherwise, the other one being blank.
   */
  lemma FormatRowColumns(p: PackageInfo, first: bool)
    ensures |FormatRow(p, first)| == 6 * FixedLength
    ensures Column(FormatRow(p, first), 0) == Pad(p.name)
    ensures Column(FormatRow(p, first), 1) == Pad(p.version)
    ensures Column(FormatRow(p, first), 2) == Pad(p.build)
    ensures Column(FormatRow(p, first), 3) == Pad(p.channel)
    ensures Column(FormatRow(p, first), 4) == Pad(if first then p.envName else "")
    ensures Column(FormatRow(p, first), 5) == Pad(if first then "" else p.envName)
  {
    var cells := if first then [p.name, p.version, p.build, p.channel, p.envName, ""]
                 else [p.name, p.version, p.build, p.channel, "", p.envName];
    RowColumn(cells, 0);
    RowColumn(cells, 1);
    RowColumn(cells, 2);
    RowColumn(cells, 3);
    RowColumn(cells, 4);
    RowColumn(cells, 5);
  }

  /**
   * A reader of a formatted row finds the environment name in exactly one of
   * the two environment columns, the first one iff `first`, as long as the
   * name fits the width and does not start with a space.
   */
  lemma FormatRowSide(p: PackageInfo, first: bool)
    requires p.envName != [] && |p.envName| <= FixedLength && p.envName[0] != ' '
    ensures TrimStart(Column(FormatRow(p, first), 4)) == (if first then p.envName else "")
    ensures TrimStart(Column(FormatRow(p, first), 5)) == (if first then "" else p.envName)
  {
    FormatRowColumns(p, first);
    UnpadPad(p.envName);
    UnpadPad("");
  }

  /** The header row printed before the rows with `--format`. */
  function Header(): string
  {
    Row(["Name", "Version", "Build", "Channel", "First env", "Second env"])
  }

  /** The header names the six columns and, being padded, starts with a space. */
  lemma HeaderColumns()
    ensures |Header()| == 6 * FixedLength && Header()[0] == ' '
    ensures TrimStart(Column(Header(), 0)) == "Name"
    ensures TrimStart(Column(Header(), 4)) == "First env"
    ensures TrimStart(Column(Header(), 5)) == "Second env"
  {
    var cells := ["Name", "Version", "Build", "Channel", "First env", "Second env"];
    RowColumn(cells, 0);
    RowColumn(cells, 4);
    RowColumn(cells, 5);
    UnpadPad("Name");
    UnpadPad("First env");
    UnpadPad("Second env");
    assert Header()[0] == Column(Header(), 0)[0] == Pad("Name")[0];
  }
}
