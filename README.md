# env_diff in Dafny

A model of the environment-diff engine of the conda tools: `env_diff A B`
reads the `conda list` output of two environments, turns every listing line
into a `PackageInfo` record, and prints the packages found in one environment
but not in the other. Flags select the mode: `--first-only`, `--second-only`,
or the two-way default. `--pip-only` keeps only `pypi`-channel rows, and
`--format` prints fixed 20-character columns under a header row.

The record type `PackageInfo` exists twice in the repository, with the same
logic: once in the diff tool (`rs/env_diff/src/main.rs:29-100`) and once in the
shared library (`rs/tools_core/src/lib.rs:8-79`). Module `Package` models both.
The rows below cite the library copy.

Modules:
- `Text`: splitting on a separator, space tokenising, and `String::cmp`.
- `Package`: the record, its parser, `eq`, `partial_cmp`, the derived `Ord` and `Display`.
- `NameSort`: `Vec::sort` as the tool uses it.
- `Columns`: `padding_string`, `format_output` and the header row.
- `EnvDiff`: reading listings into sets, the two differences, rendering, and the whole run (`Run`).
- `DiffProperties`: what the printed report promises in each mode.
- `Wrappers` and `Seqs`: `Option`/`Result` and an order-preserving filter.

Where the code differs from the intended design, the model follows the code:

- **Header row.** The header is printed whenever `--format` is given, in every mode. This includes `--first-only` and `--second-only`, which still print free text.
- **Sort order.** `sort` compares with `PartialOrd::lt`. `PackageInfo` leaves `lt` at its default, and that default calls the hand-written `partial_cmp`. So rows are sorted stably by name only. The derived five-field `Ord` plays no part in the output.
- **Set membership.** Sets are compared with `eq`, which ignores the environment tag. The hash-set lookup the code actually performs is logged under Findings.

## Model

| member | source | states |
|---|---|---|
| `Package.SamePackage` | rs/tools_core/src/lib.rs:17-24 | two records are the same package iff they are identical once the environment tag is disregarded |
| `Package.SamePackageIsEquivalence` | rs/tools_core/src/lib.rs:17-36 | `eq` is reflexive, symmetric and transitive, as `impl Eq` promises |
| `Package.Display` | rs/tools_core/src/lib.rs:26-34 | the free-text form `(name N, version V,build B, channel C,env_name E)`. Its contract is stated by `DisplayInjective` |
| `Package.DisplayInjective` | rs/tools_core/src/lib.rs:26-34 | the text `(name N, version V,build B, channel C,env_name E)` determines all five fields, environment included, when N, V, B and C contain no spaces, as in every parsed record (`ParsedDisplayInjective`) |
| `Package.ParsedDisplayInjective` | rs/tools_core/src/lib.rs:26-78 | two parsed records print the same free text only when they are the same record, environment included |
| `Package.PartialCmp` | rs/tools_core/src/lib.rs:48-52 | `partial_cmp`: `String::cmp` of the names alone. Its contract is stated by `PartialCmpByName` |
| `Package.PartialCmpByName` | rs/tools_core/src/lib.rs:48-52 | `partial_cmp` is `Equal` exactly for equal names, and swapping the operands reverses it |
| `Package.Cmp` | rs/tools_core/src/lib.rs:8-15 | the derived `cmp`: lexicographic over name, version, build, channel and environment, in declaration order. Its contract is stated by `CmpIsTotalOrder` and `CmpTransitive` |
| `Package.CmpIsTotalOrder` | rs/tools_core/src/lib.rs:8-15 | the derived `Ord` is antisymmetric. Its `Equal` means all five fields are identical, and it agrees with `partial_cmp` whenever the names differ |
| `Package.CmpTransitive` | rs/tools_core/src/lib.rs:8-15 | the derived `Ord` is transitive, which completes it to a total order |
| `Package.CmpDisagreesWithSamePackage` | rs/tools_core/src/lib.rs:8-24 | one package seen in two environments is `eq` but not `Ord`-equal: the derived order and `eq` are inconsistent |
| `Package.Parse` | rs/tools_core/src/lib.rs:55-78 | a line is accepted iff it has 3 or 4 space-separated tokens. The record is tagged with the given environment, and its fields are tokens (non-empty, space-free). The channel is empty iff there were 3 tokens |
| `Package.ParsedColumns` | rs/tools_core/src/lib.rs:58-75 | the tokens of an accepted line are exactly name, version, build and, when non-empty, the channel, in that order |
| `Package.ParseListingLine` | rs/tools_core/src/lib.rs:55-78 | round trip: the fields joined with single spaces parse back to the same record. This holds for non-empty space-free name, version and build, and a space-free channel (omitted when empty) |
| `Package.ParseIgnoresSpacing` | rs/tools_core/src/lib.rs:56-57 | doubled, leading and trailing spaces do not change what a line parses to |
| `Package.ParseRetagged` | rs/tools_core/src/lib.rs:55-78 | whether a line parses does not depend on the environment, and the results under two environments are the same package |
| `Text.Split` | rs/env_diff/src/main.rs:171-175 | `str::split` with a non-empty string pattern, `"\n"` or `"\r\n"`: left-to-right non-overlapping pieces, always at least one. `JoinSplit` states that no text is lost, and `SplitPiecesAvoidAnySeparator` that no piece still holds the separator. `SplitJoin` states the reverse round trip for one-character separators |
| `Text.SplitPiecesAvoidAnySeparator` | rs/env_diff/src/main.rs:171-175 | for every non-empty separator, `"\r\n"` included, no piece contains the separator at any position |
| `Text.Tokens` | rs/tools_core/src/lib.rs:56-57 | every token is non-empty and contains no space |
| `Text.TokensAtSpace` | rs/tools_core/src/lib.rs:56-57 | a space splits a line into two independently tokenised halves |
| `Text.TokensOfJoin` | rs/tools_core/src/lib.rs:56-57 | tokens joined by single spaces tokenise back to themselves |
| `Text.JoinSplit` | rs/env_diff/src/main.rs:171-175 | splitting a listing on the line ending loses no text: joining the pieces gives it back |
| `Text.SplitJoin` | rs/env_diff/src/main.rs:171-175 | pieces free of a one-character separator, joined with it and split again, come back unchanged |
| `Text.Compare` | rs/tools_core/src/lib.rs:50 | `String::cmp`: lexicographic, character by character, a proper prefix first. Its contract is stated by `CompareEqual`, `CompareAntisymmetric` and `CompareTransitive` |
| `Text.CompareEqual` | rs/tools_core/src/lib.rs:50 | `String::cmp` is `Equal` exactly for equal strings |
| `Text.CompareAntisymmetric` | rs/tools_core/src/lib.rs:50 | swapping the operands of `String::cmp` reverses the outcome |
| `Text.CompareTransitive` | rs/tools_core/src/lib.rs:50 | "not greater" under `String::cmp` is transitive |
| `Columns.Pad` | rs/env_diff/src/main.rs:107-115 | the result is always 20 characters. A shorter text ends the result, preceded by spaces only. A longer text is cut to its first 20 characters |
| `Columns.PadIdempotent` | rs/env_diff/src/main.rs:107-115 | padding a padded column changes nothing |
| `Columns.UnpadPad` | rs/env_diff/src/main.rs:107-115 | a text of at most 20 characters not starting with a space is recovered by stripping the padding |
| `Columns.FormatRow` | rs/env_diff/src/main.rs:117-139 | `format_output`: six padded cells, the environment in the fifth or the sixth. Its contract is stated by `FormatRowColumns` and `FormatRowSide` |
| `Columns.FormatRowColumns` | rs/env_diff/src/main.rs:117-139 | a formatted row is six padded columns: name, version, build, channel. Then the environment in column 5 and a blank column 6 for a first-env record, or the reverse |
| `Columns.FormatRowSide` | rs/env_diff/src/main.rs:117-139 | a reader finds the environment name in column 5 iff the record is placed first, and in column 6 otherwise |
| `Columns.Header` | rs/env_diff/src/main.rs:224-233 | the six padded labels of the header row. Its contract is stated by `HeaderColumns` |
| `Columns.HeaderColumns` | rs/env_diff/src/main.rs:224-233 | the header row is six columns wide, starts with a space and names `Name`, `First env`, `Second env` in columns 1, 5, 6 |
| `NameSort.SortByName` | rs/env_diff/src/main.rs:239-274 | the `sort` calls of all three modes (lines 239, 256 and 274): the sorted rows are a permutation of the input, non-decreasing by name |
| `NameSort.SortByNameStable` | rs/env_diff/src/main.rs:239-274 | for every name, the records of that name keep their input order |
| `NameSort.InsertSorted` | rs/env_diff/src/main.rs:274 | inserting into a name-sorted sequence keeps it sorted |
| `NameSort.InsertWithName` | rs/env_diff/src/main.rs:274 | an inserted record goes after every record of the same name |
| `EnvDiff.ListingSet` | rs/env_diff/src/main.rs:177-186 | the package set of one listing: the records of its non-comment lines that parse. Its contract is stated by `ListingSetContents` and `BuildSet` |
| `EnvDiff.ListingSetContents` | rs/env_diff/src/main.rs:177-186 | every parsable non-comment line contributes its record. Every record carries the environment's name. No two records in one set are the same package |
| `EnvDiff.RepeatedPackageCollapses` | rs/env_diff/src/main.rs:182-185 | a line repeating the package of an earlier line, however spaced, adds nothing to the set |
| `EnvDiff.BuildSet` | rs/env_diff/src/main.rs:177-186 | the reading loop yields exactly the set of records of the listing's non-comment, parsable lines |
| `EnvDiff.IterationOrder` | rs/env_diff/src/main.rs:237-238 | iterating a hash set yields each of its elements exactly once |
| `EnvDiff.DifferenceEnumerates` | rs/env_diff/src/main.rs:237 | `difference`, walked in a set's iteration order, yields each record of `a` whose package `b` lacks, exactly once |
| `EnvDiff.DiffSet` | rs/env_diff/src/main.rs:270-271 | the records of one set whose package, by `eq`, the other set lacks. Its contract is stated by `DiffSetsDisjoint` and `SameListingNoDifference` |
| `EnvDiff.Difference` | rs/env_diff/src/main.rs:237-238 | `HashSet::difference` collected into a vector, in the set's iteration order. Its contract is stated by `DifferenceEnumerates` |
| `EnvDiff.DiffSetsDisjoint` | rs/env_diff/src/main.rs:270-273 | the two differences share no record, so together they have as many records as both |
| `EnvDiff.Selected` | rs/env_diff/src/main.rs:236-274 | the sorted rows of the mode: first-only, else second-only, else both differences appended. Its contract is stated by `FirstOnlyMode`, `SecondOnlyMode` and `TwoWayMode` |
| `EnvDiff.Printed` | rs/env_diff/src/main.rs:241-248 | the rows that pass `--pip-only`. Its contract is stated by `PrintedRows` |
| `EnvDiff.Report` | rs/env_diff/src/main.rs:224-291 | the header when asked for, then one rendered line per printed row. Its contract is stated by `ReportLayout` |
| `EnvDiff.Render` | rs/env_diff/src/main.rs:275-291 | one output line per printed record |
| `EnvDiff.RenderAt` | rs/env_diff/src/main.rs:275-291 | line k is record k rendered: columns with the first-env column iff its tag equals `envs[0]`, else the `Display` text |
| `EnvDiff.EmitRows` | rs/env_diff/src/main.rs:275-291 | testing `channel == "pypi"` record by record while printing gives exactly the rendering of the filtered sequence |
| `EnvDiff.Run` | rs/env_diff/src/main.rs:159-291 | a wrong env count prints `Error: wrong env list length` with exit 1. A failed listing prints nothing with exit 1. Otherwise exit 0 and the output is `Report` of the two differences, taken in each set's iteration order |
| `DiffProperties.ReportLayout` | rs/env_diff/src/main.rs:224-234 | the header comes first exactly when `--format` is given, in every mode, followed by one line per printed record |
| `DiffProperties.FirstOnlyMode` | rs/env_diff/src/main.rs:236-251 | first-only prints each record of first − second once, sorted by name, as free text. The output is the same whatever `--second-only` says |
| `DiffProperties.SecondOnlyMode` | rs/env_diff/src/main.rs:253-268 | second-only alone prints each record of second − first once, sorted by name, as free text |
| `DiffProperties.TwoWayMode` | rs/env_diff/src/main.rs:270-275 | the default mode prints both differences, each record once, sorted by name. The unfiltered row count is the sum of the two difference sizes |
| `DiffProperties.TwoWayTies` | rs/env_diff/src/main.rs:273-274 | among default-mode rows of one name, first-difference rows precede second-difference rows |
| `DiffProperties.PrintedRows` | rs/env_diff/src/main.rs:241-248 | printed rows are sorted by name in every mode. With `--pip-only` they are exactly the unfiltered rows whose channel is `pypi`, each as often as there |
| `DiffProperties.SameListingNoDifference` | rs/env_diff/src/main.rs:270-271 | a listing diffed against itself has an empty difference, whatever the two environments are called |
| `DiffProperties.EmptyListingDiffersInEverything` | rs/env_diff/src/main.rs:102-105 | a failed `conda list` still hands back its output, typically empty. That reads as an empty set, so every package of the other environment is a difference and none of the failed one is |
| `DiffProperties.IdenticalListingsPrintNoRows` | rs/env_diff/src/main.rs:224-291 | two identical listings print at most the header, in every mode |
| `DiffProperties.FirstColumnIffFirstSide` | rs/env_diff/src/main.rs:279-286 | with distinct environment names, a default-mode row carries the first environment's tag iff it belongs to first − second |
| `DiffProperties.SwappedEnvironmentsSameRecords` | rs/env_diff/src/main.rs:270-274 | naming the environments in the other order prints the same multiset of records in the default mode |
| `DiffProperties.HashedDiffReportsSharedPackage` | rs/env_diff/src/main.rs:59-67 | with the environment tag hashed, the same line in two differently named environments is reported as a difference, although `eq` finds it in both |

## Left out

- Running `conda list -n <env>` and decoding its output as UTF-8 (`get_command_output`) are not modelled. Each listing is an input. It is `None` when conda could not be started or its output was not UTF-8. Conda's exit status is never checked, so a conda run that fails (a misspelt environment, say) is `Some` of its standard output, typically empty; see `DiffProperties.EmptyListingDiffersInEverything`.
- Argument parsing with clap, the ASCII banner printed before everything else, and `std::process::exit` are not modelled. `Run` takes the parsed flags and returns the printed lines and the exit code.
- The `cfg!(windows)` choice between `"\r\n"` and `"\n"` is the `separator` parameter of `Run`.
- `EnvDiff.IterationOrder`: the hash set's iteration order is unspecified. The model picks an arbitrary order, and every property of the report is proved for all orders.
- `EnvDiff.DiffSet`: set difference is decided by `eq`, not by the hash-then-`eq` lookup of the Rust `HashSet`. That lookup depends on hash values and tag collisions and cannot be modelled exactly. Its collision-free approximation is `DiffProperties.DiffSetByHash`; see Findings.
- `NameSort.SortByName`: rows are not proved non-decreasing in the five-field derived `Ord`, because `sort` never uses it. Ties between equal names keep the hash-set iteration order, so only the name order and stability are stated.
- `Columns.Pad`: lengths are counted in characters, while Rust counts UTF-8 bytes. The two agree for ASCII text. For non-ASCII text the model does not capture the different column width, nor the panic of `s[0..20]` when byte 20 is not a character boundary.
- `get_tools_core_version` returns a compile-time constant and is not part of this model.
- The import scanner `rs/pipfrez/src/main.rs` is not part of this model. It is a directory walk with hard-coded paths, regular-expression matching, and a call to a library function that `rs/tools_core/src/lib.rs` does not define.

## Findings

| source | as written | input that shows it | evidently intended | confidence | as-written member | corrected member |
|---|---|---|---|---|---|---|
| rs/env_diff/src/main.rs:59-67 | `Hash` feeds `env_name` to the hasher, but `eq` ignores it. `HashSet::difference` between the two environments' sets therefore finds a shared package only on a hash collision, and reports it as a difference | environments `envA` and `envB`, each listing the single line `numpy 1.2.0 build0` | the package is in both environments, so no row is printed | not executed; a 7-bit hash-tag collision (about 1 in 128 per record) would hide it | `DiffProperties.HashedDiffReportsSharedPackage` | `DiffProperties.IdenticalListingsPrintNoRows` |
