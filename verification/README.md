# dirstat size aggregation and unit selection, in Dafny

`dirstat` prints the total byte size of a file or directory tree, either as a
raw count or in a human-readable unit. This project models its two pieces of
logic from `src/main.rs`:

- **the aggregator** (`Stats::new`, `collect`, `collect_dir`, `collect_meta`):
  a recursive, fail-fast walk that adds the metadata length of every regular
  file reachable through directories that are not symbolic links into a
  `Stats` accumulator;
- **the formatter's unit choice** (`SizeWithUnit::new`, `SizeUnit`, the
  suffix match in `fmt`): the unit B, KB, MB, GB or TB picked for a byte
  count by ascending power-of-1024 thresholds, and its suffix.

The filesystem is replaced by an immutable tree (`FsTree.Entry`): regular
files with a length, directories with their listing, symbolic links,
special files (devices, sockets, FIFOs), directories whose listing fails
(`Unreadable`) and entries whose directory-entry read or metadata lookup
fails (`Broken`). Each carries the kind its metadata reports.

Files and modules:

- `fstree.dfy` (`FsTree`): the entry tree, and the declarative `Total`
  (sum of reachable file lengths) and `Faulty` (a failure is reachable).
- `walk.dfy` (`Walk`): `Trace`, the steps the walk meets in order (a file's
  length is added, or a lookup fails), and `Replay`, which runs a trace
  fail-fast. This is the reference the imperative walk is proved against,
  and it is connected to `Total`/`Faulty` by lemmas.
- `aggregate.dfy` (`Aggregate`): the `Stats` accumulator, `NewStats`
  (`Stats::new`), `CollectMeta` (`collect_meta`) and the methods `Collect`
  / `CollectDir`, which mirror `collect` / `collect_dir` statement by
  statement: a mutable accumulator, a loop over the listing, and an early
  return on the first error. `CollectEntry` is the body of that loop.
- `reorder.dfy` (`Reorder`): reordering the listings of any directories,
  at any depth, changes neither the total nor whether the walk fails.
- `units.dfy` (`Units`): unit selection, divisors and suffixes.
- `scenarios.dfy` (`Scenarios`): concrete trees and byte counts worked through the model.

## Model

| member | source | states |
|---|---|---|
| Aggregate.Collect | src/main.rs:105-114 | Starting from any accumulator, the walk of the top entry adds exactly what a fail-fast run over the entries in listing order adds, and it ends with that run's outcome. It completes exactly when no failing lookup or listing is reachable, and then it has added the total of all reachable file lengths. The accumulator never decreases and never exceeds the initial value plus the total. A regular file adds exactly its length. A special file leaves the accumulator unchanged. The top entry is classified by a lookup that follows symbolic links, so a top-level link is walked as its target. |
| Aggregate.CollectDir | src/main.rs:116-128 | Walking a directory adds what the fail-fast run over its listing adds and ends with that run's outcome. An unreadable listing aborts before anything is added. The first failing entry or subdirectory aborts the walk, later siblings are not visited, and additions already made are kept. |
| Aggregate.CollectEntry | src/main.rs:118-125 | One entry of a listing adds exactly what the fail-fast run over its steps adds and ends with that run's outcome. A failing entry or lookup aborts without adding. A regular file adds its length. A directory is walked. A symbolic link or special file adds nothing. |
| Aggregate.CollectMeta | src/main.rs:130-132 | Adding a regular file's metadata length adds exactly what the walk of that file adds, which is the file's whole total, and never decreases the accumulator. |
| Aggregate.Measure | src/main.rs:100-103 | A fresh accumulator starts at 0. After a successful walk it holds exactly the total size of the tree. After a failed walk it holds what was added before the failure. The walk succeeds exactly when no failure is reachable. |
| Walk.ReplayTrace | src/main.rs:105-132 | Over the entries in walk order, the fail-fast run completes exactly when the tree has no reachable failure. A completed run has added the structural total. Any run adds at most that total. |
| Walk.ReplayFirstFailure | src/main.rs:117-124 | A fail-fast run completes exactly when its steps contain no failure, and then it adds every length. Otherwise it reports the cause of the first failure and has added exactly the lengths before it. |
| Walk.AbortedPrefix | src/main.rs:117-126 | Once the walk of the first k entries of a listing has aborted, the walk of the whole listing ends identically. Later entries add nothing and their failures are not reported. |
| Walk.IgnoredEntryInvisible | src/main.rs:119-125 | A symbolic link or special file inserted anywhere in a listing leaves the sequence of steps the walk meets unchanged. It is not descended into, adds nothing and cannot fail. |
| Walk.NestingTransparent | src/main.rs:123-124 | Wrapping a tree in one more directory does not change the steps the walk meets. |
| Reorder.ReorderedKeepsTotal | src/main.rs:117-126 | Listing the entries of any directories of a tree, at any depth, in another order preserves the total and whether a failure is reachable. |
| Reorder.PermutationIsReordering | src/main.rs:117 | Any listing of the same multiset of entries of a directory is a reordering in that sense. |
| Reorder.ReorderedWalk | src/main.rs:117-126 | For two reorderings of one tree, the walk completes for both or aborts for both. When it completes it adds the same amount. |
| Units.NewSizeWithUnit | src/main.rs:62-78 | The chosen unit, of rank k (B = 0 up to TB = 4), fits the count: 1024^k <= bytes unless the unit is B, and bytes < 1024^(k+1) unless the unit is TB. The scaled value times the divisor is the count. Under B the value is the raw count. Under any other unit it is at least 1. Under any unit but TB it is below 1024. |
| Units.FitsExactlyChosen | src/main.rs:63-77 | For every byte count exactly one unit fits, and it is the unit chosen. B is chosen exactly below 1024. The unit with divisor 1024^k (k = 1..3) is chosen exactly when 1024^k <= bytes < 1024^(k+1). TB is chosen for every count of at least 2^40. |
| Units.DivisorIsPower | src/main.rs:66-75 | The divisors written as shifts (1<<10, 1<<20, 1<<30, 1<<40) are 1024 to the power of the unit's rank, and 1024 times each is the next power. |
| Units.UnitMonotone | src/main.rs:63-77 | A larger byte count never gets a smaller unit. |
| Units.SuffixInjective | src/main.rs:50-56 | The five units print five different suffixes. |
| Scenarios.MixedTree | src/main.rs:116-128 | A directory with files of 500 and 600 bytes, a subdirectory with a 2000-byte file and a symbolic link has no reachable failure, totals 3100 bytes, and the walk completes having added 3100. |
| Scenarios.UnitExamples | src/main.rs:63-69 | 0 and 1023 bytes stay unscaled in B; 1024 is 1 KB; 1048575 is still KB; 1048576 is 1 MB; 3100 bytes is 3100/1024 KB. |
| Scenarios.FailFastKeepsPartialSum | src/main.rs:117-124 | In the listing [5-byte file, failing entry, 7-byte file] the walk keeps the 5 bytes, reports the failure's cause, and never reaches the 7-byte file. |

## Left out

- Command-line parsing, printing and the `unwrap` panic in `main` (src/main.rs:21-40) are I/O glue. `Aggregate.Measure` stands for the `Stats::new()` plus `collect` pair that `main` performs.
- `NewStats` (`Stats::new`, src/main.rs:101-103) carries no contract of its own: that a fresh accumulator starts at 0 is stated by `Aggregate.Measure`.
- `Default for Stats` (src/main.rs:94-98) only calls `Stats::new`, so it is not modelled separately.
- `fs::metadata`, `fs::read_dir` and `DirEntry::metadata` are foreign calls. They are abstracted into the entry kinds of `FsTree.Entry`, with `Unreadable` and `Broken` standing for their failures. The error is an opaque `IoError` cause.
- Top-level symbolic links: `fs::metadata` (src/main.rs:106) follows links, while `DirEntry::metadata` (src/main.rs:119) does not. The model takes the top entry's kind as given. It makes no claim that a real top-level symbolic link yields 0.
- Aggregate.Collect: the accumulator is an unbounded `nat`. A `u64` overflow of `self.size +=` (src/main.rs:131), which panics or wraps depending on the build, is not modelled.
- Units.NewSizeWithUnit: the scaled value is the exact rational quotient, not the rounded `f64` value. The `{:.2}` rendering (src/main.rs:57) is not modelled, so its rounding edge cases (for example, 1048575 bytes prints as 1024.00KB) are outside the model. The byte count is a `nat`. Unit selection does not depend on the `u64` bound.
- Changes to the tree made concurrently with the walk are not modelled. The program makes no promise about them.
