/** The size aggregator of `dirstat`: a `Stats` accumulator and the
    recursive walk that adds the length of every regular file to it. The
    walk is fail-fast: the first failing lookup or listing ends it, and what
    was already added stays added. */
module Aggregate {
  import opened FsTree
  import opened Walk

  /** The accumulator: total size, in bytes, of the files visited so far. */
  datatype Stats = Stats(size: nat)

  /** A fresh accumulator. */
  function NewStats(): Stats
  {
    Stats(0)
  }

  /** Adds the length reported by a regular file's metadata: exactly what
      the walk of that file adds, and the file's whole total. */
  function CollectMeta(stats: Stats, len: nat): (r: Stats)
    ensures r.size == stats.size + Replay(Trace(File(len))).added
    ensures r.size == stats.size + Total(File(len))
    ensures stats.size <= r.size
  {
    ReplayLeaf(File(len));
    Stats(stats.size + len)
  }

  /** Walks the entry at the top of the tree: a failing lookup aborts, a
      regular file is added, a directory (not a symbolic link) is walked,
      and anything else is left alone. `e` is classified by the lookup at
      the top, which follows symbolic links: a top-level link arrives here
      as the kind of its target, so the `Ignored` clause below concerns a
      special file there (a `Symlink` top entry does not arise). */
  method Collect(stats: Stats, e: Entry) returns (after: Stats, outcome: Outcome)
    ensures after.size == stats.size + Replay(Trace(e)).added
    ensures outcome == Replay(Trace(e)).outcome
    ensures outcome.Completed? <==> !Faulty(e)
    ensures outcome.Completed? ==> after.size == stats.size + Total(e)
    ensures stats.size <= after.size <= stats.size + Total(e)
    ensures e.File? ==> outcome.Completed? && after.size == stats.size + e.len
    ensures e.Ignored() ==> outcome.Completed? && after == stats
  {
    ReplayTrace(e);
    if e.Broken? {
      return stats, Aborted(e.cause);
    }
    after := stats;
    if e.File? {
      ReplayLeaf(e);
      after := CollectMeta(after, e.len);
    }
    if e.Descends() {
      var r;
      after, r := CollectDir(after, e);
      if r.Aborted? {
        return after, r;
      }
    }
    outcome := Completed;
  }

  /** Walks a directory: an unreadable listing aborts; otherwise each entry
      in listing order is handled by `CollectEntry`, and the first failure,
      here or below, aborts without visiting later entries. */
  method CollectDir(stats: Stats, d: Entry) returns (after: Stats, outcome: Outcome)
    requires d.Descends()
    ensures after.size == stats.size + Replay(Trace(d)).added
    ensures outcome == Replay(Trace(d)).outcome
    decreases d, 0
  {
    if d.Unreadable? {
      return stats, Aborted(d.cause);
    }
    var cs := d.children;
    after := stats;
    var i := 0;
    while i < |cs|
      invariant 0 <= i <= |cs|
      invariant after.size == stats.size + Replay(TraceOf(cs[..i])).added
      invariant Replay(TraceOf(cs[..i])).outcome.Completed?
    {
      ReplayExtend(cs, i);
      var r;
      after, r := CollectEntry(after, cs[i]);
      if r.Aborted? {
        AbortedPrefix(cs, i + 1);
        return after, r;
      }
      i := i + 1;
    }
    assert cs[..|cs|] == cs;
    outcome := Completed;
  }

  /** One pass of the loop over a listing: the entry's own lookup (which
      does not follow symbolic links) fails and aborts, or a regular file is
      added, or a directory that is not a symbolic link is walked, and
      anything else is left alone. */
  method CollectEntry(stats: Stats, inner: Entry) returns (after: Stats, outcome: Outcome)
    ensures after.size == stats.size + Replay(Trace(inner)).added
    ensures outcome == Replay(Trace(inner)).outcome
    decreases inner, 1
  {
    if !inner.Descends() {
      ReplayLeaf(inner);
    }
    if inner.Broken? {
      return stats, Aborted(inner.cause);
    }
    after := stats;
    if inner.File? {
      after := CollectMeta(after, inner.len);
    }
    if inner.Descends() {
      after, outcome := CollectDir(after, inner);
      return;
    }
    outcome := Completed;
  }

  /** A fresh accumulator followed by a walk: on success the accumulator
      holds exactly the total size of the tree. */
  method Measure(e: Entry) returns (stats: Stats, outcome: Outcome)
    ensures outcome.Completed? <==> !Faulty(e)
    ensures outcome.Completed? ==> stats.size == Total(e)
    ensures outcome.Aborted? ==> stats.size == Replay(Trace(e)).added
  {
    stats, outcome := Collect(NewStats(), e);
  }
}
