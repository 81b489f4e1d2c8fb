/** The order in which the size walk meets the entries of a tree, and what a
    fail-fast walk over that order adds up before it stops. This is the
    reference against which the imperative walk in `Aggregate` is proved. */
module Walk {
  import opened FsTree

  /** One observable step of the walk: a regular file's length is added, or a
      lookup or listing fails. */
  datatype Step = Add(len: nat) | Fail(cause: IoError)

  /** How a walk ends: it completes, or it is aborted by the first failure. */
  datatype Outcome = Completed | Aborted(error: IoError)

  /** What a fail-fast walk added to the accumulator, and how it ended. */
  datatype Run = Run(added: nat, outcome: Outcome)

  /** The steps a walk of `e` would meet, in order, if nothing stopped it:
      regular files and failures in depth-first listing order; symbolic links
      and special files produce no step. */
  function Trace(e: Entry): seq<Step>
  {
    match e
    case File(n) => [Add(n)]
    case Dir(cs) => TraceOf(cs)
    case Unreadable(c) => [Fail(c)]
    case Broken(c) => [Fail(c)]
    case _ => []
  }

  /** The steps of a listing: those of each entry, in listing order.
      Unlike `TotalOf` and `FaultyOf`, this peels the LAST entry, so that
      `TraceOf(cs[..i + 1])` unfolds to `TraceOf(cs[..i])` followed by the
      steps of `cs[i]`, the shape of the walk's loop over a listing. */
  function TraceOf(cs: seq<Entry>): seq<Step>
  {
    if cs == [] then [] else TraceOf(cs[..|cs| - 1]) + Trace(cs[|cs| - 1])
  }

  /** Runs a trace fail-fast: lengths are added until the first failure,
      which ends the run; nothing after it is looked at. */
  function Replay(t: seq<Step>): Run
  {
    if t == [] then Run(0, Completed)
    else match t[0]
      case Add(n) =>
        var rest := Replay(t[1..]);
        Run(n + rest.added, rest.outcome)
      case Fail(c) => Run(0, Aborted(c))
  }

  /** The steps of a listing extended by one entry are those of the listing
      followed by those of the entry. */
  lemma TraceOfSnoc(cs: seq<Entry>, e: Entry)
    ensures TraceOf(cs + [e]) == TraceOf(cs) + Trace(e)
  {
  }

  /** The steps of a concatenated listing are those of its two parts. */
  lemma {:induction false} TraceOfAppend(a: seq<Entry>, b: seq<Entry>)
    ensures TraceOf(a + b) == TraceOf(a) + TraceOf(b)
    decreases |b|
  {
    if b == [] {
      assert a + b == a;
    } else {
      var init, last := b[..|b| - 1], b[|b| - 1];
      assert a + b == (a + init) + [last];
      assert b == init + [last];
      TraceOfAppend(a, init);
      TraceOfSnoc(a + init, last);
      TraceOfSnoc(init, last);
    }
  }

  /** The fail-fast run of an entry the walk does not descend into. */
  lemma ReplayLeaf(e: Entry)
    requires !e.Descends()
    ensures e.File? ==> Replay(Trace(e)) == Run(e.len, Completed)
    ensures e.Broken? ==> Replay(Trace(e)) == Run(0, Aborted(e.cause))
    ensures e.Ignored() ==> Replay(Trace(e)) == Run(0, Completed)
  {
    if e.File? {
      assert Replay([Add(e.len)][1..]) == Run(0, Completed);
    }
  }

  /** Extending a completed walk of the first `i` entries of a listing by
      entry `i`: the additions of both are kept and the entry's outcome is
      the outcome. */
  lemma ReplayExtend(cs: seq<Entry>, i: nat)
    requires i < |cs|
    requires Replay(TraceOf(cs[..i])).outcome.Completed?
    ensures Replay(TraceOf(cs[..i + 1]))
      == Run(Replay(TraceOf(cs[..i])).added + Replay(Trace(cs[i])).added, Replay(Trace(cs[i])).outcome)
  {
    assert cs[..i + 1] == cs[..i] + [cs[i]];
    TraceOfSnoc(cs[..i], cs[i]);
    ReplayAppend(TraceOf(cs[..i]), Trace(cs[i]));
  }

  /** Once the walk of the first `k` entries of a listing has aborted, the
      walk of the whole listing ends the same way: later entries are not
      visited and add nothing. */
  lemma {:induction false} AbortedPrefix(cs: seq<Entry>, k: nat)
    requires k <= |cs|
    requires Replay(TraceOf(cs[..k])).outcome.Aborted?
    ensures Replay(TraceOf(cs)) == Replay(TraceOf(cs[..k]))
  {
    assert cs == cs[..k] + cs[k..];
    TraceOfAppend(cs[..k], cs[k..]);
    ReplayAppend(TraceOf(cs[..k]), TraceOf(cs[k..]));
  }

  /** Running two traces back to back: the second runs only if the first
      completed, and then the additions of both are kept. */
  lemma {:induction false} ReplayAppend(t1: seq<Step>, t2: seq<Step>)
    ensures Replay(t1).outcome.Completed? ==>
      Replay(t1 + t2) == Run(Replay(t1).added + Replay(t2).added, Replay(t2).outcome)
    ensures Replay(t1).outcome.Aborted? ==> Replay(t1 + t2) == Replay(t1)
    decreases |t1|
  {
    if t1 == [] {
      assert t1 + t2 == t2;
    } else {
      assert (t1 + t2)[0] == t1[0];
      assert (t1 + t2)[1..] == t1[1..] + t2;
      ReplayAppend(t1[1..], t2);
    }
  }

  /** The fail-fast run of `e` completes exactly when no failure is
      reachable; a completed run has added the whole total; any run has
      added at most the total. */
  lemma {:induction false} ReplayTrace(e: Entry)
    ensures Replay(Trace(e)).outcome.Completed? <==> !Faulty(e)
    ensures Replay(Trace(e)).outcome.Completed? ==> Replay(Trace(e)).added == Total(e)
    ensures Replay(Trace(e)).added <= Total(e)
    decreases e, 1
  {
    match e
    case File(n) =>
      assert Replay([Add(n)][1..]) == Run(0, Completed);
    case Dir(cs) =>
      ReplayTraceOf(cs);
    case Symlink =>
    case Special =>
    case Unreadable(c) =>
    case Broken(c) =>
  }

  /** `ReplayTrace` for a listing. */
  lemma {:induction false} ReplayTraceOf(cs: seq<Entry>)
    ensures Replay(TraceOf(cs)).outcome.Completed? <==> !FaultyOf(cs)
    ensures Replay(TraceOf(cs)).outcome.Completed? ==> Replay(TraceOf(cs)).added == TotalOf(cs)
    ensures Replay(TraceOf(cs)).added <= TotalOf(cs)
    decreases cs, 0
  {
    if cs != [] {
      var init, last := cs[..|cs| - 1], cs[|cs| - 1];
      assert cs == init + [last];
      ReplayTraceOf(init);
      ReplayTrace(last);
      ReplayAppend(TraceOf(init), Trace(last));
      TotalOfAppend(init, [last]);
      FaultyOfAppend(init, [last]);
      assert TotalOf([last]) == Total(last) by {
        assert [last][1..] == [];
      }
      assert FaultyOf([last]) == Faulty(last) by {
        assert [last][1..] == [];
      }
    }
  }

  /** Sum of the lengths of all `Add` steps of a trace. */
  function AddsOf(t: seq<Step>): nat
  {
    if t == [] then 0 else (if t[0].Add? then t[0].len else 0) + AddsOf(t[1..])
  }

  /** A declarative reading of `Replay`: the run completes exactly when the
      trace holds no failure, and then adds every length; otherwise it ends
      with the cause of the FIRST failure and has added exactly the lengths
      before it. */
  lemma {:induction false} ReplayFirstFailure(t: seq<Step>)
    ensures Replay(t).outcome.Completed? <==> forall j :: 0 <= j < |t| ==> t[j].Add?
    ensures Replay(t).outcome.Completed? ==> Replay(t).added == AddsOf(t)
    ensures Replay(t).outcome.Aborted? ==>
      exists k :: 0 <= k < |t| && t[k] == Fail(Replay(t).outcome.error)
        && (forall j :: 0 <= j < k ==> t[j].Add?)
        && Replay(t).added == AddsOf(t[..k])
    decreases |t|
  {
    if t != [] {
      ReplayFirstFailure(t[1..]);
      var rest := Replay(t[1..]);
      match t[0]
      case Fail(c) =>
        assert t[..0] == [];
      case Add(n) =>
        if rest.outcome.Completed? {
          forall j | 0 <= j < |t|
            ensures t[j].Add?
          {
            if j > 0 {
              assert t[j] == t[1..][j - 1];
            }
          }
        } else {
          var k :| 0 <= k < |t[1..]| && t[1..][k] == Fail(rest.outcome.error)
            && (forall j :: 0 <= j < k ==> t[1..][j].Add?)
            && rest.added == AddsOf(t[1..][..k]);
          assert t[..k + 1][1..] == t[1..][..k];
          assert t[k + 1] == Fail(Replay(t).outcome.error);
          forall j | 0 <= j < k + 1
            ensures t[j].Add?
          {
            if j > 0 {
              assert t[j] == t[1..][j - 1];
            }
          }
        }
        if exists j :: 0 <= j < |t| && !t[j].Add? {
          var j :| 0 <= j < |t| && !t[j].Add?;
          assert !t[1..][j - 1].Add?;
        }
    }
  }

  /** A symbolic link or special file inserted anywhere in a listing is
      invisible to the walk: it is never descended into, adds nothing and
      cannot fail. */
  lemma IgnoredEntryInvisible(cs: seq<Entry>, i: nat, x: Entry)
    requires i <= |cs|
    requires x.Ignored()
    ensures Trace(Dir(cs[..i] + [x] + cs[i..])) == Trace(Dir(cs))
  {
    TraceOfAppend(cs[..i] + [x], cs[i..]);
    TraceOfSnoc(cs[..i], x);
    TraceOfAppend(cs[..i], cs[i..]);
    assert cs[..i] + cs[i..] == cs;
  }

  /** Wrapping a tree in one more directory does not change the walk. */
  lemma NestingTransparent(e: Entry)
    ensures Trace(Dir([e])) == Trace(e)
  {
    TraceOfSnoc([], e);
    assert [] + [e] == [e];
  }
}
