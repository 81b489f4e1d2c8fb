/** Concrete trees worked through the model. */
module Scenarios {
  import opened FsTree
  import opened Walk
  import opened Units

  /** A directory with files of 500 and 600 bytes, a subdirectory holding a
      2000-byte file, and a symbolic link: the link adds nothing and the
      walk completes with 3100 bytes. */
  lemma MixedTree()
    ensures var d := Dir([File(500), File(600), Dir([File(2000)]), Symlink]);
      && !Faulty(d)
      && Total(d) == 3100
      && Replay(Trace(d)) == Run(3100, Completed)
  {
    var sub := Dir([File(2000)]);
    var d := Dir([File(500), File(600), sub, Symlink]);
    OfCons(File(2000), []);
    assert [File(2000)] == [File(2000)] + [];
    OfCons(Symlink, []);
    assert [Symlink] == [Symlink] + [];
    OfCons(sub, [Symlink]);
    assert [sub, Symlink] == [sub] + [Symlink];
    OfCons(File(600), [sub, Symlink]);
    assert [File(600), sub, Symlink] == [File(600)] + [sub, Symlink];
    OfCons(File(500), [File(600), sub, Symlink]);
    assert d.children == [File(500)] + [File(600), sub, Symlink];
    ReplayTrace(d);
  }

  /** Unit choices at and around the thresholds, and for the 3100 bytes of
      `MixedTree` (about 3.03 KB). */
  lemma UnitExamples()
    ensures NewSizeWithUnit(0) == SizeWithUnit(0.0, B)
    ensures NewSizeWithUnit(1023) == SizeWithUnit(1023.0, B)
    ensures NewSizeWithUnit(1024) == SizeWithUnit(1.0, KB)
    ensures NewSizeWithUnit(0x10_0000 - 1).unit == KB
    ensures NewSizeWithUnit(0x10_0000) == SizeWithUnit(1.0, MB)
    ensures NewSizeWithUnit(3100) == SizeWithUnit(3100.0 / 1024.0, KB)
  {
  }

  /** A failure between two files: the first file's length stays added,
      the failure's cause is reported, and the later file is not visited. */
  lemma FailFastKeepsPartialSum(c: IoError)
    ensures Replay(Trace(Dir([File(5), Broken(c), File(7)]))) == Run(5, Aborted(c))
  {
    var cs := [File(5), Broken(c), File(7)];
    assert cs[..1] == [File(5)];
    TraceOfSnoc([], File(5));
    assert [] + [File(5)] == [File(5)];
    assert Replay(TraceOf(cs[..1])) == Run(5, Completed) by {
      assert TraceOf(cs[..1]) == [Add(5)];
      assert Replay([Add(5)][1..]) == Run(0, Completed);
    }
    assert cs[..2] == [File(5)] + [Broken(c)];
    TraceOfSnoc([File(5)], Broken(c));
    ReplayAppend([Add(5)], [Fail(c)]);
    AbortedPrefix(cs, 2);
  }
}
