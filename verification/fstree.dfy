/** An abstract filesystem subtree, as the size aggregator of `dirstat` sees it
    through metadata lookups and directory listings, with the structural
    (declarative) meaning of "total size" and "the walk can fail". */
module FsTree {

  /** The cause carried by a failed metadata lookup or directory read
      (an operating-system error code; its contents are never inspected). */
  datatype IoError = IoError(code: nat)

  /** One entry of the tree, classified the way its metadata classifies it.
      - `File`: a regular file; `len` is the length its metadata reports.
      - `Dir`: a directory that is not a symbolic link, with its listing.
      - `Symlink`: a symbolic link, to anything, as a directory entry's own
        metadata reports it (src/main.rs:119 does not follow links); never
        followed. The lookup of the top entry (src/main.rs:106) follows
        links, so it classifies a top-level link by its target and never
        yields `Symlink`.
      - `Special`: a device, socket or FIFO; neither file nor directory.
      - `Unreadable`: a directory whose listing fails with `cause`.
      - `Broken`: an entry whose directory-entry read or metadata lookup
        fails with `cause`. */
  datatype Entry =
    | File(len: nat)
    | Dir(children: seq<Entry>)
    | Symlink
    | Special
    | Unreadable(cause: IoError)
    | Broken(cause: IoError)
  {
    /** The metadata says "directory and not a symbolic link": the walk descends. */
    predicate Descends() {
      Dir? || Unreadable?
    }

    /** The entry is skipped silently: neither a regular file nor a directory. */
    predicate Ignored() {
      Symlink? || Special?
    }
  }

  /** Sum of the lengths of all regular files reachable from `e` through
      directories, ignoring any failure on the way. */
  function Total(e: Entry): nat
  {
    match e
    case File(n) => n
    case Dir(cs) => TotalOf(cs)
    case _ => 0
  }

  /** `Total` summed over a listing, front to back. */
  function TotalOf(cs: seq<Entry>): nat
  {
    if cs == [] then 0 else Total(cs[0]) + TotalOf(cs[1..])
  }

  /** Some failing lookup or listing is reachable from `e`. */
  predicate Faulty(e: Entry)
  {
    match e
    case Dir(cs) => FaultyOf(cs)
    case Unreadable(_) => true
    case Broken(_) => true
    case _ => false
  }

  /** `Faulty` for some entry of a listing. */
  predicate FaultyOf(cs: seq<Entry>)
  {
    cs != [] && (Faulty(cs[0]) || FaultyOf(cs[1..]))
  }

  /** The total of a concatenated listing is the sum of the two totals. */
  lemma {:induction false} TotalOfAppend(a: seq<Entry>, b: seq<Entry>)
    ensures TotalOf(a + b) == TotalOf(a) + TotalOf(b)
    decreases |a|
  {
    if a == [] {
      assert a + b == b;
    } else {
      assert (a + b)[1..] == a[1..] + b;
      TotalOfAppend(a[1..], b);
    }
  }

  /** A concatenated listing is faulty exactly when one of its parts is. */
  lemma {:induction false} FaultyOfAppend(a: seq<Entry>, b: seq<Entry>)
    ensures FaultyOf(a + b) <==> FaultyOf(a) || FaultyOf(b)
    decreases |a|
  {
    if a == [] {
      assert a + b == b;
    } else {
      assert (a + b)[1..] == a[1..] + b;
      FaultyOfAppend(a[1..], b);
    }
  }

  /** Total and faultiness of a listing with one entry in front. */
  lemma OfCons(x: Entry, cs: seq<Entry>)
    ensures TotalOf([x] + cs) == Total(x) + TotalOf(cs)
    ensures FaultyOf([x] + cs) <==> Faulty(x) || FaultyOf(cs)
  {
    assert ([x] + cs)[1..] == cs;
  }

  /** A listing is faulty exactly when one of its entries is. */
  lemma {:induction false} FaultyOfSome(cs: seq<Entry>)
    ensures FaultyOf(cs) <==> exists i :: 0 <= i < |cs| && Faulty(cs[i])
    decreases |cs|
  {
    if cs != [] {
      FaultyOfSome(cs[1..]);
      if FaultyOf(cs[1..]) {
        var i :| 0 <= i < |cs[1..]| && Faulty(cs[1..][i]);
        assert Faulty(cs[i + 1]);
      }
      if exists i :: 0 <= i < |cs| && Faulty(cs[i]) {
        var i :| 0 <= i < |cs| && Faulty(cs[i]);
        if i > 0 {
          assert Faulty(cs[1..][i - 1]);
        }
      }
    }
  }
}
