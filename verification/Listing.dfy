/** Directory listings kept between walks, and trusted while a directory's own stamp has not moved. */
module Listing {
  import opened Cursors
  import opened Sorting
  import opened Text

  /** How much older than the walk's newest directory a listing must be to be trusted, in nanoseconds. */
  const RACY_MARGIN: nat := 2_000_000_000

  type Path = string

  datatype Entries = Entries(subdirs: seq<Path>, segments: seq<Cursor>)

  /** A directory as the filesystem holds it. */
  datatype Directory = Directory(entries: Entries, modified: nat)

  datatype Listed = Listed(modified: nat, trusted: bool, entries: Entries)

  type Tree = map<Path, Directory>
  type Cache = map<Path, Listed>

  // ---- the cache as a value ---------------------------------------------------------------------

  function Hit(cache: Cache, dir: Path, modified: nat): Option<Entries> {
    if dir in cache && cache[dir].trusted && cache[dir].modified == modified then Some(cache[dir].entries) else None
  }

  function Newest(seen: seq<(Path, nat)>): (newest: nat)
    requires seen != []
    ensures exists i :: 0 <= i < |seen| && seen[i].1 == newest
    ensures forall i :: 0 <= i < |seen| ==> seen[i].1 <= newest
  {
    if |seen| == 1 then seen[0].1
    else
      var before := Newest(seen[..|seen| - 1]);
      var last := seen[|seen| - 1].1;
      assert forall i :: 0 <= i < |seen| - 1 ==> seen[..|seen| - 1][i] == seen[i];
      if last > before then last else before
  }

  /** A walk's own listing of one directory is trusted when its stamp is older than the newest by the margin. */
  function SettledOne(cache: Cache, dir: Path, modified: nat, newest: nat): Cache {
    if dir in cache && cache[dir].modified == modified
    then cache[dir := cache[dir].(trusted := modified + RACY_MARGIN < newest)]
    else cache
  }

  function SettledEach(cache: Cache, seen: seq<(Path, nat)>, newest: nat): Cache {
    if seen == [] then cache
    else
      var last := seen[|seen| - 1];
      SettledOne(SettledEach(cache, seen[..|seen| - 1], newest), last.0, last.1, newest)
  }

  function Settled(cache: Cache, seen: seq<(Path, nat)>): Cache {
    if seen == [] then cache else SettledEach(cache, seen, Newest(seen))
  }

  // ---- one walk of a tree that holds still -----------------------------------------------------------

  /** Subdirectories lie below their directory, and no path is longer than the deepest. */
  predicate Nested(tree: Tree, deepest: nat) {
    forall d :: d in tree ==> |d| <= deepest && forall i :: 0 <= i < |tree[d].entries.subdirs| ==> |tree[d].entries.subdirs[i]| > |d|
  }

  datatype Found = Found(dir: Path, segments: seq<Cursor>)

  function FoundIn(dir: Path, segments: seq<Cursor>): seq<Found> {
    if segments == [] then [] else [Found(dir, segments)]
  }

  /** Every partition at and under a directory that holds a segment, reading everything. */
  function FreshWalk(tree: Tree, deepest: nat, dir: Path): seq<Found>
    requires Nested(tree, deepest)
    decreases if |dir| <= deepest then deepest - |dir| + 1 else 0, 0
  {
    if dir !in tree then []
    else FoundIn(dir, tree[dir].entries.segments) + FreshWalks(tree, deepest, tree[dir].entries.subdirs, |dir|)
  }

  function FreshWalks(tree: Tree, deepest: nat, dirs: seq<Path>, above: nat): seq<Found>
    requires Nested(tree, deepest) && above <= deepest && forall i :: 0 <= i < |dirs| ==> |dirs[i]| > above
    decreases deepest - above, |dirs| + 1
  {
    if dirs == [] then []
    else FreshWalks(tree, deepest, dirs[..|dirs| - 1], above) + FreshWalk(tree, deepest, dirs[|dirs| - 1])
  }

  /** The directories a walk asks the stamp of, with what it was told. */
  function Visited(tree: Tree, deepest: nat, dir: Path): seq<(Path, nat)>
    requires Nested(tree, deepest)
    decreases if |dir| <= deepest then deepest - |dir| + 1 else 0, 0
  {
    if dir !in tree then []
    else [(dir, tree[dir].modified)] + VisitedEach(tree, deepest, tree[dir].entries.subdirs, |dir|)
  }

  function VisitedEach(tree: Tree, deepest: nat, dirs: seq<Path>, above: nat): seq<(Path, nat)>
    requires Nested(tree, deepest) && above <= deepest && forall i :: 0 <= i < |dirs| ==> |dirs[i]| > above
    decreases deepest - above, |dirs| + 1
  {
    if dirs == [] then []
    else VisitedEach(tree, deepest, dirs[..|dirs| - 1], above) + Visited(tree, deepest, dirs[|dirs| - 1])
  }

  lemma WalkOfOne(tree: Tree, deepest: nat, dir: Path)
    requires Nested(tree, deepest) && dir in tree
    ensures var entries := tree[dir].entries;
            && FreshWalk(tree, deepest, dir) == FoundIn(dir, entries.segments) + FreshWalks(tree, deepest, entries.subdirs, |dir|)
            && Visited(tree, deepest, dir) == [(dir, tree[dir].modified)] + VisitedEach(tree, deepest, entries.subdirs, |dir|)
  {
  }

  // ---- what there is to find, said without a walk ------------------------------------------------------

  /** Directories, each naming the next, lead from one to another. */
  ghost predicate Reaches(tree: Tree, deepest: nat, from: Path, to: Path)
    requires Nested(tree, deepest)
    decreases if |from| <= deepest then deepest - |from| + 1 else 0
  {
    from == to || (from in tree && exists below :: below in tree[from].entries.subdirs && Reaches(tree, deepest, below, to))
  }

  /** In how many ways they do. */
  function WaysTo(tree: Tree, deepest: nat, from: Path, to: Path): nat
    requires Nested(tree, deepest)
    decreases if |from| <= deepest then deepest - |from| + 1 else 0, 0
  {
    (if from == to then 1 else 0)
    + if from in tree then WaysThrough(tree, deepest, tree[from].entries.subdirs, |from|, to) else 0
  }

  function WaysThrough(tree: Tree, deepest: nat, dirs: seq<Path>, above: nat, to: Path): nat
    requires Nested(tree, deepest) && above <= deepest && forall i :: 0 <= i < |dirs| ==> |dirs[i]| > above
    decreases deepest - above, |dirs| + 1
  {
    if dirs == [] then 0
    else WaysThrough(tree, deepest, dirs[..|dirs| - 1], above, to) + WaysTo(tree, deepest, dirs[|dirs| - 1], to)
  }

  lemma {:induction false} ReachedIsSomeWay(tree: Tree, deepest: nat, from: Path, to: Path)
    requires Nested(tree, deepest)
    ensures Reaches(tree, deepest, from, to) <==> WaysTo(tree, deepest, from, to) > 0
    decreases if |from| <= deepest then deepest - |from| + 1 else 0, 0
  {
    if from in tree { ReachedThroughSome(tree, deepest, tree[from].entries.subdirs, |from|, to); }
  }

  lemma {:induction false} ReachedThroughSome(tree: Tree, deepest: nat, dirs: seq<Path>, above: nat, to: Path)
    requires Nested(tree, deepest) && above <= deepest && forall i :: 0 <= i < |dirs| ==> |dirs[i]| > above
    ensures (exists below :: below in dirs && Reaches(tree, deepest, below, to)) <==> WaysThrough(tree, deepest, dirs, above, to) > 0
    decreases deepest - above, |dirs| + 1
  {
    if dirs != [] {
      var front, last := dirs[..|dirs| - 1], dirs[|dirs| - 1];
      assert dirs == front + [last];
      ReachedThroughSome(tree, deepest, front, above, to);
      ReachedIsSomeWay(tree, deepest, last, to);
    }
  }

  /** How often a partition is to be answered: once for each way to its directory, where that holds these segments and some. */
  function Answers(tree: Tree, deepest: nat, root: Path, f: Found): nat
    requires Nested(tree, deepest)
  {
    if f.dir in tree && f.segments != [] && f.segments == tree[f.dir].entries.segments then WaysTo(tree, deepest, root, f.dir) else 0
  }

  function AnswersThrough(tree: Tree, deepest: nat, dirs: seq<Path>, above: nat, f: Found): nat
    requires Nested(tree, deepest) && above <= deepest && forall i :: 0 <= i < |dirs| ==> |dirs[i]| > above
  {
    if f.dir in tree && f.segments != [] && f.segments == tree[f.dir].entries.segments
    then WaysThrough(tree, deepest, dirs, above, f.dir) else 0
  }

  lemma CountOfBoth(a: seq<Found>, b: seq<Found>, f: Found)
    ensures multiset(a + b)[f] == multiset(a)[f] + multiset(b)[f]
  {
    assert multiset(a + b) == multiset(a) + multiset(b);
  }

  /** Reading everything finds each directory reached that holds a segment, once for each way it is reached, and nothing else. */
  lemma {:induction false} FreshWalkFindsTheReached(tree: Tree, deepest: nat, dir: Path, f: Found)
    requires Nested(tree, deepest)
    ensures multiset(FreshWalk(tree, deepest, dir))[f] == Answers(tree, deepest, dir, f)
    decreases if |dir| <= deepest then deepest - |dir| + 1 else 0, 0
  {
    if dir in tree {
      var entries := tree[dir].entries;
      FreshWalksFindTheReached(tree, deepest, entries.subdirs, |dir|, f);
      CountOfBoth(FoundIn(dir, entries.segments), FreshWalks(tree, deepest, entries.subdirs, |dir|), f);
    }
  }

  lemma {:induction false} FreshWalksFindTheReached(tree: Tree, deepest: nat, dirs: seq<Path>, above: nat, f: Found)
    requires Nested(tree, deepest) && above <= deepest && forall i :: 0 <= i < |dirs| ==> |dirs[i]| > above
    ensures multiset(FreshWalks(tree, deepest, dirs, above))[f] == AnswersThrough(tree, deepest, dirs, above, f)
    decreases deepest - above, |dirs| + 1
  {
    if dirs != [] {
      var front, last := dirs[..|dirs| - 1], dirs[|dirs| - 1];
      FreshWalksFindTheReached(tree, deepest, front, above, f);
      FreshWalkFindsTheReached(tree, deepest, last, f);
      CountOfBoth(FreshWalks(tree, deepest, front, above), FreshWalk(tree, deepest, last), f);
    }
  }

  /** What is answered, in whatever order: a directory is in it exactly where it is reached and holds segments, and as often. */
  lemma AnsweredExactlyTheReached(tree: Tree, deepest: nat, root: Path, inOrder: (Found, Found) -> bool, f: Found)
    requires Nested(tree, deepest)
    ensures var answer := SortBy(inOrder, FreshWalk(tree, deepest, root));
            && multiset(answer)[f] == Answers(tree, deepest, root, f)
            && (f in answer <==>
                  Reaches(tree, deepest, root, f.dir) && f.dir in tree && f.segments == tree[f.dir].entries.segments && f.segments != [])
  {
    var walked := FreshWalk(tree, deepest, root);
    FreshWalkFindsTheReached(tree, deepest, root, f);
    SortKeeps(inOrder, walked);
    ReachedIsSomeWay(tree, deepest, root, f.dir);
    assert f in walked <==> f in multiset(walked);
  }

  /** Every listing the cache would hand out is the directory's own. */
  predicate Truthful(cache: Cache, tree: Tree) {
    forall d :: d in cache && d in tree && cache[d].trusted && cache[d].modified == tree[d].modified
                ==> cache[d].entries == tree[d].entries
  }

  predicate JustRead(listed: Listed, directory: Directory) {
    listed == Listed(directory.modified, false, directory.entries)
  }

  /** What a walk may do to the cache: read a directory whose listing it could not hand out, and nothing else. */
  predicate OnlyRead(before: Cache, after: Cache, tree: Tree) {
    && (forall d :: d in before ==> d in after)
    && (forall d :: d in after ==> (d in before && after[d] == before[d]) || (d in tree && JustRead(after[d], tree[d])))
    && (forall d :: d in before && d in tree && Hit(before, d, tree[d].modified).Some? ==> after[d] == before[d])
  }

  lemma OnlyReadAgain(before: Cache, between: Cache, after: Cache, tree: Tree)
    requires OnlyRead(before, between, tree) && OnlyRead(between, after, tree)
    ensures OnlyRead(before, after, tree)
  {
  }

  lemma ReadingStaysTruthful(before: Cache, after: Cache, tree: Tree)
    requires Truthful(before, tree) && OnlyRead(before, after, tree)
    ensures Truthful(after, tree)
  {
  }

  /** A listing is handed out while it is trusted and its directory's stamp has not moved. */
  predicate HandsOut(cache: Cache, dir: Path, modified: nat) {
    dir in cache && cache[dir].trusted && modified == cache[dir].modified
  }

  /** Every directory a walk asked the stamp of is listed as of that stamp. */
  predicate AllCurrent(cache: Cache, tree: Tree, seen: seq<(Path, nat)>) {
    forall i :: 0 <= i < |seen| ==>
      seen[i].0 in tree && seen[i].1 == tree[seen[i].0].modified && seen[i].0 in cache && cache[seen[i].0].modified == seen[i].1
  }

  lemma StaysCurrent(before: Cache, after: Cache, tree: Tree, seen: seq<(Path, nat)>)
    requires AllCurrent(before, tree, seen) && OnlyRead(before, after, tree)
    ensures AllCurrent(after, tree, seen)
  {
  }

  lemma {:induction false} VisitedAreReached(tree: Tree, deepest: nat, dir: Path, d: Path)
    requires Nested(tree, deepest)
    ensures (exists m :: (d, m) in Visited(tree, deepest, dir)) <==> Reaches(tree, deepest, dir, d) && d in tree
    ensures forall m :: (d, m) in Visited(tree, deepest, dir) ==> d in tree && m == tree[d].modified
    decreases if |dir| <= deepest then deepest - |dir| + 1 else 0, 0
  {
    if dir in tree {
      VisitedThrough(tree, deepest, tree[dir].entries.subdirs, |dir|, d);
      if dir == d { assert (d, tree[d].modified) in Visited(tree, deepest, dir); }
    }
  }

  lemma {:induction false} VisitedThrough(tree: Tree, deepest: nat, dirs: seq<Path>, above: nat, d: Path)
    requires Nested(tree, deepest) && above <= deepest && forall i :: 0 <= i < |dirs| ==> |dirs[i]| > above
    ensures (exists m :: (d, m) in VisitedEach(tree, deepest, dirs, above)) <==>
              d in tree && exists below :: below in dirs && Reaches(tree, deepest, below, d)
    ensures forall m :: (d, m) in VisitedEach(tree, deepest, dirs, above) ==> d in tree && m == tree[d].modified
    decreases deepest - above, |dirs| + 1
  {
    if dirs != [] {
      var front, last := dirs[..|dirs| - 1], dirs[|dirs| - 1];
      assert dirs == front + [last];
      VisitedThrough(tree, deepest, front, above, d);
      VisitedAreReached(tree, deepest, last, d);
    }
  }

  /** A directory reached was stamped more than two seconds later. */
  ghost predicate MuchNewerReached(tree: Tree, deepest: nat, root: Path, modified: nat)
    requires Nested(tree, deepest)
  {
    exists e :: Reaches(tree, deepest, root, e) && e in tree && tree[e].modified > modified + 2_000_000_000
  }

  lemma {:induction false} SettlingKeepsCurrent(cache: Cache, tree: Tree, seen: seq<(Path, nat)>, newest: nat, d: Path)
    requires AllCurrent(cache, tree, seen)
    ensures var after := SettledEach(cache, seen, newest);
            && (d in after <==> d in cache) && (d in cache ==> after[d].modified == cache[d].modified)
            && (d in cache && (exists m :: (d, m) in seen) ==> after[d].trusted == (cache[d].modified + RACY_MARGIN < newest))
    decreases |seen|
  {
    if seen != [] {
      var front, last := seen[..|seen| - 1], seen[|seen| - 1];
      assert seen == front + [last];
      SettlingKeepsCurrent(cache, tree, front, newest, d);
      SettlingKeepsCurrent(cache, tree, front, newest, last.0);
    }
  }

  /** After a walk of a still tree a directory need not be read next time exactly where one much newer was reached. */
  lemma HandedOutNextTime(tree: Tree, deepest: nat, root: Path, cache: Cache, d: Path)
    requires Nested(tree, deepest) && AllCurrent(cache, tree, Visited(tree, deepest, root))
    requires Reaches(tree, deepest, root, d) && d in tree
    ensures var after := Settled(cache, Visited(tree, deepest, root));
            HandsOut(after, d, tree[d].modified) <==> MuchNewerReached(tree, deepest, root, tree[d].modified)
  {
    var seen := Visited(tree, deepest, root);
    VisitedAreReached(tree, deepest, root, d);
    var m :| (d, m) in seen;
    var newest := Newest(seen);
    SettlingKeepsCurrent(cache, tree, seen, newest, d);
    var i :| 0 <= i < |seen| && seen[i].1 == newest;
    VisitedAreReached(tree, deepest, root, seen[i].0);
    assert (seen[i].0, seen[i].1) in seen;
    if e :| Reaches(tree, deepest, root, e) && e in tree && tree[e].modified > tree[d].modified + 2_000_000_000 {
      VisitedAreReached(tree, deepest, root, e);
      var n :| (e, n) in seen;
      assert n <= newest;
    }
  }

  class ListingCache {
    var dirs: Cache
    var directoryReads: nat

    constructor ()
      ensures dirs == map[] && directoryReads == 0
    {
      dirs, directoryReads := map[], 0;
    }

    /** One directory's listing: handed out while it may be, read where it may not. */
    method ListingOf(tree: Tree, dir: Path) returns (entries: Entries)
      requires dir in tree && Truthful(dirs, tree)
      modifies this
      ensures entries == tree[dir].entries && OnlyRead(old(dirs), dirs, tree)
      ensures directoryReads == old(directoryReads) + if HandsOut(old(dirs), dir, tree[dir].modified) then 0 else 1
      ensures dirs == if HandsOut(old(dirs), dir, tree[dir].modified) then old(dirs)
                      else old(dirs)[dir := Listed(tree[dir].modified, false, entries)]
    {
      var modified := tree[dir].modified;
      var cached := Hit(dirs, dir, modified);
      if cached.Some? { return cached.value; }
      directoryReads := directoryReads + 1;
      entries := tree[dir].entries;
      dirs := dirs[dir := Listed(modified, false, entries)];
    }

    /** What a walk of a tree that holds still finds is what reading every directory finds. */
    method Walk(tree: Tree, deepest: nat, dir: Path) returns (seen: seq<(Path, nat)>, found: seq<Found>)
      requires Nested(tree, deepest) && Truthful(dirs, tree)
      modifies this
      ensures OnlyRead(old(dirs), dirs, tree)
      ensures found == FreshWalk(tree, deepest, dir) && seen == Visited(tree, deepest, dir) && AllCurrent(dirs, tree, seen)
      decreases if |dir| <= deepest then deepest - |dir| + 1 else 0, 0
    {
      if dir !in tree { return [], []; }
      var entries := ListingOf(tree, dir);
      ghost var before := dirs;
      ReadingStaysTruthful(old(dirs), dirs, tree);
      WalkOfOne(tree, deepest, dir);
      seen, found := WalkEach(tree, deepest, entries.subdirs, |dir|);
      OnlyReadAgain(old(dirs), before, dirs, tree);
      StaysCurrent(before, dirs, tree, [(dir, tree[dir].modified)]);
      seen := [(dir, tree[dir].modified)] + seen;
      if entries.segments != [] { found := [Found(dir, entries.segments)] + found; }
    }

    method WalkEach(tree: Tree, deepest: nat, subdirs: seq<Path>, above: nat) returns (seen: seq<(Path, nat)>, found: seq<Found>)
      requires Nested(tree, deepest) && Truthful(dirs, tree)
      requires above <= deepest && forall i :: 0 <= i < |subdirs| ==> |subdirs[i]| > above
      modifies this
      ensures OnlyRead(old(dirs), dirs, tree)
      ensures found == FreshWalks(tree, deepest, subdirs, above) && seen == VisitedEach(tree, deepest, subdirs, above)
      ensures AllCurrent(dirs, tree, seen)
      decreases deepest - above, 1
    {
      seen, found := [], [];
      var i := 0;
      while i < |subdirs|
        invariant 0 <= i <= |subdirs| && OnlyRead(old(dirs), dirs, tree)
        invariant found == FreshWalks(tree, deepest, subdirs[..i], above)
        invariant seen == VisitedEach(tree, deepest, subdirs[..i], above) && AllCurrent(dirs, tree, seen)
      {
        assert subdirs[..i + 1][..i] == subdirs[..i];
        ReadingStaysTruthful(old(dirs), dirs, tree);
        ghost var before := dirs;
        var more, below := Walk(tree, deepest, subdirs[i]);
        OnlyReadAgain(old(dirs), before, dirs, tree);
        StaysCurrent(before, dirs, tree, seen);
        seen, found := seen + more, found + below;
        i := i + 1;
      }
      assert subdirs[..i] == subdirs;
    }

    /** Whether each listing this walk made is to be believed later: its directory must have been still for the margin. */
    method Settle(seen: seq<(Path, nat)>)
      modifies this`dirs
      ensures dirs == Settled(old(dirs), seen)
    {
      if seen == [] { return; }
      var newest, i := seen[0].1, 1;
      assert seen[..1] == [seen[0]];
      while i < |seen|
        invariant 1 <= i <= |seen| && newest == Newest(seen[..i])
      {
        assert seen[..i + 1][..i] == seen[..i];
        if seen[i].1 > newest { newest := seen[i].1; }
        i := i + 1;
      }
      assert seen[..i] == seen;
      i := 0;
      while i < |seen|
        invariant 0 <= i <= |seen| && dirs == SettledEach(old(dirs), seen[..i], newest)
      {
        assert seen[..i + 1][..i] == seen[..i];
        var (dir, modified) := seen[i];
        if dir in dirs && dirs[dir].modified == modified {
          dirs := dirs[dir := dirs[dir].(trusted := modified + RACY_MARGIN < newest)];
        }
        i := i + 1;
      }
      assert seen[..i] == seen;
    }

    /** The partitions of a tree that hold segments, sorted by path. */
    method PartitionsWithSegments(tree: Tree, deepest: nat, root: Path, inOrder: (Found, Found) -> bool) returns (found: seq<Found>)
      requires Nested(tree, deepest) && Truthful(dirs, tree)
      modifies this
      ensures found == SortBy(inOrder, FreshWalk(tree, deepest, root))
      ensures forall f :: multiset(found)[f] == Answers(tree, deepest, root, f)
      ensures TotalOrder(inOrder) ==> Sorted(inOrder, found)
      ensures exists read :: OnlyRead(old(dirs), read, tree) && dirs == Settled(read, Visited(tree, deepest, root))
      ensures forall d :: Reaches(tree, deepest, root, d) && d in tree ==>
                (HandsOut(dirs, d, tree[d].modified) <==> MuchNewerReached(tree, deepest, root, tree[d].modified))
    {
      var seen;
      seen, found := Walk(tree, deepest, root);
      ghost var read := dirs;
      Settle(seen);
      forall d | Reaches(tree, deepest, root, d) && d in tree
        ensures HandsOut(dirs, d, tree[d].modified) <==> MuchNewerReached(tree, deepest, root, tree[d].modified)
      {
        HandedOutNextTime(tree, deepest, root, read, d);
      }
      if TotalOrder(inOrder) { SortBySorts(inOrder, found); }
      forall f ensures multiset(SortBy(inOrder, found))[f] == Answers(tree, deepest, root, f) {
        AnsweredExactlyTheReached(tree, deepest, root, inOrder, f);
      }
      found := SortBy(inOrder, found);
    }
  }

  // ---- walks while the tree changes ----------------------------------------------------------------------

  /** When a cached directory's stamp was asked for, and when its entries were then read. */
  datatype Times = Times(statAt: nat, readAt: nat)

  /** A walk: when it began, when it last asked for a stamp, what it has seen, and a read it still owes. */
  datatype Walking = Walking(began: nat, lastStat: nat, seen: seq<(Path, nat)>, owed: Option<(Path, nat)>)

  datatype World = World(now: nat, tree: Tree, cache: Cache, times: map<Path, Times>, walk: Option<Walking>)

  datatype Action =
    | Wait(nanos: nat)
    | Change(dir: Path, entries: Entries)
    | Vanish(dir: Path)
    | Begin
    | Stat(dir: Path)
    | Read
    | Finish
    | Prune

  /** The filesystem stamps a change with its own clock, rounded down to its tick. */
  function Stamp(now: nat, tick: nat): nat
    requires tick > 0
  {
    now - now % tick
  }

  function Asked(w: World, dir: Path): World
    requires w.walk.Some?
  {
    if dir !in w.tree then w
    else
      var modified, walk := w.tree[dir].modified, w.walk.value;
      w.(walk := Some(walk.(lastStat := w.now, seen := walk.seen + [(dir, modified)],
                            owed := if Hit(w.cache, dir, modified).Some? then None else Some((dir, modified)))))
  }

  function Paid(w: World): World
    requires w.walk.Some? && w.walk.value.owed.Some?
  {
    var (dir, modified) := w.walk.value.owed.value;
    var entries := if dir in w.tree then w.tree[dir].entries else Entries([], []);
    w.(cache := w.cache[dir := Listed(modified, false, entries)],
       times := w.times[dir := Times(w.walk.value.lastStat, w.now)],
       walk := Some(w.walk.value.(owed := None)))
  }

  function Do(w: World, a: Action, tick: nat): World
    requires tick > 0
  {
    match a
    case Wait(nanos) => w.(now := w.now + nanos)
    case Change(dir, entries) => w.(tree := w.tree[dir := Directory(entries, Stamp(w.now, tick))])
    case Vanish(dir) => w.(tree := w.tree - {dir})
    case Begin => if w.walk.None? then w.(walk := Some(Walking(w.now, w.now, [], None))) else w
    case Stat(dir) => if w.walk.Some? && w.walk.value.owed.None? then Asked(w, dir) else w
    case Read => if w.walk.Some? && w.walk.value.owed.Some? then Paid(w) else w
    case Finish => if w.walk.Some? && w.walk.value.owed.None? then w.(cache := Settled(w.cache, w.walk.value.seen), walk := None) else w
    case Prune => w.(cache := map d | d in w.cache && d in w.tree :: w.cache[d])
  }

  /** A walk that asks a directory's stamp goes on to read it exactly where its listing is not handed out. */
  lemma ReadOnlyWhatIsNotHandedOut(w: World, dir: Path, tick: nat)
    requires tick > 0 && w.walk.Some? && w.walk.value.owed.None? && dir in w.tree
    ensures var walk := Do(w, Stat(dir), tick).walk;
            && walk.Some? && walk.value.lastStat == w.now && walk.value.seen == w.walk.value.seen + [(dir, w.tree[dir].modified)]
            && walk.value.owed == if HandsOut(w.cache, dir, w.tree[dir].modified) then None else Some((dir, w.tree[dir].modified))
  {
  }

  /** Pruning keeps the listings of the directories that are still there, and no others. */
  lemma PruningKeepsWhatIsThere(w: World, tick: nat, d: Path)
    requires tick > 0
    ensures var cache := Do(w, Prune, tick).cache;
            (d in cache <==> d in w.cache && d in w.tree) && (d in cache ==> cache[d] == w.cache[d])
  {
  }

  /** The longest a walk may take for its listings to be safe to trust: the whole ticks in the margin. */
  function Safe(tick: nat): nat
    requires tick > 0
  {
    RACY_MARGIN / tick * tick
  }

  predicate Brisk(w: World, a: Action, limit: nat) {
    a.Stat? && w.walk.Some? ==> w.now <= w.walk.value.began + limit
  }

  // ---- ticks ----------------------------------------------------------------------------------------------

  predicate OnTick(x: nat, tick: nat)
    requires tick > 0
  {
    x % tick == 0
  }

  lemma AtLeastOnce(k: int, tick: nat)
    requires k >= 1
    ensures k * tick >= tick
  {
  }

  lemma OnlyNone(k: int, tick: nat)
    requires 0 <= k * tick < tick
    ensures k == 0
  {
    if k >= 1 { AtLeastOnce(k, tick); }
    if k <= -1 { AtLeastOnce(-k, tick); }
  }

  lemma MultiplesOfATick(a: int, tick: nat)
    requires tick > 0
    ensures a * tick % tick == 0
  {
    var q, r := a * tick / tick, a * tick % tick;
    assert (a - q) * tick == a * tick - q * tick == r;
    OnlyNone(a - q, tick);
  }

  lemma TicksAdd(x: nat, y: nat, tick: nat)
    requires tick > 0 && OnTick(x, tick) && OnTick(y, tick)
    ensures OnTick(x + y, tick) && (y >= x ==> OnTick(y - x, tick))
  {
    var (a, b) := (x / tick, y / tick);
    assert x == a * tick && y == b * tick;
    assert x + y == (a + b) * tick && y - x == (b - a) * tick;
    MultiplesOfATick(a + b, tick);
    MultiplesOfATick(b - a, tick);
  }

  /** Two different stamps are a whole tick apart. */
  lemma StampsApart(x: nat, y: nat, tick: nat)
    requires tick > 0 && OnTick(x, tick) && OnTick(y, tick) && x < y
    ensures x + tick <= y
  {
    TicksAdd(x, y, tick);
    var q := (y - x) / tick;
    assert y - x == q * tick;
    if q >= 1 { AtLeastOnce(q, tick); }
  }

  lemma StampIsATick(now: nat, tick: nat)
    requires tick > 0
    ensures Stamp(now, tick) <= now < Stamp(now, tick) + tick && OnTick(Stamp(now, tick), tick)
  {
    assert now - now % tick == (now / tick) * tick;
    MultiplesOfATick(now / tick, tick);
  }

  lemma StampReaches(x: nat, now: nat, tick: nat)
    requires tick > 0 && OnTick(x, tick) && x <= now
    ensures x <= Stamp(now, tick)
  {
    StampIsATick(now, tick);
    if Stamp(now, tick) < x { StampsApart(Stamp(now, tick), x, tick); }
  }

  lemma StampsRise(earlier: nat, later: nat, tick: nat)
    requires tick > 0 && earlier <= later
    ensures Stamp(earlier, tick) <= Stamp(later, tick)
  {
    StampIsATick(earlier, tick);
    StampReaches(Stamp(earlier, tick), later, tick);
  }

  /** Older than the newest by the margin, in a walk no longer than the whole ticks of it: stamped a tick before it was asked. */
  lemma TrustedWasOld(modified: nat, newest: nat, began: nat, lastStat: nat, statAt: nat, tick: nat)
    requires tick > 0 && OnTick(modified, tick) && OnTick(newest, tick)
    requires modified + RACY_MARGIN < newest <= Stamp(lastStat, tick) && began <= statAt && lastStat <= began + Safe(tick)
    ensures modified < Stamp(statAt, tick)
  {
    MultiplesOfATick(RACY_MARGIN / tick, tick);
    assert Safe(tick) <= RACY_MARGIN;
    TicksAdd(modified, Safe(tick), tick);
    StampsApart(modified + Safe(tick), newest, tick);
    StampIsATick(lastStat, tick);
    assert OnTick(tick, tick);
    TicksAdd(modified, tick, tick);
    StampReaches(modified + tick, statAt, tick);
  }

  // ---- what every interleaving keeps ---------------------------------------------------------------------------

  predicate EntryKnown(d: Path, listed: Listed, times: Times, tree: Tree, now: nat, tick: nat)
    requires tick > 0
  {
    && times.statAt <= times.readAt <= now
    && OnTick(listed.modified, tick) && listed.modified <= Stamp(times.statAt, tick)
    && (listed.trusted ==> listed.modified < Stamp(times.statAt, tick))
    && (d in tree && tree[d].entries != listed.entries ==> tree[d].modified >= Stamp(times.readAt, tick))
  }

  predicate TreeStamped(tree: Tree, now: nat, tick: nat)
    requires tick > 0
  {
    forall d :: d in tree ==> OnTick(tree[d].modified, tick) && tree[d].modified <= Stamp(now, tick)
  }

  predicate CacheKnown(w: World, tick: nat)
    requires tick > 0
  {
    forall d :: d in w.cache ==> d in w.times && EntryKnown(d, w.cache[d], w.times[d], w.tree, w.now, tick)
  }

  /** A stamp this walk saw is of a listing it read itself, or one already safe. */
  predicate SeenKnown(cache: Cache, times: map<Path, Times>, walk: Walking, i: nat, tick: nat)
    requires tick > 0 && i < |walk.seen|
  {
    var (d, m) := walk.seen[i];
    && OnTick(m, tick) && m <= Stamp(walk.lastStat, tick)
    && ((d in cache && d in times && cache[d].modified == m && walk.owed != Some((d, m))) ==>
          times[d].statAt >= walk.began || m < Stamp(times[d].statAt, tick))
  }

  predicate WalkKnown(w: World, tick: nat)
    requires tick > 0
  {
    w.walk.Some? ==>
      var walk := w.walk.value;
      && walk.began <= walk.lastStat <= w.now && walk.lastStat <= walk.began + Safe(tick)
      && (forall i :: 0 <= i < |walk.seen| ==> SeenKnown(w.cache, w.times, walk, i, tick))
      && (walk.owed.Some? ==> OnTick(walk.owed.value.1, tick) && walk.owed.value.1 <= Stamp(walk.lastStat, tick))
  }

  predicate Known(w: World, tick: nat)
    requires tick > 0
  {
    TreeStamped(w.tree, w.now, tick) && CacheKnown(w, tick) && WalkKnown(w, tick)
  }

  lemma WaitKeeps(w: World, nanos: nat, tick: nat)
    requires tick > 0 && Known(w, tick)
    ensures Known(Do(w, Wait(nanos), tick), tick)
  {
    StampsRise(w.now, w.now + nanos, tick);
  }

  lemma ChangeKeeps(w: World, dir: Path, entries: Entries, tick: nat)
    requires tick > 0 && Known(w, tick)
    ensures Known(Do(w, Change(dir, entries), tick), tick)
  {
    StampIsATick(w.now, tick);
    if dir in w.cache { StampsRise(w.times[dir].readAt, w.now, tick); }
  }

  lemma StatKeeps(w: World, dir: Path, tick: nat)
    requires tick > 0 && Known(w, tick) && Brisk(w, Stat(dir), Safe(tick))
    ensures Known(Do(w, Stat(dir), tick), tick)
  {
    if w.walk.Some? && w.walk.value.owed.None? && dir in w.tree {
      var walk, after := w.walk.value, Asked(w, dir);
      StampsRise(walk.lastStat, w.now, tick);
      forall i | 0 <= i < |after.walk.value.seen| ensures SeenKnown(after.cache, after.times, after.walk.value, i, tick) {
        if i < |walk.seen| {
          assert after.walk.value.seen[i] == walk.seen[i];
          assert SeenKnown(w.cache, w.times, walk, i, tick);
        }
      }
    }
  }

  lemma ReadKeeps(w: World, tick: nat)
    requires tick > 0 && Known(w, tick)
    ensures Known(Do(w, Read, tick), tick)
  {
    if w.walk.Some? && w.walk.value.owed.Some? {
      var walk, after := w.walk.value, Paid(w);
      forall i | 0 <= i < |walk.seen| ensures SeenKnown(after.cache, after.times, after.walk.value, i, tick) {
        assert SeenKnown(w.cache, w.times, walk, i, tick);
      }
    }
  }

  /** Settling changes only what may be trusted, and trusts only what the walk saw old enough. */
  lemma {:induction false} SettlingTrustsTheOld(cache: Cache, seen: seq<(Path, nat)>, newest: nat, d: Path)
    ensures SettledEach(cache, seen, newest).Keys == cache.Keys
    ensures d in cache ==>
              var after := SettledEach(cache, seen, newest)[d];
              && after.modified == cache[d].modified && after.entries == cache[d].entries
              && (after.trusted && !cache[d].trusted ==>
                    (d, cache[d].modified) in seen && cache[d].modified + RACY_MARGIN < newest)
    decreases |seen|
  {
    if seen != [] {
      SettlingTrustsTheOld(cache, seen[..|seen| - 1], newest, d);
      assert seen == seen[..|seen| - 1] + [seen[|seen| - 1]];
    }
  }

  lemma FinishTrusts(w: World, walk: Walking, d: Path, newest: nat, i: nat, tick: nat)
    requires tick > 0 && Known(w, tick) && w.walk == Some(walk) && walk.owed.None?
    requires d in w.cache && i < |walk.seen| && walk.seen[i] == (d, w.cache[d].modified)
    requires OnTick(newest, tick) && newest <= Stamp(walk.lastStat, tick) && w.cache[d].modified + RACY_MARGIN < newest
    ensures w.cache[d].modified < Stamp(w.times[d].statAt, tick)
  {
    assert SeenKnown(w.cache, w.times, walk, i, tick);
    if w.times[d].statAt >= walk.began {
      TrustedWasOld(w.cache[d].modified, newest, walk.began, walk.lastStat, w.times[d].statAt, tick);
    }
  }

  lemma FinishKeeps(w: World, tick: nat)
    requires tick > 0 && Known(w, tick)
    ensures Known(Do(w, Finish, tick), tick)
  {
    if w.walk.Some? && w.walk.value.owed.None? && w.walk.value.seen != [] {
      var walk := w.walk.value;
      var newest := Newest(walk.seen);
      var k :| 0 <= k < |walk.seen| && walk.seen[k].1 == newest;
      assert SeenKnown(w.cache, w.times, walk, k, tick);
      var after := SettledEach(w.cache, walk.seen, newest);
      forall d | d in after ensures d in w.times && EntryKnown(d, after[d], w.times[d], w.tree, w.now, tick) {
        SettlingTrustsTheOld(w.cache, walk.seen, newest, d);
        if after[d].trusted && !w.cache[d].trusted {
          var i :| 0 <= i < |walk.seen| && walk.seen[i] == (d, w.cache[d].modified);
          FinishTrusts(w, walk, d, newest, i, tick);
        }
      }
    }
  }

  lemma PruneKeeps(w: World, tick: nat)
    requires tick > 0 && Known(w, tick)
    ensures Known(Do(w, Prune, tick), tick)
  {
    if w.walk.Some? {
      var after := Do(w, Prune, tick);
      forall i | 0 <= i < |w.walk.value.seen| ensures SeenKnown(after.cache, after.times, w.walk.value, i, tick) {
        assert SeenKnown(w.cache, w.times, w.walk.value, i, tick);
      }
    }
  }

  lemma ActionKeeps(w: World, a: Action, tick: nat)
    requires tick > 0 && Known(w, tick) && Brisk(w, a, Safe(tick))
    ensures Known(Do(w, a, tick), tick)
  {
    match a {
      case Wait(nanos) => WaitKeeps(w, nanos, tick);
      case Change(dir, entries) => ChangeKeeps(w, dir, entries, tick);
      case Stat(dir) => StatKeeps(w, dir, tick);
      case Read => ReadKeeps(w, tick);
      case Finish => FinishKeeps(w, tick);
      case Prune => PruneKeeps(w, tick);
      case _ =>
    }
  }

  // ---- every interleaving -----------------------------------------------------------------------------------------

  function After(tree: Tree, now: nat, actions: seq<Action>, tick: nat): World
    requires tick > 0
  {
    if actions == [] then World(now, tree, map[], map[], None)
    else Do(After(tree, now, actions[..|actions| - 1], tick), actions[|actions| - 1], tick)
  }

  predicate EveryWalkBrisk(tree: Tree, now: nat, actions: seq<Action>, tick: nat, limit: nat)
    requires tick > 0
  {
    actions != [] ==>
      var front := actions[..|actions| - 1];
      EveryWalkBrisk(tree, now, front, tick, limit) && Brisk(After(tree, now, front, tick), actions[|actions| - 1], limit)
  }

  lemma {:induction false} KnownThroughout(tree: Tree, now: nat, actions: seq<Action>, tick: nat)
    requires tick > 0 && TreeStamped(tree, now, tick) && EveryWalkBrisk(tree, now, actions, tick, Safe(tick))
    ensures Known(After(tree, now, actions, tick), tick)
    decreases |actions|
  {
    if actions != [] {
      var front := actions[..|actions| - 1];
      KnownThroughout(tree, now, front, tick);
      ActionKeeps(After(tree, now, front, tick), actions[|actions| - 1], tick);
    }
  }

  lemma KnownIsTruthful(w: World, tick: nat)
    requires tick > 0 && Known(w, tick)
    ensures Truthful(w.cache, w.tree)
  {
    forall d | d in w.cache && d in w.tree && w.cache[d].trusted && w.cache[d].modified == w.tree[d].modified
      ensures w.cache[d].entries == w.tree[d].entries
    {
      StampsRise(w.times[d].statAt, w.times[d].readAt, tick);
    }
  }

  /**
    A listing the cache hands out is the directory's own at that moment, whatever changed before, during and
    after the walks that filled it, for stamps of any coarseness, where no walk asks for a stamp later after
    it began than the whole ticks the margin holds.
   */
  lemma CacheAgreesWithTheTree(tree: Tree, now: nat, actions: seq<Action>, tick: nat, dir: Path)
    requires tick > 0 && TreeStamped(tree, now, tick) && EveryWalkBrisk(tree, now, actions, tick, Safe(tick))
    ensures var w := After(tree, now, actions, tick);
            && Truthful(w.cache, w.tree)
            && (dir in w.tree ==> var hit := Hit(w.cache, dir, w.tree[dir].modified); hit.Some? ==> hit.value == w.tree[dir].entries)
  {
    KnownThroughout(tree, now, actions, tick);
    KnownIsTruthful(After(tree, now, actions, tick), tick);
  }

  // ---- a nanosecond longer is too long -----------------------------------------------------------------------------

  lemma OneActionMore(tree: Tree, now: nat, actions: seq<Action>, a: Action, tick: nat, limit: nat)
    requires tick > 0 && EveryWalkBrisk(tree, now, actions, tick, limit) && Brisk(After(tree, now, actions, tick), a, limit)
    ensures After(tree, now, actions + [a], tick) == Do(After(tree, now, actions, tick), a, tick)
    ensures EveryWalkBrisk(tree, now, actions + [a], tick, limit)
  {
    var more := actions + [a];
    assert more[..|more| - 1] == actions;
  }

  const EMPTY := Entries([], [])
  const LATER := Entries([], [Cursor.Block(1, 1)])

  /** One directory changes again in the tick its listing was read in, and the walk comes to another a long while after. */
  function SlowWalk(pause: nat, a: Path, b: Path): seq<Action> {
    [Begin, Stat(a), Read, Change(a, LATER), Wait(pause), Change(b, EMPTY), Stat(b), Read, Finish]
  }

  function Still(a: Path, b: Path): Tree {
    map[a := Directory(EMPTY, 0), b := Directory(EMPTY, 0)]
  }

  lemma ActionAt(tree: Tree, now: nat, actions: seq<Action>, n: nat, before: World, tick: nat, limit: nat)
    requires tick > 0 && n < |actions| && EveryWalkBrisk(tree, now, actions[..n], tick, limit)
    requires After(tree, now, actions[..n], tick) == before && Brisk(before, actions[n], limit)
    ensures After(tree, now, actions[..n + 1], tick) == Do(before, actions[n], tick)
    ensures EveryWalkBrisk(tree, now, actions[..n + 1], tick, limit)
  {
    assert actions[..n + 1] == actions[..n] + [actions[n]];
    OneActionMore(tree, now, actions[..n], actions[n], tick, limit);
  }

  lemma ActionOn(tree: Tree, now: nat, actions: seq<Action>, n: nat, before: World, a: Action, after: World, tick: nat, limit: nat)
    requires tick > 0 && n < |actions| && EveryWalkBrisk(tree, now, actions[..n], tick, limit) && actions[n] == a && !a.Stat?
    requires After(tree, now, actions[..n], tick) == before && Do(before, a, tick) == after
    ensures After(tree, now, actions[..n + 1], tick) == after && EveryWalkBrisk(tree, now, actions[..n + 1], tick, limit)
  {
    ActionAt(tree, now, actions, n, before, tick, limit);
  }

  lemma LastAction(tree: Tree, now: nat, actions: seq<Action>, n: nat, before: World, tick: nat, limit: nat)
    requires tick > 0 && |actions| == n + 1 && EveryWalkBrisk(tree, now, actions[..n], tick, limit) && !actions[n].Stat?
    requires After(tree, now, actions[..n], tick) == before
    ensures After(tree, now, actions, tick) == Do(before, actions[n], tick) && EveryWalkBrisk(tree, now, actions, tick, limit)
  {
    ActionAt(tree, now, actions, n, before, tick, limit);
    assert actions[..n + 1] == actions;
  }

  function AfterRead(now: nat, a: Path, b: Path): World {
    World(now, Still(a, b), map[a := Listed(0, false, EMPTY)], map[a := Times(now, now)], Some(Walking(now, now, [(a, 0)], None)))
  }

  function AfterPause(now: nat, late: nat, a: Path, b: Path): World {
    AfterChange(now, a, b).(now := late, tree := Still(a, b)[a := Directory(LATER, 0)][b := Directory(EMPTY, late)])
  }

  function AfterSecond(now: nat, late: nat, a: Path, b: Path): World {
    var pause := AfterPause(now, late, a, b);
    pause.(cache := pause.cache[b := Listed(late, false, EMPTY)], times := pause.times[b := Times(late, late)],
           walk := Some(Walking(now, late, [(a, 0), (b, late)], None)))
  }

  lemma SlowWalkReads(tick: nat, now: nat, limit: nat, actions: seq<Action>, a: Path, b: Path)
    requires tick > 0 && a != b && |actions| == 9 && actions[0] == Begin && actions[1] == Stat(a) && actions[2] == Read
    ensures After(Still(a, b), now, actions[..3], tick) == AfterRead(now, a, b)
    ensures EveryWalkBrisk(Still(a, b), now, actions[..3], tick, limit)
  {
    var w0 := World(now, Still(a, b), map[], map[], None);
    assert actions[..0] == [];
    ActionAt(Still(a, b), now, actions, 0, w0, tick, limit);
    var w1 := w0.(walk := Some(Walking(now, now, [], None)));
    ActionAt(Still(a, b), now, actions, 1, w1, tick, limit);
    assert w1.walk.value.seen + [(a, 0)] == [(a, 0)];
    var w2 := w1.(walk := Some(Walking(now, now, [(a, 0)], Some((a, 0)))));
    ActionAt(Still(a, b), now, actions, 2, w2, tick, limit);
  }

  function AfterChange(now: nat, a: Path, b: Path): World {
    AfterRead(now, a, b).(tree := Still(a, b)[a := Directory(LATER, 0)])
  }

  lemma SlowWalkChanges(tick: nat, now: nat, limit: nat, actions: seq<Action>, a: Path, b: Path)
    requires tick > 0 && a != b && Stamp(now, tick) == 0
    requires |actions| == 9 && actions[0] == Begin && actions[1] == Stat(a) && actions[2] == Read && actions[3] == Change(a, LATER)
    ensures After(Still(a, b), now, actions[..4], tick) == AfterChange(now, a, b)
    ensures EveryWalkBrisk(Still(a, b), now, actions[..4], tick, limit)
  {
    SlowWalkReads(tick, now, limit, actions, a, b);
    ActionOn(Still(a, b), now, actions, 3, AfterRead(now, a, b), Change(a, LATER), AfterChange(now, a, b), tick, limit);
  }

  lemma SlowWalkPauses(tick: nat, now: nat, late: nat, actions: seq<Action>, a: Path, b: Path)
    requires tick > 0 && a != b && now <= late && Stamp(now, tick) == 0 && Stamp(late, tick) == late
    requires actions == SlowWalk(late - now, a, b)
    ensures After(Still(a, b), now, actions[..6], tick) == AfterPause(now, late, a, b)
    ensures EveryWalkBrisk(Still(a, b), now, actions[..6], tick, late - now)
  {
    SlowWalkChanges(tick, now, late - now, actions, a, b);
    var changed := AfterChange(now, a, b);
    ActionOn(Still(a, b), now, actions, 4, changed, Wait(late - now), changed.(now := late), tick, late - now);
    ActionOn(Still(a, b), now, actions, 5, changed.(now := late), Change(b, EMPTY), AfterPause(now, late, a, b), tick, late - now);
  }

  lemma SlowWalkReadsAgain(tick: nat, now: nat, late: nat, actions: seq<Action>, a: Path, b: Path)
    requires tick > 0 && a != b && now <= late && Stamp(now, tick) == 0 && Stamp(late, tick) == late
    requires actions == SlowWalk(late - now, a, b)
    ensures After(Still(a, b), now, actions[..8], tick) == AfterSecond(now, late, a, b)
    ensures EveryWalkBrisk(Still(a, b), now, actions[..8], tick, late - now)
  {
    SlowWalkPauses(tick, now, late, actions, a, b);
    var w6 := AfterPause(now, late, a, b);
    ActionAt(Still(a, b), now, actions, 6, w6, tick, late - now);
    var w7 := w6.(walk := Some(Walking(now, late, [(a, 0), (b, late)], Some((b, late)))));
    assert [(a, 0)] + [(b, late)] == [(a, 0), (b, late)];
    ActionAt(Still(a, b), now, actions, 7, w7, tick, late - now);
  }

  lemma SettlingTwo(cache: Cache, a: Path, m: nat, b: Path, n: nat)
    requires a != b && a in cache && cache[a].modified == m && m + RACY_MARGIN < n
    ensures a in Settled(cache, [(a, m), (b, n)]) && Settled(cache, [(a, m), (b, n)])[a] == cache[a].(trusted := true)
  {
    var seen := [(a, m), (b, n)];
    assert seen[..1] == [(a, m)] && [(a, m)][..0] == [];
    assert Newest(seen) == n;
    assert SettledEach(cache, [], n) == cache;
    assert SettledEach(cache, [(a, m)], n) == SettledOne(cache, a, m, n);
    assert SettledEach(cache, seen, n) == SettledOne(SettledOne(cache, a, m, n), b, n, n);
  }

  lemma SlowWalkMisleads(tick: nat, now: nat, late: nat, a: Path, b: Path)
    requires tick > 0 && a != b && RACY_MARGIN < late
    ensures var w := Do(AfterSecond(now, late, a, b), Finish, tick); !Truthful(w.cache, w.tree)
  {
    var w := AfterSecond(now, late, a, b);
    SettlingTwo(w.cache, a, 0, b, late);
    var after := Settled(w.cache, [(a, 0), (b, late)]);
    assert after[a] == Listed(0, true, EMPTY) && w.tree[a] == Directory(LATER, 0) && EMPTY != LATER;
    assert !Truthful(after, w.tree);
  }

  lemma SlowWalkFinishes(tick: nat, now: nat, late: nat, actions: seq<Action>, a: Path, b: Path)
    requires tick > 0 && a != b && now <= late && Stamp(now, tick) == 0 && Stamp(late, tick) == late && RACY_MARGIN < late
    requires actions == SlowWalk(late - now, a, b)
    ensures EveryWalkBrisk(Still(a, b), now, actions, tick, late - now)
    ensures var w := After(Still(a, b), now, actions, tick); !Truthful(w.cache, w.tree)
  {
    SlowWalkReadsAgain(tick, now, late, actions, a, b);
    LastAction(Still(a, b), now, actions, 8, AfterSecond(now, late, a, b), tick, late - now);
    SlowWalkMisleads(tick, now, late, a, b);
  }

  lemma SlowStamps(tick: nat)
    requires tick > 0
    ensures Stamp(tick - 1, tick) == 0 && Stamp(tick + Safe(tick), tick) == tick + Safe(tick)
    ensures RACY_MARGIN < tick + Safe(tick)
  {
    assert (tick - 1) % tick == tick - 1;
    MultiplesOfATick(RACY_MARGIN / tick, tick);
    assert OnTick(tick, tick);
    TicksAdd(tick, Safe(tick), tick);
  }

  /** The bound is exact for every tick: one nanosecond more, and a walk leaves a listing trusted that is not the directory's. */
  lemma LongerWalksAreNotSafe(tick: nat, a: Path, b: Path)
    requires tick > 0 && a != b
    ensures var actions := SlowWalk(Safe(tick) + 1, a, b);
            && EveryWalkBrisk(Still(a, b), tick - 1, actions, tick, Safe(tick) + 1)
            && !Truthful(After(Still(a, b), tick - 1, actions, tick).cache, After(Still(a, b), tick - 1, actions, tick).tree)
  {
    SlowStamps(tick);
    SlowWalkFinishes(tick, tick - 1, tick + Safe(tick), SlowWalk(Safe(tick) + 1, a, b), a, b);
  }

  // ---- overlapping ranges --------------------------------------------------------------------------------------------

  predicate Intersecting(a: Cursor, b: Cursor) {
    a.Kind() == b.Kind() && b.First() <= a.Last()
  }

  /** Consecutive segments of a listing whose ranges intersect. */
  function OverlapsIn(listed: seq<Cursor>): seq<(Cursor, Cursor)> {
    if |listed| < 2 then []
    else
      var (front, a, b) := (listed[..|listed| - 1], listed[|listed| - 2], listed[|listed| - 1]);
      OverlapsIn(front) + if Intersecting(a, b) then [(a, b)] else []
  }

  lemma {:induction false} NoConsecutiveOverlap(listed: seq<Cursor>)
    ensures OverlapsIn(listed) == [] <==> forall i :: 0 <= i < |listed| - 1 ==> !Intersecting(listed[i], listed[i + 1])
    decreases |listed|
  {
    if |listed| >= 2 {
      var front := listed[..|listed| - 1];
      NoConsecutiveOverlap(front);
      assert forall i :: 0 <= i < |front| ==> front[i] == listed[i];
      if OverlapsIn(listed) == [] {
        forall i | 0 <= i < |listed| - 1 ensures !Intersecting(listed[i], listed[i + 1]) {
          if i < |front| - 1 { assert front[i + 1] == listed[i + 1]; }
        }
      } else if OverlapsIn(front) != [] {
        var i :| 0 <= i < |front| - 1 && Intersecting(front[i], front[i + 1]);
        assert Intersecting(listed[i], listed[i + 1]);
      } else {
        assert Intersecting(listed[|listed| - 2], listed[|listed| - 2 + 1]);
      }
    }
  }

  lemma {:induction false} ApartThroughout(listed: seq<Cursor>, i: nat, j: nat)
    requires Sorted(ListedBefore, listed) && i < j < |listed|
    requires forall k :: 0 <= k < |listed| ==> listed[k].First() <= listed[k].Last()
    requires forall k :: 0 <= k < |listed| - 1 ==> !Intersecting(listed[k], listed[k + 1])
    ensures !Intersecting(listed[i], listed[j])
    decreases j - i
  {
    if i + 1 < j {
      ApartThroughout(listed, i, j - 1);
      assert !Intersecting(listed[j - 1], listed[j - 1 + 1]);
      assert ListedBefore(listed[i], listed[j - 1]) && ListedBefore(listed[j - 1], listed[j]);
    } else {
      assert !Intersecting(listed[i], listed[i + 1]);
    }
  }

  /** A position of one kind that both segments say they hold. */
  predicate HeldByBoth(a: Cursor, b: Cursor, position: int) {
    a.Kind() == b.Kind() && a.First() <= position <= a.Last() && b.First() <= position <= b.Last()
  }

  ghost predicate SharePosition(a: Cursor, b: Cursor) {
    exists position :: HeldByBoth(a, b, position)
  }

  lemma IntersectingShare(a: Cursor, b: Cursor)
    requires ListedBefore(a, b) && a.First() <= a.Last() && b.First() <= b.Last()
    ensures Intersecting(a, b) <==> SharePosition(a, b)
  {
    if Intersecting(a, b) { assert HeldByBoth(a, b, b.First()); }
  }

  predicate Neighbours(listed: seq<Cursor>, a: Cursor, b: Cursor) {
    exists i :: 0 < i < |listed| && listed[i - 1] == a && listed[i] == b
  }

  lemma OneMoreNeighbour(listed: seq<Cursor>, a: Cursor, b: Cursor)
    requires |listed| >= 2
    ensures Neighbours(listed, a, b) <==>
              Neighbours(listed[..|listed| - 1], a, b) || (listed[|listed| - 2] == a && listed[|listed| - 1] == b)
  {
    var front := listed[..|listed| - 1];
    if i :| 0 < i < |front| && front[i - 1] == a && front[i] == b { assert listed[i - 1] == a && listed[i] == b; }
    if i :| 0 < i < |listed| && listed[i - 1] == a && listed[i] == b { assert i < |front| ==> front[i - 1] == a && front[i] == b; }
  }

  /** What is reported is each two neighbours of a listing in order that hold a position in common, and nothing else. */
  lemma {:induction false} ReportedAreNeighboursSharing(listed: seq<Cursor>, a: Cursor, b: Cursor)
    requires Sorted(ListedBefore, listed) && forall k :: 0 <= k < |listed| ==> listed[k].First() <= listed[k].Last()
    ensures (a, b) in OverlapsIn(listed) <==> Neighbours(listed, a, b) && SharePosition(a, b)
    decreases |listed|
  {
    if |listed| >= 2 {
      var front, n := listed[..|listed| - 1], |listed| - 1;
      ReportedAreNeighboursSharing(front, a, b);
      IntersectingShare(listed[n - 1], listed[n]);
      OneMoreNeighbour(listed, a, b);
    }
  }

  /**
    Looking only at neighbours is enough: of a listing in order whose names run forwards, none are reported
    exactly when no two of its segments, however far apart, hold a position of one kind in common.
   */
  lemma NoneReportedMeansNoneOverlap(listed: seq<Cursor>)
    requires Sorted(ListedBefore, listed) && forall k :: 0 <= k < |listed| ==> listed[k].First() <= listed[k].Last()
    ensures OverlapsIn(listed) == [] <==> forall i, j :: 0 <= i < j < |listed| ==> !SharePosition(listed[i], listed[j])
  {
    NoConsecutiveOverlap(listed);
    forall i, j | 0 <= i < j < |listed| ensures Intersecting(listed[i], listed[j]) <==> SharePosition(listed[i], listed[j]) {
      IntersectingShare(listed[i], listed[j]);
    }
    if OverlapsIn(listed) == [] {
      forall i, j | 0 <= i < j < |listed| ensures !Intersecting(listed[i], listed[j]) { ApartThroughout(listed, i, j); }
    } else {
      var i :| 0 <= i < |listed| - 1 && Intersecting(listed[i], listed[i + 1]);
      assert SharePosition(listed[i], listed[i + 1]);
    }
  }
}
