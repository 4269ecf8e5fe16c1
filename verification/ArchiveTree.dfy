/** Which segments of the archive's tree a replay lists: pruned by date directory, then by file name. */
module ArchiveTree {
  import opened Text
  import opened Sorting
  import opened Calendar
  import opened Cursors
  import opened Segments
  import opened Merge
  import opened Replaying

  datatype FileEntry = FileEntry(cursor: Cursor, stored: Stored)

  /** A directory: its name, the segments in it, and its subdirectories. */
  datatype Tree = Tree(name: string, files: seq<FileEntry>, subdirs: seq<Tree>)

  datatype PartitionDir = PartitionDir(path: Path, files: seq<FileEntry>)

  const FAILURES := "failures"

  /** The midnight a directory's own name says its rows fall after, where it says one. */
  function DayNamed(name: string): Option<int> {
    if DATE_LEVEL <= name then MidnightOf(name[|DATE_LEVEL|..]) else None
  }

  /** A directory named for a day is entered where that day meets the range; one named for anything else always is. */
  predicate Covers(name: string, from: int, to: int) {
    match DayNamed(name)
    case None => true
    case Some(midnight) => midnight < to && midnight + MICROS_PER_DAY > from
  }

  /** A scope is a prefix of whole path components. Without scopes everything is read, and with an empty list nothing. */
  predicate InScope(path: Path, scopes: Option<seq<Path>>) {
    match scopes
    case None => true
    case Some(list) => exists i :: 0 <= i < |list| && list[i] != [] && list[i] <= path
  }

  predicate Replayed(path: Path, scopes: Option<seq<Path>>) {
    !(path != [] && path[|path| - 1] == FAILURES) && InScope(path, scopes)
  }

  function Own(path: Path, t: Tree): seq<PartitionDir> {
    if t.files == [] then [] else [PartitionDir(path, t.files)]
  }

  /** The partitions a walk finds, descending where `descend` allows. */
  function Walk(path: Path, t: Tree, descend: string -> bool): seq<PartitionDir>
    decreases t, 0
  {
    WalkEach(path, t.subdirs, descend) + Own(path, t)
  }

  function WalkEach(path: Path, subs: seq<Tree>, descend: string -> bool): seq<PartitionDir>
    decreases subs, 1
  {
    if subs == [] then []
    else
      (if descend(subs[0].name) then Walk(path + [subs[0].name], subs[0], descend) else [])
      + WalkEach(path, subs[1..], descend)
  }

  predicate PathBefore(a: Path, b: Path) {
    a == [] || (b != [] && (Before(a[0], b[0]) || (a[0] == b[0] && PathBefore(a[1..], b[1..]))))
  }

  predicate EntryBefore(a: FileEntry, b: FileEntry) {
    ListedBefore(a.cursor, b.cursor)
  }

  /** The segments of one partition a range could be in, in listing order, by name alone. */
  function Listed(path: Path, files: seq<FileEntry>, from: int, to: int): seq<Pending> {
    if files == [] then []
    else
      var front, last := files[..|files| - 1], files[|files| - 1];
      if last.cursor.Time? then
        if last.cursor.lastMicros < from || last.cursor.firstMicros >= to then Listed(path, front, from, to)
        else Listed(path, front, from, to) + [Pending(last.cursor.firstMicros, path + [last.cursor.FileName()], last.stored)]
      else Listed(path, front, from, to) + [Pending(I64_MIN, path + [last.cursor.FileName()], last.stored)]
  }

  function ListedIn(partitions: seq<PartitionDir>, scopes: Option<seq<Path>>, from: int, to: int): seq<Pending> {
    if partitions == [] then []
    else
      var p := partitions[0];
      (if Replayed(p.path, scopes) then Listed(p.path, SortBy(EntryBefore, p.files), from, to) else [])
      + ListedIn(partitions[1..], scopes, from, to)
  }

  /** The listing a replay makes up front. */
  function StreamRange(root: Tree, scopes: Option<seq<Path>>, from: int, to: int): seq<Pending> {
    var found := Walk([], root, Pruning(from, to));
    ListedIn(SortBy(ByPath(), found), scopes, from, to)
  }

  function ByPath(): (PartitionDir, PartitionDir) -> bool {
    (a: PartitionDir, b: PartitionDir) => PathBefore(a.path, b.path)
  }

  /** A directory is named for a day as `date=` and the day's text, and is entered exactly where the day meets the range. */
  lemma DirectoriesAreNamedForDays(c: Civil, days: int, from: int, to: int)
    requires IsDate(c) && DaysFromCivil(c.y, c.m, c.d) == days && -999 <= c.y <= 9999
    ensures DayNamed("date=" + DateText(c)) == Some(InstantOf(days, 0, 0, 0, 0))
    ensures Covers("date=" + DateText(c), from, to) <==> InstantOf(days, 0, 0, 0, 0) < to && from < InstantOf(days + 1, 0, 0, 0, 0)
  {
    ClockTimesAreOfTheirDate(c, days, 0, 0, 0, 0);
    assert ("date=" + DateText(c))[|DATE_LEVEL|..] == DateText(c);
    ClockWithinDay(days, 0, 0, 0, 0);
    ClockWithinDay(days + 1, 0, 0, 0, 0);
  }

  // ---- what the archive's layout promises ----------------------------------------

  /** Names bound receipts where they are receipts; a receipt is an `i64` in any case. */
  predicate EntryHolds(f: FileEntry) {
    f.stored.Reads? ==>
      && f.stored.segment.Sound()
      && forall r :: r in RowsOf(f.stored.segment) ==>
           && I64_MIN <= r.recvMicros
           && (f.cursor.Time? ==> f.cursor.firstMicros <= r.recvMicros <= f.cursor.lastMicros)
  }

  predicate WithinDay(f: FileEntry, midnight: int) {
    f.stored.Reads? ==> forall r :: r in RowsOf(f.stored.segment) ==> midnight <= r.recvMicros < midnight + MICROS_PER_DAY
  }

  /** Every row lies on the days named by the directories above it. */
  ghost predicate LaidOut(t: Tree, days: set<int>)
    decreases t
  {
    && (forall i :: 0 <= i < |t.files| ==> EntryHolds(t.files[i]) && forall d :: d in days ==> WithinDay(t.files[i], d))
    && (forall i :: 0 <= i < |t.subdirs| ==>
          var below := DayNamed(t.subdirs[i].name);
          LaidOut(t.subdirs[i], if below.Some? then days + {below.value} else days))
  }

  // ---- what there is to replay, said without a walk ---------------------------------

  /** Names of directories, one below another, lead from one directory to another. */
  ghost predicate LeadsTo(t: Tree, path: Path, d: Tree)
    decreases |path|
  {
    if path == [] then d == t
    else exists i :: 0 <= i < |t.subdirs| && t.subdirs[i].name == path[0] && LeadsTo(t.subdirs[i], path[1..], d)
  }

  /** Not a directory of failures, and below one of the scopes where there are any. */
  predicate Wanted(path: Path, scopes: Option<seq<Path>>) {
    && (path == [] || path[|path| - 1] != "failures")
    && (scopes.Some? ==> exists scope :: scope in scopes.value && scope != [] && |scope| <= |path| && path[..|scope|] == scope)
  }

  function RowsReceived(rows: seq<Row>, from: int, to: int): multiset<Row> {
    if rows == [] then multiset{}
    else
      var last := rows[|rows| - 1];
      RowsReceived(rows[..|rows| - 1], from, to) + if last.recvMicros >= from && last.recvMicros < to then multiset{last} else multiset{}
  }

  function RowsIn(files: seq<FileEntry>, from: int, to: int): multiset<Row> {
    if files == [] then multiset{}
    else
      (if files[0].stored.Reads? then RowsReceived(RowsOf(files[0].stored.segment), from, to) else multiset{})
      + RowsIn(files[1..], from, to)
  }

  function RowsBelow(path: Path, t: Tree, scopes: Option<seq<Path>>, from: int, to: int): multiset<Row>
    decreases t, 0
  {
    (if Wanted(path, scopes) then RowsIn(t.files, from, to) else multiset{}) + RowsBelowEach(path, t.subdirs, scopes, from, to)
  }

  function RowsBelowEach(path: Path, subs: seq<Tree>, scopes: Option<seq<Path>>, from: int, to: int): multiset<Row>
    decreases subs, 1
  {
    if subs == [] then multiset{}
    else RowsBelow(path + [subs[0].name], subs[0], scopes, from, to) + RowsBelowEach(path, subs[1..], scopes, from, to)
  }

  /** Every row of a segment that reads, in scope and received in the range, wherever in the tree it is. */
  function Everything(root: Tree, scopes: Option<seq<Path>>, from: int, to: int): multiset<Row> {
    RowsBelow([], root, scopes, from, to)
  }

  /** A row received in the range counts as often as it is stored, and any other not at all. */
  lemma {:induction false} ReceivedAsStored(rows: seq<Row>, from: int, to: int, r: Row)
    ensures RowsReceived(rows, from, to)[r] == if from <= r.recvMicros < to then multiset(rows)[r] else 0
    decreases |rows|
  {
    if rows != [] {
      var front, last := rows[..|rows| - 1], rows[|rows| - 1];
      assert rows == front + [last];
      ReceivedAsStored(front, from, to, r);
    }
  }

  /** A segment that reads, in the directory that path leads to, holds the row. */
  ghost predicate StoredAt(t: Tree, path: Path, r: Row) {
    exists d, f :: LeadsTo(t, path, d) && HeldBy(d, f, r)
  }

  predicate HeldBy(d: Tree, f: FileEntry, r: Row) {
    f in d.files && f.stored.Reads? && r in RowsOf(f.stored.segment)
  }

  lemma {:induction false} InFiles(files: seq<FileEntry>, from: int, to: int, r: Row)
    ensures r in RowsIn(files, from, to) <==>
              from <= r.recvMicros < to && exists f :: f in files && f.stored.Reads? && r in RowsOf(f.stored.segment)
    decreases |files|
  {
    if files != [] {
      InFiles(files[1..], from, to, r);
      if files[0].stored.Reads? { ReceivedAsStored(RowsOf(files[0].stored.segment), from, to, r); }
      assert files == [files[0]] + files[1..];
    }
  }

  ghost predicate StoredBelow(path: Path, subs: seq<Tree>, scopes: Option<seq<Path>>, r: Row) {
    exists i, below :: 0 <= i < |subs| && StoredAt(subs[i], below, r) && Wanted(path + [subs[i].name] + below, scopes)
  }

  lemma StoredUnder(t: Tree, i: nat, below: Path, r: Row)
    requires i < |t.subdirs| && StoredAt(t.subdirs[i], below, r)
    ensures StoredAt(t, [t.subdirs[i].name] + below, r)
  {
    var d, f :| LeadsTo(t.subdirs[i], below, d) && HeldBy(d, f, r);
    var whole := [t.subdirs[i].name] + below;
    assert whole[1..] == below;
    assert LeadsTo(t, whole, d);
  }

  lemma StoredHere(t: Tree, f: FileEntry, r: Row)
    requires HeldBy(t, f, r)
    ensures StoredAt(t, [], r)
  {
    assert LeadsTo(t, [], t);
  }

  /** What is stored under a directory is stored in it or under one of its subdirectories. */
  lemma StoredSomewhere(t: Tree, below: Path, r: Row) returns (i: nat)
    requires StoredAt(t, below, r)
    ensures below == [] ==> exists f :: HeldBy(t, f, r)
    ensures below != [] ==> i < |t.subdirs| && t.subdirs[i].name == below[0] && StoredAt(t.subdirs[i], below[1..], r)
  {
    var d, f :| LeadsTo(t, below, d) && HeldBy(d, f, r);
    i := 0;
    if below != [] {
      i :| 0 <= i < |t.subdirs| && t.subdirs[i].name == below[0] && LeadsTo(t.subdirs[i], below[1..], d);
    }
  }

  ghost predicate StoredInScope(path: Path, t: Tree, scopes: Option<seq<Path>>, r: Row) {
    exists below :: StoredAt(t, below, r) && Wanted(path + below, scopes)
  }

  lemma StoredAtOrBelow(path: Path, t: Tree, scopes: Option<seq<Path>>, below: Path, r: Row)
    requires StoredAt(t, below, r) && Wanted(path + below, scopes)
    ensures below == [] ==> Wanted(path, scopes) && exists f :: HeldBy(t, f, r)
    ensures below != [] ==> StoredBelow(path, t.subdirs, scopes, r)
  {
    var i := StoredSomewhere(t, below, r);
    if below == [] {
      assert path + below == path;
    } else {
      var rest := below[1..];
      assert path + [t.subdirs[i].name] + rest == path + below;
      assert StoredAt(t.subdirs[i], rest, r) && Wanted(path + [t.subdirs[i].name] + rest, scopes);
    }
  }

  lemma StoredHereOrBelow(path: Path, t: Tree, scopes: Option<seq<Path>>, r: Row)
    requires StoredInScope(path, t, scopes, r)
    ensures (Wanted(path, scopes) && exists f :: HeldBy(t, f, r)) || StoredBelow(path, t.subdirs, scopes, r)
  {
    var below :| StoredAt(t, below, r) && Wanted(path + below, scopes);
    StoredAtOrBelow(path, t, scopes, below, r);
  }

  lemma StoredHereInScope(path: Path, t: Tree, scopes: Option<seq<Path>>, f: FileEntry, r: Row)
    requires Wanted(path, scopes) && HeldBy(t, f, r)
    ensures StoredInScope(path, t, scopes, r)
  {
    StoredHere(t, f, r);
    assert path + [] == path;
  }

  lemma StoredBelowInScope(path: Path, t: Tree, scopes: Option<seq<Path>>, r: Row)
    requires StoredBelow(path, t.subdirs, scopes, r)
    ensures StoredInScope(path, t, scopes, r)
  {
    var i, below :| 0 <= i < |t.subdirs| && StoredAt(t.subdirs[i], below, r) && Wanted(path + [t.subdirs[i].name] + below, scopes);
    StoredUnder(t, i, below, r);
    assert path + ([t.subdirs[i].name] + below) == path + [t.subdirs[i].name] + below;
  }

  lemma {:induction false} InTree(path: Path, t: Tree, scopes: Option<seq<Path>>, from: int, to: int, r: Row)
    ensures r in RowsBelow(path, t, scopes, from, to) <==>
              from <= r.recvMicros < to && StoredInScope(path, t, scopes, r)
    decreases t, 0
  {
    InFiles(t.files, from, to, r);
    InEachTree(path, t.subdirs, scopes, from, to, r);
    if StoredInScope(path, t, scopes, r) { StoredHereOrBelow(path, t, scopes, r); }
    if StoredBelow(path, t.subdirs, scopes, r) { StoredBelowInScope(path, t, scopes, r); }
    if f :| f in t.files && f.stored.Reads? && r in RowsOf(f.stored.segment) {
      assert HeldBy(t, f, r);
      if Wanted(path, scopes) { StoredHereInScope(path, t, scopes, f, r); }
    }
  }

  lemma StoredFirstOrRest(path: Path, subs: seq<Tree>, scopes: Option<seq<Path>>, r: Row)
    requires subs != []
    ensures StoredBelow(path, subs, scopes, r) <==>
              || StoredInScope(path + [subs[0].name], subs[0], scopes, r)
              || StoredBelow(path, subs[1..], scopes, r)
  {
    if StoredBelow(path, subs[1..], scopes, r) {
      var i, below :| 0 <= i < |subs[1..]| && StoredAt(subs[1..][i], below, r) && Wanted(path + [subs[1..][i].name] + below, scopes);
      assert subs[i + 1] == subs[1..][i];
    }
    if StoredBelow(path, subs, scopes, r) {
      var i, below :| 0 <= i < |subs| && StoredAt(subs[i], below, r) && Wanted(path + [subs[i].name] + below, scopes);
      assert i > 0 ==> subs[1..][i - 1] == subs[i];
    }
  }

  lemma {:induction false} InEachTree(path: Path, subs: seq<Tree>, scopes: Option<seq<Path>>, from: int, to: int, r: Row)
    ensures r in RowsBelowEach(path, subs, scopes, from, to) <==> from <= r.recvMicros < to && StoredBelow(path, subs, scopes, r)
    decreases subs, 1
  {
    if subs != [] {
      InTree(path + [subs[0].name], subs[0], scopes, from, to, r);
      InEachTree(path, subs[1..], scopes, from, to, r);
      StoredFirstOrRest(path, subs, scopes, r);
    }
  }

  /** What there is to replay is each row received in the range that is stored, to be read, where a wanted path leads. */
  lemma EverythingIsWhatIsStored(root: Tree, scopes: Option<seq<Path>>, from: int, to: int, r: Row)
    ensures r in Everything(root, scopes, from, to) <==>
              from <= r.recvMicros < to && exists path :: StoredAt(root, path, r) && Wanted(path, scopes)
  {
    InTree([], root, scopes, from, to, r);
    assert forall path: Path :: [] + path == path;
  }

  // ---- the same, as the walk without any pruning finds it -------------------------------

  function EntryRows(from: int, to: int): FileEntry -> multiset<Row> {
    (f: FileEntry) => multiset(Asked(f.stored, from, to))
  }

  function PartitionRows(scopes: Option<seq<Path>>, from: int, to: int): PartitionDir -> multiset<Row> {
    (p: PartitionDir) => if Replayed(p.path, scopes) then SumOf(EntryRows(from, to), p.files) else multiset{}
  }

  lemma {:induction false} ReceivedAreAsked(rows: seq<Row>, from: int, to: int)
    ensures RowsReceived(rows, from, to) == multiset(Keep(rows, InWindow(from, to)))
    decreases |rows|
  {
    if rows != [] {
      var front, last := rows[..|rows| - 1], rows[|rows| - 1];
      assert rows == front + [last];
      ReceivedAreAsked(front, from, to);
      KeepAppend(front, [last], InWindow(from, to));
    }
  }

  lemma {:induction false} FilesAreAsked(files: seq<FileEntry>, from: int, to: int)
    ensures RowsIn(files, from, to) == SumOf(EntryRows(from, to), files)
    decreases |files|
  {
    if files != [] {
      FilesAreAsked(files[1..], from, to);
      if files[0].stored.Reads? { ReceivedAreAsked(RowsOf(files[0].stored.segment), from, to); }
    }
  }

  lemma WantedIsReplayed(path: Path, scopes: Option<seq<Path>>)
    ensures Wanted(path, scopes) <==> Replayed(path, scopes)
  {
    if scopes.Some? {
      forall i | 0 <= i < |scopes.value| ensures scopes.value[i] in scopes.value {}
    }
  }

  lemma {:induction false} WalkFindsEverything(path: Path, t: Tree, scopes: Option<seq<Path>>, from: int, to: int)
    ensures SumOf(PartitionRows(scopes, from, to), Walk(path, t, name => true)) == RowsBelow(path, t, scopes, from, to)
    decreases t, 0
  {
    var all := (name: string) => true;
    EachWalkFindsEverything(path, t.subdirs, scopes, from, to);
    SumAppend(PartitionRows(scopes, from, to), WalkEach(path, t.subdirs, all), Own(path, t));
    WantedIsReplayed(path, scopes);
    FilesAreAsked(t.files, from, to);
    if t.files != [] { SumOfOnePartition(PartitionDir(path, t.files), scopes, from, to); }
  }

  lemma {:induction false} EachWalkFindsEverything(path: Path, subs: seq<Tree>, scopes: Option<seq<Path>>, from: int, to: int)
    ensures SumOf(PartitionRows(scopes, from, to), WalkEach(path, subs, name => true)) == RowsBelowEach(path, subs, scopes, from, to)
    decreases subs, 1
  {
    if subs != [] {
      WalkFindsEverything(path + [subs[0].name], subs[0], scopes, from, to);
      EachWalkFindsEverything(path, subs[1..], scopes, from, to);
      WalkEachSum(path, subs, name => true, PartitionRows(scopes, from, to));
    }
  }

  // ---- each pruning leaves out nothing asked for -------------------------------------

  lemma {:induction false} KeepsNothing(rows: seq<Row>, from: int, to: int)
    requires forall r :: r in rows ==> !(from <= r.recvMicros < to)
    ensures Keep(rows, InWindow(from, to)) == []
  {
    KeepNone(rows, InWindow(from, to));
  }

  lemma {:induction false} ListingKeepsRows(path: Path, files: seq<FileEntry>, from: int, to: int)
    requires forall f :: f in files ==> EntryHolds(f)
    ensures SumOf(AskedOf(from, to), Listed(path, files, from, to)) == SumOf(EntryRows(from, to), files)
    ensures forall p :: p in Listed(path, files, from, to) ==> StartsAt(p)
    decreases |files|
  {
    if files != [] {
      var front, last := files[..|files| - 1], files[|files| - 1];
      assert files == front + [last];
      ListingKeepsRows(path, front, from, to);
      SumAppend(EntryRows(from, to), front, [last]);
      SumOfOne(EntryRows(from, to), last);
      assert EntryHolds(last);
      if last.cursor.Time? && (last.cursor.lastMicros < from || last.cursor.firstMicros >= to) {
        if last.stored.Reads? { KeepsNothing(RowsOf(last.stored.segment), from, to); }
      } else {
        var p := Pending(if last.cursor.Time? then last.cursor.firstMicros else I64_MIN, path + [last.cursor.FileName()], last.stored);
        SumAppend(AskedOf(from, to), Listed(path, front, from, to), [p]);
        SumOfOne(AskedOf(from, to), p);
      }
    }
  }

  lemma {:induction false} PartitionsKeepRows(partitions: seq<PartitionDir>, scopes: Option<seq<Path>>, from: int, to: int)
    requires forall p, f :: p in partitions && f in p.files ==> EntryHolds(f)
    ensures SumOf(AskedOf(from, to), ListedIn(partitions, scopes, from, to)) == SumOf(PartitionRows(scopes, from, to), partitions)
    ensures forall p :: p in ListedIn(partitions, scopes, from, to) ==> StartsAt(p)
    decreases |partitions|
  {
    if partitions != [] {
      var p, rest := partitions[0], partitions[1..];
      assert p in partitions && forall q :: q in rest ==> q in partitions;
      PartitionsKeepRows(rest, scopes, from, to);
      var files := SortBy(EntryBefore, p.files);
      SortKeeps(EntryBefore, p.files);
      ListingKeepsRows(p.path, files, from, to);
      SumPermuted(EntryRows(from, to), files, p.files);
      var listed := if Replayed(p.path, scopes) then Listed(p.path, files, from, to) else [];
      SumAppend(AskedOf(from, to), listed, ListedIn(rest, scopes, from, to));
    }
  }

  lemma {:induction false} WalkIsLaidOut(path: Path, t: Tree, days: set<int>, descend: string -> bool)
    requires LaidOut(t, days)
    ensures forall p, f :: p in Walk(path, t, descend) && f in p.files ==> EntryHolds(f)
    decreases t, 0
  {
    WalkEachIsLaidOut(path, t.subdirs, days, descend);
  }

  ghost predicate EachLaidOut(subs: seq<Tree>, days: set<int>) {
    forall i :: 0 <= i < |subs| ==>
      var below := DayNamed(subs[i].name);
      LaidOut(subs[i], if below.Some? then days + {below.value} else days)
  }

  lemma {:induction false} WalkEachIsLaidOut(path: Path, subs: seq<Tree>, days: set<int>, descend: string -> bool)
    requires EachLaidOut(subs, days)
    ensures forall p, f :: p in WalkEach(path, subs, descend) && f in p.files ==> EntryHolds(f)
    decreases subs, 1
  {
    if subs != [] {
      var below := DayNamed(subs[0].name);
      WalkIsLaidOut(path + [subs[0].name], subs[0], if below.Some? then days + {below.value} else days, descend);
      WalkEachIsLaidOut(path, subs[1..], days, descend);
    }
  }

  lemma {:induction false} FilesHoldNothing(files: seq<FileEntry>, midnight: int, from: int, to: int)
    requires forall f :: f in files ==> WithinDay(f, midnight)
    requires !(midnight < to && midnight + MICROS_PER_DAY > from)
    ensures SumOf(EntryRows(from, to), files) == multiset{}
    decreases |files|
  {
    if files != [] {
      assert files[0] in files && forall f :: f in files[1..] ==> f in files;
      if files[0].stored.Reads? { KeepsNothing(RowsOf(files[0].stored.segment), from, to); }
      FilesHoldNothing(files[1..], midnight, from, to);
    }
  }

  /** Below a directory whose day the range misses there is nothing the range asks for. */
  lemma {:induction false} DayHoldsNothing(
      path: Path, t: Tree, days: set<int>, midnight: int, scopes: Option<seq<Path>>, from: int, to: int)
    requires LaidOut(t, days) && midnight in days && !(midnight < to && midnight + MICROS_PER_DAY > from)
    ensures SumOf(PartitionRows(scopes, from, to), Walk(path, t, name => true)) == multiset{}
    decreases t, 0
  {
    var all := (name: string) => true;
    EachDayHoldsNothing(path, t.subdirs, days, midnight, scopes, from, to);
    SumAppend(PartitionRows(scopes, from, to), WalkEach(path, t.subdirs, all), Own(path, t));
    if t.files != [] {
      FilesHoldNothing(t.files, midnight, from, to);
      SumOfOnePartition(PartitionDir(path, t.files), scopes, from, to);
    }
  }

  lemma SumOfOnePartition(p: PartitionDir, scopes: Option<seq<Path>>, from: int, to: int)
    ensures SumOf(PartitionRows(scopes, from, to), [p]) == PartitionRows(scopes, from, to)(p)
  {
    SumOfOne(PartitionRows(scopes, from, to), p);
  }

  lemma {:induction false} EachDayHoldsNothing(
      path: Path, subs: seq<Tree>, days: set<int>, midnight: int, scopes: Option<seq<Path>>, from: int, to: int)
    requires EachLaidOut(subs, days) && midnight in days && !(midnight < to && midnight + MICROS_PER_DAY > from)
    ensures SumOf(PartitionRows(scopes, from, to), WalkEach(path, subs, name => true)) == multiset{}
    decreases subs, 1
  {
    if subs != [] {
      var all := (name: string) => true;
      var below := DayNamed(subs[0].name);
      DayHoldsNothing(path + [subs[0].name], subs[0], if below.Some? then days + {below.value} else days, midnight, scopes, from, to);
      EachDayHoldsNothing(path, subs[1..], days, midnight, scopes, from, to);
      SumAppend(PartitionRows(scopes, from, to), Walk(path + [subs[0].name], subs[0], all), WalkEach(path, subs[1..], all));
    }
  }

  function Pruning(from: int, to: int): string -> bool {
    (name: string) => Covers(name, from, to)
  }

  lemma WalkEachSum(path: Path, subs: seq<Tree>, descend: string -> bool, f: PartitionDir -> multiset<Row>)
    requires subs != []
    ensures SumOf(f, WalkEach(path, subs, descend))
         == (if descend(subs[0].name) then SumOf(f, Walk(path + [subs[0].name], subs[0], descend)) else multiset{})
          + SumOf(f, WalkEach(path, subs[1..], descend))
  {
    var first := if descend(subs[0].name) then Walk(path + [subs[0].name], subs[0], descend) else [];
    SumAppend(f, first, WalkEach(path, subs[1..], descend));
  }

  lemma {:induction false} PrunedWalkKeepsRows(path: Path, t: Tree, days: set<int>, scopes: Option<seq<Path>>, from: int, to: int)
    requires LaidOut(t, days)
    ensures SumOf(PartitionRows(scopes, from, to), Walk(path, t, Pruning(from, to)))
         == SumOf(PartitionRows(scopes, from, to), Walk(path, t, name => true))
    decreases t, 0
  {
    var all, f := (name: string) => true, PartitionRows(scopes, from, to);
    EachPrunedWalkKeepsRows(path, t.subdirs, days, scopes, from, to);
    SumAppend(f, WalkEach(path, t.subdirs, all), Own(path, t));
    SumAppend(f, WalkEach(path, t.subdirs, Pruning(from, to)), Own(path, t));
  }

  lemma {:induction false} EachPrunedWalkKeepsRows(
      path: Path, subs: seq<Tree>, days: set<int>, scopes: Option<seq<Path>>, from: int, to: int)
    requires EachLaidOut(subs, days)
    ensures SumOf(PartitionRows(scopes, from, to), WalkEach(path, subs, Pruning(from, to)))
         == SumOf(PartitionRows(scopes, from, to), WalkEach(path, subs, name => true))
    decreases subs, 1
  {
    if subs != [] {
      var all, f := (name: string) => true, PartitionRows(scopes, from, to);
      var below, here := DayNamed(subs[0].name), path + [subs[0].name];
      var inner := if below.Some? then days + {below.value} else days;
      EachPrunedWalkKeepsRows(path, subs[1..], days, scopes, from, to);
      WalkEachSum(path, subs, all, f);
      WalkEachSum(path, subs, Pruning(from, to), f);
      if Covers(subs[0].name, from, to) {
        PrunedWalkKeepsRows(here, subs[0], inner, scopes, from, to);
      } else {
        DayHoldsNothing(here, subs[0], inner, below.value, scopes, from, to);
      }
    }
  }

  /** What a replay lists holds everything there is to replay, and nothing listed starts after its own rows. */
  lemma ListingLosesNothing(root: Tree, scopes: Option<seq<Path>>, from: int, to: int)
    requires LaidOut(root, {})
    ensures SumOf(AskedOf(from, to), StreamRange(root, scopes, from, to)) == Everything(root, scopes, from, to)
    ensures forall p :: p in StreamRange(root, scopes, from, to) ==> StartsAt(p)
  {
    var found := Walk([], root, Pruning(from, to));
    var sorted := SortBy(ByPath(), found);
    SortKeeps(ByPath(), found);
    WalkIsLaidOut([], root, {}, Pruning(from, to));
    PartitionsKeepRows(sorted, scopes, from, to);
    SumPermuted(PartitionRows(scopes, from, to), sorted, found);
    PrunedWalkKeepsRows([], root, {}, scopes, from, to);
    WalkFindsEverything([], root, scopes, from, to);
  }

  // ---- the order of the listing ----------------------------------------------------------

  lemma {:induction false} PathsCompare(a: Path, b: Path)
    ensures PathBefore(a, b) || PathBefore(b, a)
    ensures PathBefore(a, b) && PathBefore(b, a) <==> a == b
    decreases |a|
  {
    if a != [] && b != [] {
      BeforeOrSame(a[0], b[0]);
      PathsCompare(a[1..], b[1..]);
      assert a == [a[0]] + a[1..] && b == [b[0]] + b[1..];
    }
  }

  lemma {:induction false} PathsThrough(a: Path, b: Path, c: Path)
    requires PathBefore(a, b) && PathBefore(b, c)
    ensures PathBefore(a, c)
    decreases |a|
  {
    if a != [] {
      BeforeOrSame(a[0], b[0]);
      BeforeOrSame(b[0], c[0]);
      if Before(a[0], b[0]) && Before(b[0], c[0]) { BeforeThrough(a[0], b[0], c[0]); }
      if a[0] == b[0] == c[0] { PathsThrough(a[1..], b[1..], c[1..]); }
    }
  }

  lemma ByPathIsTotal()
    ensures TotalOrder(ByPath())
  {
    forall a: PartitionDir, b: PartitionDir ensures ByPath()(a, b) || ByPath()(b, a) { PathsCompare(a.path, b.path); }
    forall a: PartitionDir, b: PartitionDir, c: PartitionDir | ByPath()(a, b) && ByPath()(b, c) ensures ByPath()(a, c) {
      PathsThrough(a.path, b.path, c.path);
    }
  }

  /** The directory a listed segment is in. */
  function DirOf(p: Pending): Path {
    if p.path == [] then [] else p.path[..|p.path| - 1]
  }

  lemma {:induction false} ListedInItsDirectory(path: Path, files: seq<FileEntry>, from: int, to: int)
    ensures forall p :: p in Listed(path, files, from, to) ==> DirOf(p) == path
    decreases |files|
  {
    if files != [] {
      var last := files[|files| - 1];
      ListedInItsDirectory(path, files[..|files| - 1], from, to);
      assert (path + [last.cursor.FileName()])[..|path|] == path;
    }
  }

  lemma {:induction false} ListedAlongPaths(partitions: seq<PartitionDir>, scopes: Option<seq<Path>>, from: int, to: int)
    requires Sorted(ByPath(), partitions)
    ensures var list := ListedIn(partitions, scopes, from, to);
            && (forall p :: p in list ==> exists d :: d in partitions && d.path == DirOf(p))
            && forall i, j :: 0 <= i < j < |list| ==> PathBefore(DirOf(list[i]), DirOf(list[j]))
    decreases |partitions|
  {
    if partitions != [] {
      var p, rest := partitions[0], partitions[1..];
      ListedAlongPaths(rest, scopes, from, to);
      ListedInItsDirectory(p.path, SortBy(EntryBefore, p.files), from, to);
      PathsCompare(p.path, p.path);
      var here := if Replayed(p.path, scopes) then Listed(p.path, SortBy(EntryBefore, p.files), from, to) else [];
      var below := ListedIn(rest, scopes, from, to);
      FirstThenRest(p, rest, here, below);
      assert p in partitions && forall d :: d in rest ==> d in partitions;
    }
  }

  /** The name a listed segment has in its directory. */
  predicate Named(p: Pending, c: Cursor) {
    p.path != [] && p.path[|p.path| - 1] == c.FileName()
  }

  ghost predicate NamedInOrder(p: Pending, q: Pending) {
    exists a, b :: Named(p, a) && Named(q, b) && ListedBefore(a, b)
  }

  predicate NamedIn(p: Pending, files: seq<FileEntry>) {
    exists k :: 0 <= k < |files| && Named(p, files[k].cursor)
  }

  lemma NamedInMore(p: Pending, files: seq<FileEntry>)
    requires files != [] && NamedIn(p, files[..|files| - 1])
    ensures NamedIn(p, files)
  {
    var front := files[..|files| - 1];
    var k :| 0 <= k < |front| && Named(p, front[k].cursor);
    assert Named(p, files[k].cursor);
  }

  lemma NamedBeforeLast(p: Pending, added: Pending, files: seq<FileEntry>)
    requires files != [] && Sorted(EntryBefore, files) && NamedIn(p, files[..|files| - 1])
    requires Named(added, files[|files| - 1].cursor)
    ensures NamedInOrder(p, added)
  {
    var front := files[..|files| - 1];
    var k :| 0 <= k < |front| && Named(p, front[k].cursor);
    assert EntryBefore(files[k], files[|files| - 1]);
  }

  ghost predicate InNameOrder(list: seq<Pending>, files: seq<FileEntry>) {
    && (forall i {:trigger NamedIn(list[i], files)} :: 0 <= i < |list| ==> NamedIn(list[i], files))
    && (forall i, j {:trigger NamedInOrder(list[i], list[j])} :: 0 <= i < j < |list| ==> NamedInOrder(list[i], list[j]))
  }

  lemma StillInNameOrder(list: seq<Pending>, files: seq<FileEntry>)
    requires files != [] && InNameOrder(list, files[..|files| - 1])
    ensures InNameOrder(list, files)
  {
    forall i | 0 <= i < |list| ensures NamedIn(list[i], files) {
      assert NamedIn(list[i], files[..|files| - 1]);
      NamedInMore(list[i], files);
    }
  }

  lemma OneMoreInNameOrder(before: seq<Pending>, added: Pending, files: seq<FileEntry>)
    requires files != [] && Sorted(EntryBefore, files) && InNameOrder(before, files[..|files| - 1])
    requires Named(added, files[|files| - 1].cursor)
    ensures InNameOrder(before + [added], files)
  {
    var list := before + [added];
    StillInNameOrder(before, files);
    assert NamedIn(added, files);
    forall i | 0 <= i < |list| ensures NamedIn(list[i], files) {
      if i < |before| { assert NamedIn(before[i], files); }
    }
    forall i, j | 0 <= i < j < |list| ensures NamedInOrder(list[i], list[j]) {
      if j < |before| {
        assert NamedInOrder(before[i], before[j]);
      } else {
        assert NamedIn(before[i], files[..|files| - 1]);
        NamedBeforeLast(before[i], added, files);
      }
    }
  }

  lemma {:induction false} ListedInNameOrder(path: Path, files: seq<FileEntry>, from: int, to: int)
    requires Sorted(EntryBefore, files)
    ensures InNameOrder(Listed(path, files, from, to), files)
    decreases |files|
  {
    if files != [] {
      var before, list := Listed(path, files[..|files| - 1], from, to), Listed(path, files, from, to);
      ListedInNameOrder(path, files[..|files| - 1], from, to);
      if list == before {
        StillInNameOrder(before, files);
      } else {
        OneMoreInNameOrder(before, list[|before|], files);
        assert list == before + [list[|before|]];
      }
    }
  }

  /** Of one partition segments are listed in the order of their names. */
  lemma PartitionGoesByName(path: Path, files: seq<FileEntry>, from: int, to: int, i: nat, j: nat)
    requires i < j < |Listed(path, SortBy(EntryBefore, files), from, to)|
    ensures var list := Listed(path, SortBy(EntryBefore, files), from, to); NamedInOrder(list[i], list[j])
  {
    assert TotalOrder(EntryBefore);
    SortBySorts(EntryBefore, files);
    ListedInNameOrder(path, SortBy(EntryBefore, files), from, to);
    assert InNameOrder(Listed(path, SortBy(EntryBefore, files), from, to), SortBy(EntryBefore, files));
  }

  lemma FirstThenRest(p: PartitionDir, rest: seq<PartitionDir>, here: seq<Pending>, below: seq<Pending>)
    requires Sorted(ByPath(), [p] + rest) && (forall q :: q in here ==> DirOf(q) == p.path) && PathBefore(p.path, p.path)
    requires forall q :: q in below ==> exists d :: d in rest && d.path == DirOf(q)
    requires forall i, j :: 0 <= i < j < |below| ==> PathBefore(DirOf(below[i]), DirOf(below[j]))
    ensures forall i, j :: 0 <= i < j < |here + below| ==> PathBefore(DirOf((here + below)[i]), DirOf((here + below)[j]))
  {
    var list := here + below;
    forall i, j | 0 <= i < j < |list| ensures PathBefore(DirOf(list[i]), DirOf(list[j])) {
      if i < |here| <= j {
        assert list[i] in here && list[j] in below;
        var k :| 0 <= k < |rest| && rest[k].path == DirOf(list[j]);
        assert ByPath()(([p] + rest)[0], ([p] + rest)[k + 1]);
      } else if j < |here| {
        assert list[i] in here && list[j] in here;
      }
    }
  }

  /** A listing goes by path, whatever order the directories were found in. */
  lemma ListingGoesByPath(root: Tree, scopes: Option<seq<Path>>, from: int, to: int, i: nat, j: nat)
    requires i < j < |StreamRange(root, scopes, from, to)|
    ensures var list := StreamRange(root, scopes, from, to); PathBefore(DirOf(list[i]), DirOf(list[j]))
  {
    var found := Walk([], root, Pruning(from, to));
    ByPathIsTotal();
    SortBySorts(ByPath(), found);
    ListedAlongPaths(SortBy(ByPath(), found), scopes, from, to);
  }

  lemma ListedFails(list: seq<Pending>, sorted: seq<Pending>)
    requires sorted == SortBy(LatestFirst, list) && exists j :: 0 <= j < |sorted| && sorted[j].stored.Fails?
    ensures exists p :: p in list && p.stored.Fails?
  {
    SortKeeps(LatestFirst, list);
    var j :| 0 <= j < |sorted| && sorted[j].stored.Fails?;
    assert sorted[j] in list;
  }

  /** A whole replay of a listing. */
  method ReplayListed(list: seq<Pending>, from: int, to: int) returns (rows: seq<Row>, complete: bool)
    requires forall i :: 0 <= i < |list| ==> StartsAt(list[i])
    ensures OrderedBefore(rows, SumOf(AskedOf(from, to), list) - multiset(rows)) && multiset(rows) <= SumOf(AskedOf(from, to), list)
    ensures complete ==> multiset(rows) == SumOf(AskedOf(from, to), list)
    ensures rows <= ReplayOrder(list, from, to) && (complete ==> rows == ReplayOrder(list, from, to))
    ensures !complete ==> exists p :: p in list && p.stored.Fails?
  {
    var replay := new Replay(list, from, to);
    ghost var listed := replay.listed;
    rows, complete := replay.Collect(ReplayOrder(list, from, to));
    if !complete { ListedFails(list, listed); }
  }

  /** A replay of the tree: every row in scope and in range, once each, in receipt and sequence order. */
  method ReadRangeOf(root: Tree, scopes: Option<seq<Path>>, from: int, to: int) returns (rows: seq<Row>, complete: bool)
    requires LaidOut(root, {})
    ensures Sorted(KeyLe, rows) && multiset(rows) <= Everything(root, scopes, from, to)
    ensures complete ==> multiset(rows) == Everything(root, scopes, from, to)
    ensures !complete ==> exists p :: p in StreamRange(root, scopes, from, to) && p.stored.Fails?
    ensures OrderedBefore(rows, Everything(root, scopes, from, to) - multiset(rows))
    ensures var whole := ReplayOrder(StreamRange(root, scopes, from, to), from, to); rows <= whole && (complete ==> rows == whole)
  {
    ListingLosesNothing(root, scopes, from, to);
    rows, complete := ReplayListed(StreamRange(root, scopes, from, to), from, to);
  }
}
