/** When compaction leaves exactly the rows it was given, however often it was interrupted on the way. */
module Exactness {
  import opened Sorting
  import opened Cursors
  import opened Segments
  import opened Containment
  import opened Compaction

  /** A whole partition, listed. */
  ghost predicate ListingOf(dir: Directory, listed: seq<Cursor>) {
    Distinct(listed) && Sorted(ListedBefore, listed) && (forall c :: c in listed <==> c in dir)
  }

  /** A partition as capture writes it: one variant, nothing empty, names and footers true of the rows. */
  ghost predicate WellKept(dir: Directory) {
    && (forall c, d :: c in dir && d in dir ==> c.Kind() == d.Kind())
    && (forall c :: c in dir ==>
          && c.Fits() && RowsOf(dir[c]) != [] && NameBounds(c, dir[c]) && dir[c].Sound())
  }

  function AllRows(dir: Directory, listed: seq<Cursor>): multiset<Row> {
    SumOf(RowBag(dir), listed)
  }

  ghost predicate NoRowTwice(rows: multiset<Row>) {
    forall r :: rows[r] <= 1
  }

  /** One run over a whole partition: what it listed, what of it read each time, and where it stopped. */
  datatype Attempt = Attempt(listed: seq<Cursor>, reading: Reads, left: Directory)

  ghost predicate Attempted(dir: Directory, a: Attempt) {
    && ListingOf(dir, a.listed) && OneKind(a.listed) && ReadsFrom(a.reading, dir)
    && RunState(dir, PlanOf(a.listed, a.reading), a.left)
  }

  /** Whatever read while merging had read while duplicates were proven. */
  predicate Steady(a: Attempt) {
    forall c :: c in a.listed && c in a.reading.inputs ==> c in a.reading.proof
  }

  predicate AllSteady(attempts: seq<Attempt>) {
    forall i :: 0 <= i < |attempts| ==> Steady(attempts[i])
  }

  /** Runs one after another, each from where the last one stopped. */
  ghost predicate AttemptedAll(dir: Directory, attempts: seq<Attempt>)
    decreases |attempts|
  {
    attempts == [] || (Attempted(dir, attempts[0]) && AttemptedAll(attempts[0].left, attempts[1..]))
  }

  function LeftBy(dir: Directory, attempts: seq<Attempt>): Directory {
    if attempts == [] then dir else attempts[|attempts| - 1].left
  }

  function Everything(dir: Directory): Reads {
    Reads(dir, dir)
  }

  /** A run nothing interrupts and in which everything reads. */
  ghost predicate Completed(dir: Directory, listed: seq<Cursor>, left: Directory) {
    ListingOf(dir, listed) && OneKind(listed) && left == Final(dir, PlanOf(listed, Everything(dir)))
  }

  /** A segment spanning exactly what the merge will, under a name the merge does not reuse. */
  ghost predicate Rival(listed: seq<Cursor>, c: Cursor)
    requires OneKind(listed)
  {
    && |listed| > 1 && c in listed
    && var name := MergedName(listed);
       c != name && c.First() == name.First() && c.Last() == name.Last()
  }

  /** A segment with rows of the last representable receipt that a window over it misses in the merge. */
  ghost predicate LeftOut(dir: Directory, listed: seq<Cursor>, c: Cursor)
    requires OneKind(listed) && forall e :: e in listed ==> e in dir
  {
    && |listed| > 1 && c in listed && c.Time? && c != MergedName(listed)
    && exists r :: r in RowsOf(dir[c]) && Misses(Written(MergedRows(listed, dir)), r)
  }

  /** The one segment a finished partition holds. */
  ghost predicate HoldsExactly(dir: Directory, rows: multiset<Row>) {
    exists name :: dir.Keys == {name} && multiset(RowsOf(dir[name])) == rows && NameBounds(name, dir[name])
  }

  /** Between the rename and the last removal: a replacement holding everything, and originals strictly inside it. */
  ghost predicate Replaced(start: Directory, rows: multiset<Row>, d: Directory, name: Cursor) {
    && name in d
    && multiset(RowsOf(d[name])) == rows && NameBounds(name, d[name]) && d[name].Sound()
    && (forall c :: c in d && c != name ==> c in start && d[c] == start[c] && StrictlyInside(c, name))
    && (forall c, r :: c in d && c != name && c.Time? && r in RowsOf(d[c]) ==> !Misses(d[name], r))
  }

  // ---- sums over a partition ------------------------------------------------------

  lemma {:induction false} SumOfPart(f: Cursor -> multiset<Row>, part: seq<Cursor>, whole: seq<Cursor>)
    requires Distinct(part) && forall c :: c in part ==> c in whole
    ensures SumOf(f, part) <= SumOf(f, whole)
    decreases |part|
  {
    if part != [] {
      assert part[0] in whole;
      var k :| 0 <= k < |whole| && whole[k] == part[0];
      var rest := whole[..k] + whole[k + 1..];
      assert whole == whole[..k] + ([whole[k]] + whole[k + 1..]);
      forall c | c in part[1..] ensures c in rest {
        var i :| 0 <= i < |part[1..]| && part[1..][i] == c;
        assert part[i + 1] == c && part[i + 1] != part[0] && c in part;
        var j :| 0 <= j < |whole| && whole[j] == c;
        assert if j < k then whole[..k][j] == c else whole[k + 1..][j - k - 1] == c;
      }
      SumOfPart(f, part[1..], rest);
      SumAppend(f, whole[..k], [whole[k]] + whole[k + 1..]);
      SumAppend(f, whole[..k], whole[k + 1..]);
      assert ([whole[k]] + whole[k + 1..])[1..] == whole[k + 1..];
    }
  }

  lemma {:induction false} SameNamesSameMultiset(xs: seq<Cursor>, ys: seq<Cursor>)
    requires Distinct(xs) && Distinct(ys) && forall c :: c in xs <==> c in ys
    ensures multiset(xs) == multiset(ys)
  {
    DistinctCounts(xs);
    DistinctCounts(ys);
    forall c ensures multiset(xs)[c] == multiset(ys)[c] {
      assert c in xs <==> c in multiset(xs);
      assert c in ys <==> c in multiset(ys);
    }
  }

  lemma {:induction false} SumOfSame(f: Cursor -> multiset<Row>, g: Cursor -> multiset<Row>, xs: seq<Cursor>)
    requires forall c :: c in xs ==> f(c) == g(c)
    ensures SumOf(f, xs) == SumOf(g, xs)
    decreases |xs|
  {
    if xs != [] {
      assert xs[0] in xs;
      assert forall c :: c in xs[1..] ==> c in xs;
      SumOfSame(f, g, xs[1..]);
    }
  }

  lemma SumOfTwo(f: Cursor -> multiset<Row>, c: Cursor, w: Cursor)
    ensures SumOf(f, [c, w]) == f(c) + f(w)
  {
    assert [c, w][1..] == [w] && [w][1..] == [];
    assert SumOf(f, [w]) == f(w) + SumOf(f, []);
  }

  lemma TwoHoldersCountTwice(dir: Directory, listed: seq<Cursor>, c: Cursor, w: Cursor, r: Row)
    requires Distinct(listed) && c in listed && w in listed && c != w && c in dir && w in dir
    requires r in RowsOf(dir[c]) && r in RowsOf(dir[w])
    ensures AllRows(dir, listed)[r] > 1
  {
    var f := RowBag(dir);
    SumOfPart(f, [c, w], listed);
    SumOfTwo(f, c, w);
    assert f(c) == multiset(RowsOf(dir[c])) && f(w) == multiset(RowsOf(dir[w]));
    assert r in f(c) && r in f(w);
  }

  // ---- the span of a merge ----------------------------------------------------------

  lemma {:induction false} SpanCovers(existing: seq<Cursor>)
    requires existing != []
    ensures forall c :: c in existing ==> Lo(existing) <= c.First() && c.Last() <= Hi(existing)
    decreases |existing|
  {
    if |existing| > 1 {
      SpanCovers(existing[..|existing| - 1]);
      assert existing == existing[..|existing| - 1] + [existing[|existing| - 1]];
    }
  }

  lemma MergedNameSpans(existing: seq<Cursor>, c: Cursor)
    requires OneKind(existing) && c in existing
    ensures var name := MergedName(existing);
            c.Kind() == name.Kind() && name.First() <= c.First() && c.Last() <= name.Last()
  {
    SpanCovers(existing);
  }

  lemma MergedNameBounds(existing: seq<Cursor>, readable: Directory)
    requires existing != [] && OneKind(existing)
    requires forall c :: c in existing ==> c in readable && NameBounds(c, readable[c])
    ensures NameBounds(MergedName(existing), Written(MergedRows(existing, readable)))
  {
    var name := MergedName(existing);
    WrittenReadsBack(MergedRows(existing, readable));
    forall r | r in MergedRows(existing, readable)
      ensures name.First() <= PositionOf(name.Kind(), r) <= name.Last()
    {
      RowComesFrom(existing, readable, r);
      var c :| c in existing && r in RowsOf(readable[c]);
      MergedNameSpans(existing, c);
      assert NameBounds(c, readable[c]);
    }
  }

  lemma {:induction false} RowComesFrom(existing: seq<Cursor>, readable: Directory, r: Row)
    requires forall c :: c in existing ==> c in readable
    requires r in MergedRows(existing, readable)
    ensures exists c :: c in existing && r in RowsOf(readable[c])
    decreases |existing|
  {
    var front, last := existing[..|existing| - 1], existing[|existing| - 1];
    if r in MergedRows(front, readable) {
      RowComesFrom(front, readable, r);
      var c :| c in front && r in RowsOf(readable[c]);
      assert c in existing;
    } else {
      assert last in existing;
    }
  }

  // ---- from the start: nothing is condemned, and the rename is all or nothing -----------

  lemma NothingCondemned(dir: Directory, listed: seq<Cursor>, readable: Directory)
    requires WellKept(dir) && ListingOf(dir, listed) && FoundIn(readable, dir)
    requires NoRowTwice(AllRows(dir, listed))
    ensures Doomed(listed, readable) == {}
  {
    if c :| c in Doomed(listed, readable) {
      var w := ProvenIsHeld(listed, readable, c);
      var r := RowsOf(dir[c])[0];
      assert r in multiset(RowsOf(readable[c]));
      assert r in multiset(RowsOf(readable[w]));
      TwoHoldersCountTwice(dir, listed, c, w, r);
    }
  }

  lemma {:induction false} WithoutNothing(listed: seq<Cursor>)
    ensures Without(listed, {}) == listed
    decreases |listed|
  {
    if listed != [] { WithoutNothing(listed[1..]); }
  }

  lemma FirstPlan(dir: Directory, listed: seq<Cursor>, reading: Reads)
    requires WellKept(dir) && ListingOf(dir, listed) && OneKind(listed) && ReadsFrom(reading, dir)
    requires NoRowTwice(AllRows(dir, listed))
    ensures PlanOf(listed, reading) == Plan({}, listed, MergeOf(listed, reading.inputs))
  {
    NothingCondemned(dir, listed, reading.proof);
    WithoutNothing(listed);
  }

  lemma MergeHoldsAll(dir: Directory, listed: seq<Cursor>, readable: Directory, written: Segment)
    requires WellKept(dir) && ListingOf(dir, listed) && OneKind(listed) && FoundIn(readable, dir)
    requires MergeOf(listed, readable).Into? && written == Written(MergedRows(listed, readable))
    ensures multiset(RowsOf(written)) == AllRows(dir, listed) && NameBounds(MergedName(listed), written) && written.Sound()
  {
    MergedRowsHold(listed, readable);
    SumOfSame(RowBag(readable), RowBag(dir), listed);
    WrittenReadsBack(MergedRows(listed, readable));
    MergedNameBounds(listed, readable);
  }

  lemma {:induction false} MergedRowsSame(existing: seq<Cursor>, readable: Directory, dir: Directory)
    requires FoundIn(readable, dir) && forall c :: c in existing ==> c in readable
    ensures MergedRows(existing, readable) == MergedRows(existing, dir)
    decreases |existing|
  {
    if existing != [] {
      assert existing[|existing| - 1] in existing;
      MergedRowsSame(existing[..|existing| - 1], readable, dir);
    }
  }

  lemma RenameReplaces(dir: Directory, listed: seq<Cursor>, readable: Directory, gone: set<Cursor>)
    requires WellKept(dir) && ListingOf(dir, listed) && OneKind(listed) && FoundIn(readable, dir)
    requires MergeOf(listed, readable).Into?
    requires forall c :: !Rival(listed, c) && !LeftOut(dir, listed, c)
    requires gone <= (set c | c in listed) - {MergedName(listed)}
    ensures var plan := Plan({}, listed, MergeOf(listed, readable));
            Replaced(dir, AllRows(dir, listed), Sans(Renamed(dir, plan), gone), MergedName(listed))
  {
    var name := MergedName(listed);
    var d := Sans(Renamed(dir, Plan({}, listed, MergeOf(listed, readable))), gone);
    assert d[name] == Written(MergedRows(listed, readable));
    MergeHoldsAll(dir, listed, readable, d[name]);
    forall c | c in d && c != name ensures c in dir && d[c] == dir[c] && StrictlyInside(c, name) {
      MergedNameSpans(listed, c);
      assert !Rival(listed, c);
    }
    MergedRowsSame(listed, readable, dir);
    forall c, r | c in d && c != name && c.Time? && r in RowsOf(d[c]) ensures !Misses(d[name], r) {
      assert !LeftOut(dir, listed, c);
    }
  }

  // ---- from an interrupted merge: every survivor is condemned, and nothing is merged again ----

  lemma {:induction false} ContainedInOne(pairs: seq<Pair>, name: Cursor)
    requires forall p :: p in pairs ==> p.container == name
    ensures |ContainedIn(pairs, name)| == |pairs|
    ensures forall i :: 0 <= i < |pairs| ==> ContainedIn(pairs, name)[i] == pairs[i].contained
    decreases |pairs|
  {
    if pairs != [] {
      assert pairs[0] in pairs;
      assert forall p :: p in pairs[1..] ==> p in pairs;
      ContainedInOne(pairs[1..], name);
    }
  }

  /** Every pair the sweep finds over an interrupted merge is a survivor and the replacement. */
  lemma SurvivorsAreInside(start: Directory, rows: multiset<Row>, d: Directory, name: Cursor, listed: seq<Cursor>)
    requires Replaced(start, rows, d, name) && ListingOf(d, listed)
    ensures var pairs := PairsOf(Swept(listed));
            && (forall p :: p in pairs ==> p.container == name)
            && Distinct(ContainedIn(pairs, name))
            && (forall c :: c in ContainedIn(pairs, name) <==> c in d && c != name)
  {
    var pairs := PairsOf(Swept(listed));
    SweepIsCrossProduct(listed);
    SortKeeps(SweptBefore, listed);
    DistinctPermuted(listed, Swept(listed));
    EachReportedOnce(Swept(listed));
    assert name in listed;
    forall c | c in listed && c != name ensures Reported(c, pairs) {
      assert Inside(c, listed);
    }
    ContainedInOne(pairs, name);
    ContainedInHolds(pairs, name);
    forall c | c in d && c != name ensures c in ContainedIn(pairs, name) {
      assert Reported(c, pairs);
    }
  }

  lemma OnlySurvivorsAreCondemned(start: Directory, rows: multiset<Row>, d: Directory, name: Cursor, listed: seq<Cursor>, readable: Directory)
    requires Replaced(start, rows, d, name) && ListingOf(d, listed)
    ensures Doomed(listed, readable) <= d.Keys - {name}
  {
    SurvivorsAreInside(start, rows, d, name, listed);
    var pairs := PairsOf(Swept(listed));
    ContainedInHolds(pairs, name);
    forall p | p in pairs ensures p.contained in d.Keys - {name} {
      assert p == Pair(p.contained, name);
    }
  }

  /** The replacement holds its survivors' rows all at once. */
  lemma SurvivorsFit(start: Directory, whole: seq<Cursor>, d: Directory, name: Cursor, contained: seq<Cursor>, readable: Directory)
    requires ListingOf(start, whole) && Replaced(start, AllRows(start, whole), d, name) && FoundIn(readable, d)
    requires Distinct(contained) && forall c :: c in contained ==> c in d && c != name
    ensures SumOf(RowBag(readable), contained) <= AllRows(start, whole)
  {
    SumOfSmaller(RowBag(readable), RowBag(start), contained);
    SumOfPart(RowBag(start), contained, whole);
  }

  lemma SurvivorsAreNotMissed(start: Directory, rows: multiset<Row>, d: Directory, name: Cursor, contained: seq<Cursor>, readable: Directory)
    requires WellKept(start) && Replaced(start, rows, d, name) && FoundIn(readable, d) && name in readable
    requires forall c :: c in contained ==> c in d && c != name
    ensures NoneMissed(readable[name], contained, readable) && forall c :: c in contained ==> c.Fits()
  {
    forall c, r | ReachesTheEnd(contained) && c in contained && c in readable && r in RowsOf(readable[c])
      ensures !Misses(readable[name], r)
    {
      assert contained[0].Time? && contained[0].Kind() == c.Kind();
    }
  }

  lemma SurvivorsAreCondemned(start: Directory, whole: seq<Cursor>, d: Directory, name: Cursor, listed: seq<Cursor>, readable: Directory)
    requires WellKept(start) && ListingOf(start, whole)
    requires Replaced(start, AllRows(start, whole), d, name) && ListingOf(d, listed) && FoundIn(readable, d)
    requires name in readable
    ensures forall c :: c in d && c != name && c in readable ==> c in Doomed(listed, readable)
  {
    var pairs := PairsOf(Swept(listed));
    var contained := ContainedIn(pairs, name);
    SurvivorsAreInside(start, AllRows(start, whole), d, name, listed);
    ContainedInHolds(pairs, name);
    SurvivorsFit(start, whole, d, name, contained, readable);
    SurvivorsAreNotMissed(start, AllRows(start, whole), d, name, contained, readable);
    forall c | c in contained && c in readable ensures NameBounds(c, readable[c]) && RowsOf(readable[c]) != [] {
      assert readable[c] == start[c];
    }
    AllInsideAreProven(pairs, name, readable);
  }

  lemma {:induction false} SumOfSmaller(f: Cursor -> multiset<Row>, g: Cursor -> multiset<Row>, xs: seq<Cursor>)
    requires forall c :: c in xs ==> f(c) <= g(c)
    ensures SumOf(f, xs) <= SumOf(g, xs)
    decreases |xs|
  {
    if xs != [] {
      assert xs[0] in xs;
      assert forall c :: c in xs[1..] ==> c in xs;
      SumOfSmaller(f, g, xs[1..]);
    }
  }

  // ---- every run, however many stop -----------------------------------------------------

  ghost predicate NoRivals(start: Directory) {
    forall listed, c :: ListingOf(start, listed) && OneKind(listed) ==> !Rival(listed, c)
  }

  ghost predicate NoneLeftOut(start: Directory) {
    forall listed, c :: ListingOf(start, listed) && OneKind(listed) ==> !LeftOut(start, listed, c)
  }

  /** Whatever an interruption leaves of the merge and its originals, a later run knows the originals in it. */
  ghost predicate Recognisable(start: Directory) {
    NoRivals(start) && NoneLeftOut(start)
  }

  ghost predicate OnTheWay(start: Directory, rows: multiset<Row>, d: Directory) {
    d == start || exists name :: Replaced(start, rows, d, name)
  }

  lemma AnyListingSums(start: Directory, a: seq<Cursor>, b: seq<Cursor>)
    requires ListingOf(start, a) && ListingOf(start, b)
    ensures AllRows(start, a) == AllRows(start, b)
  {
    SameNamesSameMultiset(a, b);
    SumPermuted(RowBag(start), a, b);
  }

  lemma StatesFromStart(start: Directory, listed: seq<Cursor>, readable: Directory, d: Directory)
    requires WellKept(start) && ListingOf(start, listed) && OneKind(listed) && FoundIn(readable, start) && Recognisable(start)
    requires RunState(start, Plan({}, listed, MergeOf(listed, readable)), d)
    ensures OnTheWay(start, AllRows(start, listed), d)
  {
    var plan := Plan({}, listed, MergeOf(listed, readable));
    if RemovingDoomed(start, plan, d) {
      assert d == start;
    } else {
      var gone :| gone <= Originals(plan) && d == Sans(Renamed(start, plan), gone);
      RenameReplaces(start, listed, readable, gone);
    }
  }

  lemma StepFromStart(start: Directory, whole: seq<Cursor>, a: Attempt)
    requires WellKept(start) && ListingOf(start, whole) && NoRowTwice(AllRows(start, whole)) && Recognisable(start)
    requires Attempted(start, a)
    ensures OnTheWay(start, AllRows(start, whole), a.left)
  {
    AnyListingSums(start, whole, a.listed);
    FirstPlan(start, a.listed, a.reading);
    StatesFromStart(start, a.listed, a.reading.inputs, a.left);
  }

  /** Over an interrupted merge the proof condemns exactly the survivors that read beside the replacement. */
  lemma CondemnedExactly(start: Directory, whole: seq<Cursor>, d: Directory, name: Cursor, listed: seq<Cursor>, proof: Directory, c: Cursor)
    requires WellKept(start) && ListingOf(start, whole)
    requires Replaced(start, AllRows(start, whole), d, name) && ListingOf(d, listed) && FoundIn(proof, d)
    ensures c in Doomed(listed, proof) <==> c in d && c != name && c in proof && name in proof
  {
    OnlySurvivorsAreCondemned(start, AllRows(start, whole), d, name, listed, proof);
    if name in proof { SurvivorsAreCondemned(start, whole, d, name, listed, proof); }
    if c in Doomed(listed, proof) {
      var w := ProvenIsHeld(listed, proof, c);
      SurvivorsOnlyInside(start, AllRows(start, whole), d, name, listed, proof, w);
    }
  }

  lemma SurvivorsOnlyInside(start: Directory, rows: multiset<Row>, d: Directory, name: Cursor, listed: seq<Cursor>, proof: Directory, w: Cursor)
    requires Replaced(start, rows, d, name) && ListingOf(d, listed) && w in proof
    ensures Doomed(listed, proof) != {} ==> name in proof
  {
    SurvivorsAreInside(start, rows, d, name, listed);
    var pairs := PairsOf(Swept(listed));
    if c :| c in Doomed(listed, proof) {
      var p :| p in pairs && p.contained == c && c in ProvenIn(p.container, ContainedIn(pairs, p.container), proof);
      assert p.container == name;
    }
  }

  /** Not proven in the replacement: it, or the replacement, did not read at the time. */
  predicate Unproven(d: Directory, name: Cursor, proof: Directory, c: Cursor) {
    c in d && c != name && !(c in proof && name in proof)
  }

  lemma KeptExactly(start: Directory, whole: seq<Cursor>, d: Directory, name: Cursor, listed: seq<Cursor>, reading: Reads)
    requires WellKept(start) && ListingOf(start, whole)
    requires Replaced(start, AllRows(start, whole), d, name) && ListingOf(d, listed) && OneKind(listed) && ReadsFrom(reading, d)
    ensures forall c :: c in PlanOf(listed, reading).existing <==> c == name || Unproven(d, name, reading.proof, c)
    ensures Distinct(PlanOf(listed, reading).existing)
  {
    WithoutHolds(listed, Doomed(listed, reading.proof));
    forall c ensures c in PlanOf(listed, reading).existing <==> c == name || Unproven(d, name, reading.proof, c) {
      CondemnedExactly(start, whole, d, name, listed, reading.proof, c);
    }
  }

  lemma MergesExactly(existing: seq<Cursor>, inputs: Directory)
    requires OneKind(existing) && forall c :: c in existing && c in inputs ==> RowsOf(inputs[c]) != []
    ensures MergeOf(existing, inputs).Into? <==> |existing| > 1 && forall c :: c in existing ==> c in inputs
  {
    if |existing| > 1 { assert existing[0] in existing; }
  }

  lemma MoreThanOne(existing: seq<Cursor>, name: Cursor)
    requires Distinct(existing) && name in existing
    ensures |existing| > 1 <==> exists c :: c in existing && c != name
  {
    if |existing| > 1 { AnotherOfMany(existing, name); }
    if c :| c in existing && c != name {
      if |existing| <= 1 { OneOrNone(existing, c, name); }
    }
  }

  /**
    A run over an interrupted merge merges it in again exactly where a survivor went unproven and everything kept
    reads when it comes to merging.
   */
  lemma MergedAgainExactly(start: Directory, whole: seq<Cursor>, d: Directory, name: Cursor, listed: seq<Cursor>, reading: Reads)
    requires start != map[] && WellKept(start) && ListingOf(start, whole)
    requires Replaced(start, AllRows(start, whole), d, name) && ListingOf(d, listed) && OneKind(listed) && ReadsFrom(reading, d)
    ensures PlanOf(listed, reading).merge.Into? <==>
              && (exists c :: Unproven(d, name, reading.proof, c))
              && name in reading.inputs && forall c :: Unproven(d, name, reading.proof, c) ==> c in reading.inputs
  {
    var existing := PlanOf(listed, reading).existing;
    KeptExactly(start, whole, d, name, listed, reading);
    WithoutHolds(listed, Doomed(listed, reading.proof));
    ReplacedIsNotEmpty(start, whole, d, name);
    MergesExactly(existing, reading.inputs);
    MoreThanOne(existing, name);
    assert (exists c :: c in existing && c != name) <==> exists c :: Unproven(d, name, reading.proof, c) by {
      if c :| c in existing && c != name { assert Unproven(d, name, reading.proof, c); }
    }
  }

  lemma OneOrNone(xs: seq<Cursor>, a: Cursor, b: Cursor)
    requires |xs| <= 1 && a in xs && b in xs
    ensures a == b
  {
  }

  lemma ReplacedIsNotEmpty(start: Directory, whole: seq<Cursor>, d: Directory, name: Cursor)
    requires start != map[] && WellKept(start) && ListingOf(start, whole) && Replaced(start, AllRows(start, whole), d, name)
    ensures forall w :: w in d ==> RowsOf(d[w]) != []
  {
    var c :| c in start;
    SumOfPart(RowBag(start), [c], whole);
    assert SumOf(RowBag(start), [c]) == RowBag(start)(c) + SumOf(RowBag(start), [c][1..]);
    assert RowsOf(start[c])[0] in multiset(RowsOf(start[c]));
    assert RowsOf(start[c])[0] in multiset(RowsOf(d[name]));
  }

  /** Over an interrupted merge a run in which whatever is merged had read for the proof has nothing left to merge. */
  lemma NothingLeftToMerge(start: Directory, whole: seq<Cursor>, d: Directory, name: Cursor, listed: seq<Cursor>, reading: Reads)
    requires start != map[] && WellKept(start) && ListingOf(start, whole)
    requires Replaced(start, AllRows(start, whole), d, name) && ListingOf(d, listed) && OneKind(listed) && ReadsFrom(reading, d)
    requires forall c :: c in listed && c in reading.inputs ==> c in reading.proof
    ensures !PlanOf(listed, reading).merge.Into?
    ensures name !in PlanOf(listed, reading).doomed
    ensures reading.proof == d ==> PlanOf(listed, reading).doomed == d.Keys - {name}
  {
    MergedAgainExactly(start, whole, d, name, listed, reading);
    forall c ensures c in PlanOf(listed, reading).doomed <==> c in d && c != name && c in reading.proof && name in reading.proof {
      CondemnedExactly(start, whole, d, name, listed, reading.proof, c);
    }
  }

  lemma AnotherOfMany(xs: seq<Cursor>, name: Cursor)
    requires Distinct(xs) && |xs| > 1
    ensures exists c :: c in xs && c != name
  {
    assert xs[0] in xs && xs[1] in xs && xs[0] != xs[1];
  }

  lemma StepFromReplaced(start: Directory, whole: seq<Cursor>, d: Directory, name: Cursor, a: Attempt)
    requires start != map[] && WellKept(start) && ListingOf(start, whole)
    requires Replaced(start, AllRows(start, whole), d, name) && Attempted(d, a) && Steady(a)
    ensures Replaced(start, AllRows(start, whole), a.left, name)
  {
    NothingLeftToMerge(start, whole, d, name, a.listed, a.reading);
  }

  lemma SteadyRest(attempts: seq<Attempt>)
    requires attempts != [] && AllSteady(attempts)
    ensures Steady(attempts[0]) && AllSteady(attempts[1..])
  {
    forall i | 0 <= i < |attempts| - 1 ensures Steady(attempts[1..][i]) { assert Steady(attempts[i + 1]); }
  }

  lemma FirstAttempt(d: Directory, attempts: seq<Attempt>)
    requires attempts != [] && AttemptedAll(d, attempts)
    ensures Attempted(d, attempts[0]) && AttemptedAll(attempts[0].left, attempts[1..])
    ensures LeftBy(d, attempts) == LeftBy(attempts[0].left, attempts[1..])
  {
  }

  lemma OneStepOnTheWay(start: Directory, whole: seq<Cursor>, d: Directory, a: Attempt)
    requires start != map[] && WellKept(start) && ListingOf(start, whole) && NoRowTwice(AllRows(start, whole)) && Recognisable(start)
    requires OnTheWay(start, AllRows(start, whole), d) && Attempted(d, a) && Steady(a)
    ensures OnTheWay(start, AllRows(start, whole), a.left)
  {
    if d == start {
      StepFromStart(start, whole, a);
    } else {
      var name :| Replaced(start, AllRows(start, whole), d, name);
      StepFromReplaced(start, whole, d, name, a);
    }
  }

  lemma {:induction false} RunsStayOnTheWay(start: Directory, whole: seq<Cursor>, d: Directory, attempts: seq<Attempt>)
    requires start != map[] && WellKept(start) && ListingOf(start, whole) && NoRowTwice(AllRows(start, whole)) && Recognisable(start)
    requires OnTheWay(start, AllRows(start, whole), d) && AttemptedAll(d, attempts) && AllSteady(attempts)
    ensures OnTheWay(start, AllRows(start, whole), LeftBy(d, attempts))
    decreases |attempts|
  {
    if attempts != [] {
      SteadyRest(attempts);
      FirstAttempt(d, attempts);
      OneStepOnTheWay(start, whole, d, attempts[0]);
      RunsStayOnTheWay(start, whole, attempts[0].left, attempts[1..]);
    }
  }

  lemma FinishOfOne(start: Directory, c: Cursor)
    requires WellKept(start) && ListingOf(start, [c])
    ensures HoldsExactly(start, AllRows(start, [c]))
  {
    assert c in [c] && start.Keys == {c};
    assert [c][1..] == [] && AllRows(start, [c]) == RowBag(start)(c) + SumOf(RowBag(start), []);
  }

  lemma FinishOfMany(start: Directory, listed: seq<Cursor>)
    requires WellKept(start) && ListingOf(start, listed) && OneKind(listed) && |listed| > 1 && Recognisable(start)
    ensures var plan := Plan({}, listed, MergeOf(listed, start));
            plan.merge.Into? && HoldsExactly(Final(start, plan), AllRows(start, listed))
  {
    assert listed[0] in start && RowsOf(start[listed[0]]) != [];
    var plan := Plan({}, listed, MergeOf(listed, start));
    RenameReplaces(start, listed, start, Originals(plan));
    assert Final(start, plan).Keys == {plan.merge.name};
  }

  lemma FinishFromStart(start: Directory, whole: seq<Cursor>, listed: seq<Cursor>)
    requires WellKept(start) && ListingOf(start, whole) && NoRowTwice(AllRows(start, whole)) && Recognisable(start)
    requires start != map[] && ListingOf(start, listed) && OneKind(listed)
    ensures HoldsExactly(Final(start, PlanOf(listed, Everything(start))), AllRows(start, whole))
  {
    AnyListingSums(start, whole, listed);
    FirstPlan(start, listed, Everything(start));
    assert |listed| > 0 by { var c :| c in start; assert c in listed; }
    if |listed| == 1 {
      assert listed == [listed[0]];
      FinishOfOne(start, listed[0]);
    } else {
      FinishOfMany(start, listed);
    }
  }

  lemma FinishFromReplaced(start: Directory, whole: seq<Cursor>, d: Directory, name: Cursor, listed: seq<Cursor>)
    requires start != map[] && WellKept(start) && ListingOf(start, whole)
    requires Replaced(start, AllRows(start, whole), d, name) && ListingOf(d, listed) && OneKind(listed)
    ensures HoldsExactly(Final(d, PlanOf(listed, Everything(d))), AllRows(start, whole))
  {
    NothingLeftToMerge(start, whole, d, name, listed, Everything(d));
    assert Final(d, PlanOf(listed, Everything(d))).Keys == {name};
  }

  /**
    Any number of interrupted or failing runs, in each of which whatever was merged had read for the proof, then one
    that completes, leaves one segment: it holds exactly the rows the partition started with, and its name bounds
    every one of them.
   */
  lemma CompactionIsExact(start: Directory, whole: seq<Cursor>, attempts: seq<Attempt>, listed: seq<Cursor>, left: Directory)
    requires start != map[] && WellKept(start) && ListingOf(start, whole)
    requires NoRowTwice(AllRows(start, whole)) && Recognisable(start)
    requires AttemptedAll(start, attempts) && AllSteady(attempts) && Completed(LeftBy(start, attempts), listed, left)
    ensures HoldsExactly(left, AllRows(start, whole))
  {
    RunsStayOnTheWay(start, whole, start, attempts);
    var d := LeftBy(start, attempts);
    if d == start {
      FinishFromStart(start, whole, listed);
    } else {
      var name :| Replaced(start, AllRows(start, whole), d, name);
      FinishFromReplaced(start, whole, d, name, listed);
    }
  }

  // ---- and when it would not be ------------------------------------------------------------

  /** Block and stream names leave a merge no name but its own. */
  lemma RangesNameThemselves(listed: seq<Cursor>, c: Cursor)
    requires OneKind(listed) && listed != [] && listed[0].Kind() != ByTime
    ensures !Rival(listed, c)
  {
  }

  ghost predicate Doubled(start: Directory, rows: multiset<Row>, attempts: seq<Attempt>, listed: seq<Cursor>, left: Directory) {
    AttemptedAll(start, attempts) && Completed(LeftBy(start, attempts), listed, left) && !HoldsExactly(left, rows)
  }

  function PairListed(a: Cursor, b: Cursor): (listed: seq<Cursor>)
    requires a.Kind() == b.Kind() && a != b
    ensures Distinct(listed) && Sorted(ListedBefore, listed) && (forall c :: c in listed <==> c == a || c == b)
    ensures OneKind(listed) && |listed| == 2
  {
    if ListedBefore(a, b) then [a, b] else [b, a]
  }

  lemma PlanKeepingAll(listed: seq<Cursor>, reading: Reads)
    requires OneKind(listed) && Doomed(listed, reading.proof) == {}
    ensures PlanOf(listed, reading) == Plan({}, listed, MergeOf(listed, reading.inputs))
  {
    WithoutNothing(listed);
  }

  lemma SameRangesCondemnNone(a: Cursor, b: Cursor, proof: Directory)
    requires a != b && a.Kind() == b.Kind() && a.First() == b.First() && a.Last() == b.Last()
    ensures Doomed(PairListed(a, b), proof) == {}
  {
    if c :| c in Doomed(PairListed(a, b), proof) { var w := ProvenIsHeld(PairListed(a, b), proof, c); }
  }

  lemma NothingReadCondemnsNone(listed: seq<Cursor>)
    ensures Doomed(listed, map[]) == {}
  {
    if c :| c in Doomed(listed, map[]) { var w := ProvenIsHeld(listed, map[], c); }
  }

  /** What merging two segments into one leaves. */
  function MergedPair(d: Directory, a: Cursor, b: Cursor): Directory
    requires a != b && d.Keys == {a, b} && a.Kind() == b.Kind()
  {
    map[MergedName(PairListed(a, b)) := Written(MergedRows(PairListed(a, b), d))]
  }

  lemma MergedPairHolds(d: Directory, a: Cursor, b: Cursor)
    requires a != b && d.Keys == {a, b} && a.Kind() == b.Kind()
    ensures var left, name := MergedPair(d, a, b), MergedName(PairListed(a, b));
            left.Keys == {name} && multiset(RowsOf(left[name])) == multiset(RowsOf(d[a])) + multiset(RowsOf(d[b]))
  {
    var listed := PairListed(a, b);
    MergedRowsHold(listed, d);
    SumOfTwo(RowBag(d), listed[0], listed[1]);
    assert listed == [listed[0], listed[1]];
    WrittenReadsBack(MergedRows(listed, d));
  }

  lemma PairMerges(d: Directory, a: Cursor, b: Cursor)
    requires a != b && d.Keys == {a, b} && a.Kind() == b.Kind() && RowsOf(d[a]) != [] && RowsOf(d[b]) != []
    ensures MergeOf(PairListed(a, b), d) == Into(MergedName(PairListed(a, b)), MergedRows(PairListed(a, b), d))
  {
    assert PairListed(a, b)[0] in PairListed(a, b);
  }

  lemma FinalOfAll(d: Directory, listed: seq<Cursor>, name: Cursor, rows: seq<Row>)
    requires d.Keys == (set c | c in listed)
    ensures var plan := Plan({}, listed, Into(name, rows));
            Final(d, plan) == map[name := Written(rows)] && RunState(d, plan, map[name := Written(rows)])
  {
    var plan := Plan({}, listed, Into(name, rows));
    assert RemovingOriginals(d, plan, Final(d, plan));
  }

  /** Where nothing is condemned and everything reads, a run leaves one segment made of all. */
  lemma KeptAllMerged(d: Directory, listed: seq<Cursor>, reading: Reads, name: Cursor, rows: seq<Row>)
    requires ListingOf(d, listed) && OneKind(listed) && Doomed(listed, reading.proof) == {}
    requires MergeOf(listed, reading.inputs) == Into(name, rows)
    ensures Final(d, PlanOf(listed, reading)) == map[name := Written(rows)]
    ensures RunState(d, PlanOf(listed, reading), map[name := Written(rows)])
  {
    PlanKeepingAll(listed, reading);
    assert d.Keys == (set c | c in listed);
    FinalOfAll(d, listed, name, rows);
  }

  /** Two segments of which neither is condemned are both kept and merged by a complete run. */
  lemma PairCompletes(d: Directory, a: Cursor, b: Cursor)
    requires a != b && d.Keys == {a, b} && a.Kind() == b.Kind() && RowsOf(d[a]) != [] && RowsOf(d[b]) != []
    requires Doomed(PairListed(a, b), d) == {}
    ensures Completed(d, PairListed(a, b), MergedPair(d, a, b))
  {
    PairMerges(d, a, b);
    KeptAllMerged(d, PairListed(a, b), Everything(d), MergedName(PairListed(a, b)), MergedRows(PairListed(a, b), d));
  }

  /** Two segments of which nothing reads for the proof are both kept, and merged where they read then. */
  lemma PairAttempted(d: Directory, a: Cursor, b: Cursor)
    requires a != b && d.Keys == {a, b} && a.Kind() == b.Kind() && RowsOf(d[a]) != [] && RowsOf(d[b]) != []
    ensures Attempted(d, Attempt(PairListed(a, b), Reads(map[], d), MergedPair(d, a, b)))
  {
    NothingReadCondemnsNone(PairListed(a, b));
    PairMerges(d, a, b);
    KeptAllMerged(d, PairListed(a, b), Reads(map[], d), MergedName(PairListed(a, b)), MergedRows(PairListed(a, b), d));
    AttemptIs(d, PairListed(a, b), Reads(map[], d), MergedPair(d, a, b));
  }

  /** A merge in place and one of its originals beside it, as where a run was stopped just before its last removal. */
  function OneLeft(start: Directory, listed: seq<Cursor>, c: Cursor): Directory
    requires OneKind(listed) && MergeOf(listed, start).Into?
  {
    var plan := Plan({}, listed, MergeOf(listed, start));
    Sans(Renamed(start, plan), Originals(plan) - {c})
  }

  lemma RenamedKeeps(dir: Directory, listed: seq<Cursor>, name: Cursor, rows: seq<Row>, c: Cursor)
    requires (forall k :: k in listed <==> k in dir) && c in listed && c != name
    ensures var plan := Plan({}, listed, Into(name, rows));
            Sans(Renamed(dir, plan), Originals(plan) - {c}) == map[c := dir[c], name := Written(rows)]
  {
    var plan := Plan({}, listed, Into(name, rows));
    var d := Sans(Renamed(dir, plan), Originals(plan) - {c});
    assert forall k :: k in d <==> k == c || k == name;
  }

  lemma OneLeftHolds(start: Directory, listed: seq<Cursor>, c: Cursor)
    requires ListingOf(start, listed) && OneKind(listed) && c in listed && c != MergedName(listed)
    requires MergeOf(listed, start) == Into(MergedName(listed), MergedRows(listed, start))
    ensures var d, name := OneLeft(start, listed, c), MergedName(listed);
            && d.Keys == {name, c} && d[c] == start[c]
            && multiset(RowsOf(d[name])) == AllRows(start, listed)
  {
    RenamedKeeps(start, listed, MergedName(listed), MergedRows(listed, start), c);
    MergedRowsHold(listed, start);
    WrittenReadsBack(MergedRows(listed, start));
  }

  lemma AttemptIs(d: Directory, listed: seq<Cursor>, reading: Reads, left: Directory)
    requires ListingOf(d, listed) && OneKind(listed) && ReadsFrom(reading, d) && RunState(d, PlanOf(listed, reading), left)
    ensures Attempted(d, Attempt(listed, reading, left))
  {
  }

  lemma StopsHere(dir: Directory, plan: Plan, gone: set<Cursor>)
    requires plan.merge.Into? && gone <= Originals(plan)
    ensures RunState(dir, plan, Sans(Renamed(dir, plan), gone))
  {
    assert RemovingOriginals(dir, plan, Sans(Renamed(dir, plan), gone));
  }

  lemma OneLeftAttempt(start: Directory, listed: seq<Cursor>, c: Cursor)
    requires WellKept(start) && ListingOf(start, listed) && OneKind(listed) && NoRowTwice(AllRows(start, listed))
    requires |listed| > 1 && c in listed
    ensures MergeOf(listed, start) == Into(MergedName(listed), MergedRows(listed, start))
    ensures Attempted(start, Attempt(listed, Everything(start), OneLeft(start, listed, c)))
  {
    FirstPlan(start, listed, Everything(start));
    assert listed[0] in start && RowsOf(start[listed[0]]) != [];
    var plan := PlanOf(listed, Everything(start));
    StopsHere(start, plan, Originals(plan) - {c});
    AttemptIs(start, listed, Everything(start), OneLeft(start, listed, c));
  }

  lemma CountedTwiceIsNotExact(left: Directory, name: Cursor, rows: multiset<Row>, again: seq<Row>)
    requires left.Keys == {name} && multiset(RowsOf(left[name])) == rows + multiset(again) && again != []
    ensures !HoldsExactly(left, rows)
  {
    assert |rows + multiset(again)| == |rows| + |again|;
    forall other | left.Keys == {other} ensures multiset(RowsOf(left[other])) != rows {
      assert other in left.Keys;
    }
  }

  lemma OneAttemptDoubles(start: Directory, rows: multiset<Row>, a: Attempt, again: seq<Cursor>, left: Directory)
    requires Attempted(start, a) && Completed(a.left, again, left) && !HoldsExactly(left, rows)
    ensures Doubled(start, rows, [a], again, left)
  {
    assert [a][1..] == [] && AttemptedAll(a.left, []);
  }

  lemma OneSteadyAttemptDoubles(start: Directory, rows: multiset<Row>, a: Attempt, again: seq<Cursor>, left: Directory)
    requires Attempted(start, a) && Steady(a) && Completed(a.left, again, left) && !HoldsExactly(left, rows)
    ensures exists attempts, again, left :: AllSteady(attempts) && Doubled(start, rows, attempts, again, left)
  {
    assert AllSteady([a]);
    OneAttemptDoubles(start, rows, a, again, left);
  }

  /** One interruption leaving an original that the next run does not know in the merge: its rows are counted twice. */
  lemma UnknownDoubles(start: Directory, listed: seq<Cursor>, c: Cursor)
    requires WellKept(start) && ListingOf(start, listed) && OneKind(listed) && NoRowTwice(AllRows(start, listed))
    requires |listed| > 1 && c in listed && c != MergedName(listed)
    requires MergeOf(listed, start).Into? && Doomed(PairListed(MergedName(listed), c), OneLeft(start, listed, c)) == {}
    ensures exists attempts, again, left :: AllSteady(attempts) && Doubled(start, AllRows(start, listed), attempts, again, left)
  {
    var name := MergedName(listed);
    OneLeftAttempt(start, listed, c);
    OneLeftHolds(start, listed, c);
    MergedNameSpans(listed, c);
    var d := OneLeft(start, listed, c);
    assert RowsOf(start[c])[0] in multiset(RowsOf(start[c]));
    MergedIsNotEmpty(start, listed, c, d[name]);
    PairCompletes(d, name, c);
    MergedPairHolds(d, name, c);
    CountedTwiceIsNotExact(MergedPair(d, name, c), MergedName(PairListed(name, c)), AllRows(start, listed), RowsOf(start[c]));
    OneSteadyAttemptDoubles(start, AllRows(start, listed), Attempt(listed, Everything(start), d), PairListed(name, c), MergedPair(d, name, c));
  }

  lemma MergedIsNotEmpty(start: Directory, listed: seq<Cursor>, c: Cursor, merged: Segment)
    requires Distinct(listed) && c in listed && c in start && RowsOf(start[c]) != [] && multiset(RowsOf(merged)) == AllRows(start, listed)
    ensures RowsOf(merged) != []
  {
    SumOfPart(RowBag(start), [c], listed);
    SumOfSingle(RowBag(start), c);
    assert RowsOf(start[c])[0] in multiset(RowsOf(start[c]));
    NotEmptied(AllRows(start, listed), RowBag(start)(c), RowsOf(merged));
  }

  /** Where a rival stands, one interruption is enough to leave its rows counted twice, though everything reads throughout. */
  lemma RivalDoubles(start: Directory, listed: seq<Cursor>, rival: Cursor)
    requires WellKept(start) && ListingOf(start, listed) && OneKind(listed) && NoRowTwice(AllRows(start, listed))
    requires Rival(listed, rival)
    ensures exists attempts, again, left :: AllSteady(attempts) && Doubled(start, AllRows(start, listed), attempts, again, left)
  {
    OneLeftAttempt(start, listed, rival);
    MergedNameSpans(listed, rival);
    SameRangesCondemnNone(MergedName(listed), rival, OneLeft(start, listed, rival));
    UnknownDoubles(start, listed, rival);
  }

  /** Rows of the last receipt that the window misses in the merge double just as well. */
  lemma LeftOutDoubles(start: Directory, listed: seq<Cursor>, c: Cursor)
    requires WellKept(start) && ListingOf(start, listed) && OneKind(listed) && NoRowTwice(AllRows(start, listed))
    requires LeftOut(start, listed, c)
    ensures exists attempts, again, left :: AllSteady(attempts) && Doubled(start, AllRows(start, listed), attempts, again, left)
  {
    OneLeftAttempt(start, listed, c);
    MissedIsUnknown(start, listed, c, MergedName(listed), Written(MergedRows(listed, start)));
    UnknownDoubles(start, listed, c);
  }

  lemma MissedIsUnknown(start: Directory, listed: seq<Cursor>, c: Cursor, name: Cursor, merged: Segment)
    requires WellKept(start) && ListingOf(start, listed) && OneKind(listed) && NoRowTwice(AllRows(start, listed)) && LeftOut(start, listed, c)
    requires name == MergedName(listed) && merged == Written(MergedRows(listed, start))
    requires MergeOf(listed, start) == Into(name, MergedRows(listed, start))
    ensures Doomed(PairListed(name, c), OneLeft(start, listed, c)) == {}
  {
    var r :| r in RowsOf(start[c]) && Misses(merged, r);
    RenamedKeeps(start, listed, name, MergedRows(listed, start), c);
    OneLeftHolds(start, listed, c);
    RowIsHeldOnce(start, listed, c, r);
    MergedNameSpans(listed, c);
    WrittenReadsBack(MergedRows(listed, start));
    MissedIsNotDoomed(name, c, OneLeft(start, listed, c), r);
  }

  lemma RowIsHeldOnce(start: Directory, listed: seq<Cursor>, c: Cursor, r: Row)
    requires ListingOf(start, listed) && NoRowTwice(AllRows(start, listed)) && c in listed && r in RowsOf(start[c])
    ensures AllRows(start, listed)[r] == 1
  {
    SumOfPart(RowBag(start), [c], listed);
    SumOfSingle(RowBag(start), c);
    assert r in multiset(RowsOf(start[c]));
  }

  lemma OnlyOnePair(name: Cursor, c: Cursor)
    requires name != c && name.Kind() == c.Kind() && name.First() <= c.First() && c.Last() <= name.Last()
    ensures var pairs := PairsOf(Swept(PairListed(name, c)));
            && (forall p :: p in pairs ==> p == Pair(c, name))
            && (ContainedIn(pairs, name) == [] || ContainedIn(pairs, name) == [c])
  {
    var listed := PairListed(name, c);
    var pairs := PairsOf(Swept(listed));
    SweepIsCrossProduct(listed);
    SortKeeps(SweptBefore, listed);
    DistinctPermuted(listed, Swept(listed));
    EachReportedOnce(Swept(listed));
    ContainedInHolds(pairs, name);
    forall p | p in pairs ensures p == Pair(c, name) {
      assert StrictlyInside(p.contained, p.container);
    }
    ContainedInOne(pairs, name);
    AllOneIsOne(ContainedIn(pairs, name), c);
  }

  lemma AllOneIsOne(xs: seq<Cursor>, c: Cursor)
    requires Distinct(xs) && forall x :: x in xs ==> x == c
    ensures xs == [] || xs == [c]
  {
    if |xs| > 1 {
      AnotherOfMany(xs, c);
    } else if |xs| == 1 {
      assert xs == [xs[0]] && xs[0] in xs;
    }
  }

  lemma NotProvenIsNotDoomed(pairs: seq<Pair>, c: Cursor, name: Cursor, d: Directory)
    requires (forall p :: p in pairs ==> p == Pair(c, name)) && c !in ProvenIn(name, ContainedIn(pairs, name), d)
    ensures ProvenOf(pairs, d) == {}
  {
  }

  lemma MissedIsNotDoomed(name: Cursor, c: Cursor, d: Directory, r: Row)
    requires name != c && name.Kind() == c.Kind() && name.First() <= c.First() && c.Last() <= name.Last()
    requires d.Keys == {name, c} && c.Time? && c.Fits() && NameBounds(c, d[c]) && r in RowsOf(d[c])
    requires d[name].Sound() && Misses(d[name], r) && multiset(RowsOf(d[name]))[r] == 1
    ensures Doomed(PairListed(name, c), d) == {}
  {
    var pairs := PairsOf(Swept(PairListed(name, c)));
    OnlyOnePair(name, c);
    MissedAlone(c, d[name], d, r);
    NotProvenIsNotDoomed(pairs, c, name, d);
  }

  /**
    So exactness is promised for every such history of runs exactly where no rival stands, and no original has rows of
    the last receipt that the window misses.
   */
  lemma ExactExactlyWhereRecognisable(start: Directory, whole: seq<Cursor>)
    requires start != map[] && WellKept(start) && ListingOf(start, whole) && NoRowTwice(AllRows(start, whole))
    ensures Recognisable(start) <==>
            !exists attempts, listed, left :: AllSteady(attempts) && Doubled(start, AllRows(start, whole), attempts, listed, left)
  {
    if Recognisable(start) {
      forall attempts, listed, left | AttemptedAll(start, attempts) && AllSteady(attempts) && Completed(LeftBy(start, attempts), listed, left)
        ensures HoldsExactly(left, AllRows(start, whole))
      {
        CompactionIsExact(start, whole, attempts, listed, left);
      }
    } else if !NoRivals(start) {
      var listed, rival :| ListingOf(start, listed) && OneKind(listed) && Rival(listed, rival);
      AnyListingSums(start, whole, listed);
      RivalDoubles(start, listed, rival);
    } else {
      var listed, c :| ListingOf(start, listed) && OneKind(listed) && LeftOut(start, listed, c);
      AnyListingSums(start, whole, listed);
      LeftOutDoubles(start, listed, c);
    }
  }

  // ---- reading that fails once and then does not -----------------------------------------------

  lemma OneSegmentStays(dir: Directory, c: Cursor, listed: seq<Cursor>, reading: Reads, d: Directory)
    requires dir.Keys == {c} && ListingOf(dir, listed) && OneKind(listed) && RunState(dir, PlanOf(listed, reading), d)
    ensures d == dir
  {
    OneSegmentPlan(dir, c, listed, reading);
  }

  lemma OneSegmentCompletes(dir: Directory, c: Cursor, listed: seq<Cursor>)
    requires dir.Keys == {c} && ListingOf(dir, listed) && OneKind(listed)
    ensures Final(dir, PlanOf(listed, Everything(dir))) == dir
  {
    OneSegmentPlan(dir, c, listed, Everything(dir));
  }

  lemma OneSegmentPlan(dir: Directory, c: Cursor, listed: seq<Cursor>, reading: Reads)
    requires dir.Keys == {c} && ListingOf(dir, listed) && OneKind(listed)
    ensures PlanOf(listed, reading) == Plan({}, listed, Nothing)
  {
    if |listed| > 1 { AnotherOfMany(listed, c); }
    OneCondemnsNone(listed, c, reading.proof);
    PlanKeepingAll(listed, reading);
  }

  lemma OneCondemnsNone(listed: seq<Cursor>, c: Cursor, proof: Directory)
    requires forall e :: e in listed ==> e == c
    ensures Doomed(listed, proof) == {}
  {
    if e :| e in Doomed(listed, proof) { var w := ProvenIsHeld(listed, proof, e); }
  }

  lemma OneSegmentIsComplete(left: Directory, name: Cursor)
    requires left.Keys == {name}
    ensures Completed(left, [name], left)
  {
    assert name in [name] && ListingOf(left, [name]);
    OneSegmentCompletes(left, name, [name]);
  }

  lemma TwoAttemptsDouble(start: Directory, rows: multiset<Row>, a: Attempt, b: Attempt, again: seq<Cursor>, left: Directory)
    requires Attempted(start, a) && Attempted(a.left, b) && Completed(b.left, again, left) && !HoldsExactly(left, rows)
    ensures Doubled(start, rows, [a, b], again, left)
  {
    assert [a, b][1..] == [b] && [b][1..] == [];
    assert AttemptedAll(b.left, []) && AttemptedAll(a.left, [b]);
  }

  lemma PairMergedAgain(d: Directory, a: Cursor, b: Cursor) returns (attempt: Attempt, merged: Cursor)
    requires a != b && d.Keys == {a, b} && a.Kind() == b.Kind() && RowsOf(d[a]) != [] && RowsOf(d[b]) != []
    ensures Attempted(d, attempt) && attempt.left.Keys == {merged}
    ensures multiset(RowsOf(attempt.left[merged])) == multiset(RowsOf(d[a])) + multiset(RowsOf(d[b]))
  {
    attempt, merged := Attempt(PairListed(a, b), Reads(map[], d), MergedPair(d, a, b)), MergedName(PairListed(a, b));
    PairAttempted(d, a, b);
    MergedPairHolds(d, a, b);
  }

  lemma CountedAgain(start: Directory, rows: multiset<Row>, a: Attempt, b: Attempt, merged: Cursor, again: seq<Row>)
    requires Attempted(start, a) && Attempted(a.left, b) && b.left.Keys == {merged}
    requires multiset(RowsOf(b.left[merged])) == rows + multiset(again) && again != []
    ensures Doubled(start, rows, [a, b], [merged], b.left)
  {
    CountedTwiceIsNotExact(b.left, merged, rows, again);
    OneSegmentIsComplete(b.left, merged);
    TwoAttemptsDouble(start, rows, a, b, [merged], b.left);
  }

  lemma RereadingDoublesFrom(start: Directory, rows: multiset<Row>, a: Attempt, name: Cursor, c: Cursor)
    requires Attempted(start, a) && name != c && name.Kind() == c.Kind() && a.left.Keys == {name, c}
    requires RowsOf(a.left[name]) != [] && RowsOf(a.left[c]) != [] && multiset(RowsOf(a.left[name])) == rows
    ensures exists attempts, again, left :: Doubled(start, rows, attempts, again, left)
  {
    var again, merged := PairMergedAgain(a.left, name, c);
    CountedAgain(start, rows, a, again, merged, RowsOf(a.left[c]));
  }

  lemma NotEmptied(rows: multiset<Row>, part: multiset<Row>, held: seq<Row>)
    requires part <= rows && part != multiset{} && multiset(held) == rows
    ensures held != []
  {
    var r :| r in part;
    assert r in multiset(held);
  }

  /** An interruption, and a run that merges what it could not read for the proof: the rows left over are counted twice. */
  lemma RereadingDoubles(start: Directory, whole: seq<Cursor>)
    requires WellKept(start) && ListingOf(start, whole) && NoRowTwice(AllRows(start, whole)) && |whole| > 1
    ensures exists attempts, again, left :: Doubled(start, AllRows(start, whole), attempts, again, left)
  {
    assert OneKind(whole) by { assert forall i :: 0 <= i < |whole| ==> whole[i] in whole; }
    var name := MergedName(whole);
    AnotherOfMany(whole, name);
    var c :| c in whole && c != name;
    OneLeftAttempt(start, whole, c);
    OneLeftHolds(start, whole, c);
    MergedNameSpans(whole, c);
    var d := OneLeft(start, whole, c);
    SumOfPart(RowBag(start), [c], whole);
    SumOfSingle(RowBag(start), c);
    assert RowsOf(start[c])[0] in multiset(RowsOf(start[c]));
    NotEmptied(AllRows(start, whole), RowBag(start)(c), RowsOf(d[name]));
    RereadingDoublesFrom(start, AllRows(start, whole), Attempt(whole, Everything(start), d), name, c);
  }

  lemma {:induction false} OneSegmentStaysThroughout(start: Directory, c: Cursor, attempts: seq<Attempt>)
    requires start.Keys == {c} && AttemptedAll(start, attempts)
    ensures LeftBy(start, attempts) == start
    decreases |attempts|
  {
    if attempts != [] {
      OneSegmentStays(start, c, attempts[0].listed, attempts[0].reading, attempts[0].left);
      OneSegmentStaysThroughout(start, c, attempts[1..]);
    }
  }

  lemma OneSegmentIsExact(start: Directory, c: Cursor, attempts: seq<Attempt>, listed: seq<Cursor>, left: Directory)
    requires WellKept(start) && ListingOf(start, [c]) && start.Keys == {c}
    requires AttemptedAll(start, attempts) && Completed(LeftBy(start, attempts), listed, left)
    ensures HoldsExactly(left, AllRows(start, [c]))
  {
    OneSegmentStaysThroughout(start, c, attempts);
    OneSegmentCompletes(start, c, listed);
    FinishOfOne(start, c);
  }

  /** Of histories in which a file may fail to read for the proof and read for the merge, exactness holds only where there is nothing to merge. */
  lemma ExactWhateverReadsExactly(start: Directory, whole: seq<Cursor>)
    requires start != map[] && WellKept(start) && ListingOf(start, whole) && NoRowTwice(AllRows(start, whole))
    ensures (!exists attempts, listed, left :: Doubled(start, AllRows(start, whole), attempts, listed, left)) <==> |whole| == 1
  {
    assert |whole| > 0 by { var c :| c in start; assert c in whole; }
    if |whole| > 1 {
      RereadingDoubles(start, whole);
    } else {
      var c := whole[0];
      assert whole == [c] && start.Keys == {c};
      forall attempts, listed, left | AttemptedAll(start, attempts) && Completed(LeftBy(start, attempts), listed, left)
        ensures HoldsExactly(left, AllRows(start, whole))
      {
        OneSegmentIsExact(start, c, attempts, listed, left);
      }
    }
  }
}
