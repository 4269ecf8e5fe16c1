/** Segments whose ranges lie inside another's, and which of them that other demonstrably holds. */
module Containment {
  import opened Text
  import opened Sorting
  import opened Cursors
  import opened Segments

  /** A range is inside another that is not the same range and covers both its ends. */
  predicate StrictlyInside(c: Cursor, w: Cursor) {
    && w.Kind() == c.Kind()
    && w.First() <= c.First() && w.Last() >= c.Last()
    && (w.First() < c.First() || w.Last() > c.Last())
  }

  /** The sweep order: by variant, by start, and the widest first at each start. */
  predicate SweptBefore(a: Cursor, b: Cursor) {
    || a.Kind().Rank() < b.Kind().Rank()
    || (a.Kind() == b.Kind() && (a.First() < b.First() || (a.First() == b.First() && a.Last() >= b.Last())))
  }

  datatype Pair = Pair(contained: Cursor, container: Cursor)

  function Swept(listed: seq<Cursor>): seq<Cursor> {
    SortBy(SweptBefore, listed)
  }

  function NextWidest(widest: Option<Cursor>, c: Cursor): Option<Cursor> {
    if widest.Some? && StrictlyInside(c, widest.value) then widest else Some(c)
  }

  function WidestOf(ordered: seq<Cursor>): Option<Cursor> {
    if ordered == [] then None else NextWidest(WidestOf(ordered[..|ordered| - 1]), ordered[|ordered| - 1])
  }

  function PairsOf(ordered: seq<Cursor>): seq<Pair> {
    if ordered == [] then []
    else
      var front, c := ordered[..|ordered| - 1], ordered[|ordered| - 1];
      var widest := WidestOf(front);
      PairsOf(front) + (if widest.Some? && StrictlyInside(c, widest.value) then [Pair(c, widest.value)] else [])
  }

  /** A single pass in name order: whatever lies inside the widest range met so far is paired with it. */
  method ContainedByRange(listed: seq<Cursor>) returns (doomed: seq<Pair>)
    ensures doomed == PairsOf(Swept(listed))
  {
    var ordered := Swept(listed);
    doomed := [];
    var widest: Option<Cursor> := None;
    var i := 0;
    while i < |ordered|
      invariant 0 <= i <= |ordered|
      invariant widest == WidestOf(ordered[..i]) && doomed == PairsOf(ordered[..i])
    {
      var c := ordered[i];
      assert ordered[..i + 1][..i] == ordered[..i];
      if widest.Some? && StrictlyInside(c, widest.value) {
        doomed := doomed + [Pair(c, widest.value)];
      } else {
        widest := Some(c);
      }
      i := i + 1;
    }
    assert ordered[..|ordered|] == ordered;
  }

  lemma SweptBeforeIsTotal()
    ensures TotalOrder(SweptBefore)
  {
  }

  /** The widest seen reaches as far as anything of its variant, and is itself inside nothing. */
  ghost predicate WidestHolds(ordered: seq<Cursor>) {
    var widest := WidestOf(ordered);
    && (widest.None? <==> ordered == [])
    && (ordered != [] ==>
      && widest.value in ordered
      && (forall c :: c in ordered ==> c.Kind().Rank() <= widest.value.Kind().Rank())
      && (forall c :: c in ordered && c.Kind() == widest.value.Kind() ==> c.Last() <= widest.value.Last())
      && (forall c :: c in ordered ==> !StrictlyInside(widest.value, c)))
  }

  ghost predicate PairsHold(ordered: seq<Cursor>) {
    forall p :: p in PairsOf(ordered) ==>
      && p.contained in ordered && p.container in ordered && StrictlyInside(p.contained, p.container)
      && (forall c :: c in ordered ==> !StrictlyInside(p.container, c))
  }

  ghost predicate Inside(c: Cursor, ordered: seq<Cursor>) {
    exists w :: w in ordered && StrictlyInside(c, w)
  }

  predicate Reported(c: Cursor, pairs: seq<Pair>) {
    exists p :: p in pairs && p.contained == c
  }

  ghost predicate MissesNone(ordered: seq<Cursor>) {
    forall c :: c in ordered && Inside(c, ordered) ==> Reported(c, PairsOf(ordered))
  }

  lemma {:induction false} PassKeepsInvariant(ordered: seq<Cursor>)
    requires Sorted(SweptBefore, ordered)
    ensures WidestHolds(ordered) && PairsHold(ordered) && MissesNone(ordered)
    decreases |ordered|
  {
    if ordered != [] {
      var front, c := ordered[..|ordered| - 1], ordered[|ordered| - 1];
      PassKeepsInvariant(front);
      assert ordered == front + [c];
      forall d | d in front ensures SweptBefore(d, c) {
        var i :| 0 <= i < |front| && front[i] == d;
        assert SweptBefore(ordered[i], ordered[|ordered| - 1]);
      }
      WidestStep(front, c);
      PairsStep(front, c);
      NoneMissedStep(front, c);
    }
  }

  lemma PassUnfolds(front: seq<Cursor>, c: Cursor)
    ensures WidestOf(front + [c]) == NextWidest(WidestOf(front), c)
    ensures PairsOf(front + [c]) == PairsOf(front)
      + if WidestOf(front).Some? && StrictlyInside(c, WidestOf(front).value) then [Pair(c, WidestOf(front).value)] else []
  {
    assert (front + [c])[..|front|] == front;
  }

  /** If anything seen is strictly wider, the widest seen is. */
  lemma WidestIsWider(front: seq<Cursor>, c: Cursor, w: Cursor)
    requires WidestHolds(front) && forall d :: d in front ==> SweptBefore(d, c)
    requires w in front && StrictlyInside(c, w)
    ensures StrictlyInside(c, WidestOf(front).value)
  {
    var widest := WidestOf(front).value;
    assert SweptBefore(widest, c) && SweptBefore(w, c);
    assert widest.Kind() == c.Kind();
    assert w.Last() <= widest.Last() && !StrictlyInside(widest, w);
  }

  lemma WidestStep(front: seq<Cursor>, c: Cursor)
    requires WidestHolds(front) && forall d :: d in front ==> SweptBefore(d, c)
    ensures WidestHolds(front + [c])
  {
    PassUnfolds(front, c);
    if front != [] {
      var widest := WidestOf(front).value;
      assert SweptBefore(widest, c);
      if !StrictlyInside(c, widest) {
        forall w | w in front ensures !StrictlyInside(c, w) {
          if StrictlyInside(c, w) { WidestIsWider(front, c, w); }
        }
      }
    }
  }

  lemma PairsStep(front: seq<Cursor>, c: Cursor)
    requires WidestHolds(front) && PairsHold(front) && forall d :: d in front ==> SweptBefore(d, c)
    ensures PairsHold(front + [c])
  {
    PassUnfolds(front, c);
    forall d | d in front ensures !StrictlyInside(d, c) {
      assert SweptBefore(d, c);
    }
  }

  lemma NoneMissedStep(front: seq<Cursor>, c: Cursor)
    requires WidestHolds(front) && MissesNone(front) && forall d :: d in front ==> SweptBefore(d, c)
    ensures MissesNone(front + [c])
  {
    PassUnfolds(front, c);
    var ordered := front + [c];
    forall d | d in front ensures !StrictlyInside(d, c) {
      assert SweptBefore(d, c);
    }
    forall d | d in ordered && Inside(d, ordered) ensures Reported(d, PairsOf(ordered)) {
      var w :| w in ordered && StrictlyInside(d, w);
      assert w in front;
      if d in front {
        assert Inside(d, front);
        var p :| p in PairsOf(front) && p.contained == d;
        assert p in PairsOf(ordered);
      } else {
        WidestIsWider(front, c, w);
        assert Pair(c, WidestOf(front).value) in PairsOf(ordered);
      }
    }
  }

  /**
    The one pass reports exactly what the cross-product would: every listed segment strictly
    inside another of its variant, and no other. What it names as a container is never reported.
   */
  lemma SweepIsCrossProduct(listed: seq<Cursor>)
    ensures forall c :: c in listed ==> (Reported(c, PairsOf(Swept(listed))) <==> Inside(c, listed))
    ensures forall p :: p in PairsOf(Swept(listed)) ==>
      p.contained in listed && p.container in listed && StrictlyInside(p.contained, p.container)
    ensures forall p, q :: p in PairsOf(Swept(listed)) && q in PairsOf(Swept(listed)) ==> p.container != q.contained
  {
    SweptBeforeIsTotal();
    SortBySorts(SweptBefore, listed);
    SameElements(Swept(listed), listed);
    PassKeepsInvariant(Swept(listed));
  }

  lemma {:induction false} EachReportedOnce(ordered: seq<Cursor>)
    requires Distinct(ordered)
    ensures forall i, j :: 0 <= i < j < |PairsOf(ordered)| ==> PairsOf(ordered)[i].contained != PairsOf(ordered)[j].contained
    ensures forall p :: p in PairsOf(ordered) ==> p.contained in ordered
    decreases |ordered|
  {
    if ordered != [] { EachReportedOnce(ordered[..|ordered| - 1]); }
  }

  // ---- counted proofs ------------------------------------------------------------

  /** What a container was found to hold, and the rows of each segment inside it that would read. */
  function ContainedIn(pairs: seq<Pair>, container: Cursor): seq<Cursor> {
    if pairs == [] then []
    else (if pairs[0].container == container then [pairs[0].contained] else []) + ContainedIn(pairs[1..], container)
  }

  /** Rows that served to condemn one segment are not there to condemn another. */
  function Condemned(available: multiset<Row>, contained: seq<Cursor>, readable: map<Cursor, Segment>): seq<Cursor> {
    if contained == [] then []
    else if contained[0] in readable && multiset(RowsOf(readable[contained[0]])) <= available then
      [contained[0]] + Condemned(available - multiset(RowsOf(readable[contained[0]])), contained[1..], readable)
    else
      Condemned(available, contained[1..], readable)
  }

  /** The least window of receipts reaching round every contained segment, if all are named by receipts. */
  function Window(contained: seq<Cursor>): Option<(int, int)> {
    if contained == [] || !contained[0].Time? then None
    else if |contained| == 1 then Some((contained[0].firstMicros, contained[0].lastMicros))
    else
      match Window(contained[1..])
      case None => None
      case Some(w) => Some((Min(contained[0].firstMicros, w.0), Max(contained[0].lastMicros, w.1)))
  }

  function Min(a: int, b: int): int { if a < b then a else b }
  function Max(a: int, b: int): int { if a > b then a else b }

  function HeldBy(container: Segment, contained: seq<Cursor>): seq<Row> {
    match Window(contained)
    case Some((lo, hi)) => ReadRange(container, lo, SaturatingSucc(hi))
    case None => RowsOf(container)
  }

  function ProvenIn(container: Cursor, contained: seq<Cursor>, readable: map<Cursor, Segment>): seq<Cursor> {
    if container !in readable || HeldBy(readable[container], contained) == [] then []
    else Condemned(multiset(HeldBy(readable[container], contained)), contained, readable)
  }

  /** What the counted proofs condemn, container by container. */
  function ProvenOf(pairs: seq<Pair>, readable: map<Cursor, Segment>): set<Cursor> {
    set p | p in pairs && p.contained in ProvenIn(p.container, ContainedIn(pairs, p.container), readable) :: p.contained
  }

  method CondemnAgainst(held: multiset<Row>, contained: seq<Cursor>, readable: map<Cursor, Segment>) returns (proven: seq<Cursor>)
    ensures proven == Condemned(held, contained, readable)
  {
    proven := [];
    var available := held;
    var i := 0;
    while i < |contained|
      invariant 0 <= i <= |contained|
      invariant proven + Condemned(available, contained[i..], readable) == Condemned(held, contained, readable)
    {
      assert contained[i..][0] == contained[i] && contained[i..][1..] == contained[i + 1..];
      if contained[i] in readable {
        var needed := multiset(RowsOf(readable[contained[i]]));
        if needed <= available {
          available := available - needed;
          proven := proven + [contained[i]];
        }
      }
      i := i + 1;
    }
  }

  /** The contained segments that may be removed: their container holds each of their rows. */
  method ProvenDuplicates(pairs: seq<Pair>, readable: map<Cursor, Segment>) returns (proven: seq<Cursor>)
    ensures (set c | c in proven) == ProvenOf(pairs, readable)
  {
    proven := [];
    var left := set p | p in pairs :: p.container;
    while left != {}
      invariant forall p :: (p in pairs && p.container !in left
        && p.contained in ProvenIn(p.container, ContainedIn(pairs, p.container), readable)) ==> p.contained in proven
      invariant forall c :: c in proven ==> c in ProvenOf(pairs, readable)
      decreases |left|
    {
      var container :| container in left;
      var contained := ContainedIn(pairs, container);
      ContainedInHolds(pairs, container);
      if container in readable {
        var held := HeldBy(readable[container], contained);
        if held != [] {
          var mine := CondemnAgainst(multiset(held), contained, readable);
          CondemnedIsPart(multiset(held), contained, readable);
          forall c | c in mine ensures c in ProvenOf(pairs, readable) {
            assert Pair(c, container) in pairs;
          }
          proven := proven + mine;
        }
      }
      left := left - {container};
    }
  }

  lemma {:induction false} ContainedInHolds(pairs: seq<Pair>, container: Cursor)
    ensures forall c :: c in ContainedIn(pairs, container) <==> Pair(c, container) in pairs
    decreases |pairs|
  {
    if pairs != [] {
      ContainedInHolds(pairs[1..], container);
      assert pairs == [pairs[0]] + pairs[1..];
    }
  }

  lemma {:induction false} CondemnedIsPart(available: multiset<Row>, contained: seq<Cursor>, readable: map<Cursor, Segment>)
    ensures forall c :: c in Condemned(available, contained, readable) ==> c in contained && c in readable
    decreases |contained|
  {
    if contained != [] {
      CondemnedIsPart(available, contained[1..], readable);
      if contained[0] in readable {
        CondemnedIsPart(available - multiset(RowsOf(readable[contained[0]])), contained[1..], readable);
      }
    }
  }

  // ---- what the counting proves --------------------------------------------------

  function RowBag(segments: map<Cursor, Segment>): Cursor -> multiset<Row> {
    c => if c in segments then multiset(RowsOf(segments[c])) else multiset{}
  }

  function PositionOf(kind: Variant, r: Row): int {
    if kind == ByTime then r.recvMicros else r.streamSeq
  }

  /** A segment's name bounds its rows. */
  predicate NameBounds(c: Cursor, segment: Segment) {
    forall r :: r in RowsOf(segment) ==> c.First() <= PositionOf(c.Kind(), r) <= c.Last()
  }

  /** What is condemned against one container never adds up to more than the container holds. */
  lemma {:induction false} CondemnedIsCovered(available: multiset<Row>, contained: seq<Cursor>, readable: map<Cursor, Segment>)
    ensures SumOf(RowBag(readable), Condemned(available, contained, readable)) <= available
    decreases |contained|
  {
    if contained != [] {
      var c := contained[0];
      if c in readable && multiset(RowsOf(readable[c])) <= available {
        var rest := Condemned(available - multiset(RowsOf(readable[c])), contained[1..], readable);
        CondemnedIsCovered(available - multiset(RowsOf(readable[c])), contained[1..], readable);
        assert ([c] + rest)[1..] == rest;
      } else {
        CondemnedIsCovered(available, contained[1..], readable);
      }
    }
  }

  /** Where the container holds everything inside it at once, all of it that reads is condemned, in whatever order it is met. */
  lemma {:induction false} CoveredIsCondemned(available: multiset<Row>, contained: seq<Cursor>, readable: map<Cursor, Segment>)
    requires SumOf(RowBag(readable), contained) <= available
    ensures forall c :: c in contained && c in readable ==> c in Condemned(available, contained, readable)
    decreases |contained|
  {
    if contained != [] {
      var c, rest := contained[0], contained[1..];
      assert contained == [c] + rest;
      if c in readable {
        var mine := multiset(RowsOf(readable[c]));
        assert mine <= SumOf(RowBag(readable), contained);
        assert SumOf(RowBag(readable), rest) <= available - mine;
        CoveredIsCondemned(available - mine, rest, readable);
      } else {
        CoveredIsCondemned(available, rest, readable);
      }
    }
  }

  /** A verdict turns only on the rows the contained segments hold. */
  lemma {:induction false} VerdictIsLocal(a: multiset<Row>, b: multiset<Row>, contained: seq<Cursor>, readable: map<Cursor, Segment>)
    requires forall c, r :: c in contained && c in readable && r in RowsOf(readable[c]) ==> a[r] == b[r]
    ensures Condemned(a, contained, readable) == Condemned(b, contained, readable)
    decreases |contained|
  {
    if contained != [] {
      var c, rest := contained[0], contained[1..];
      assert forall d :: d in rest ==> d in contained;
      VerdictIsLocal(a, b, rest, readable);
      if c in readable {
        var mine := multiset(RowsOf(readable[c]));
        assert forall r :: r in mine ==> r in RowsOf(readable[c]);
        assert mine <= a <==> mine <= b;
        if mine <= a {
          VerdictIsLocal(a - mine, b - mine, rest, readable);
        }
      }
    }
  }

  lemma {:induction false} WindowCovers(contained: seq<Cursor>)
    ensures Window(contained).Some? <==> contained != [] && forall c :: c in contained ==> c.Time?
    ensures Window(contained).Some? ==>
      && (forall c :: c in contained ==> Window(contained).value.0 <= c.firstMicros && c.lastMicros <= Window(contained).value.1)
      && (exists c :: c in contained && c.lastMicros == Window(contained).value.1)
    decreases |contained|
  {
    if contained != [] {
      WindowCovers(contained[1..]);
      assert contained == [contained[0]] + contained[1..];
      if Window(contained).Some? && |contained| > 1 {
        var c :| c in contained[1..] && c.lastMicros == Window(contained[1..]).value.1;
        assert c in contained;
      }
    }
  }

  // ---- the windowed read --------------------------------------------------------------

  /** The window reaches the last representable receipt, so that one past it saturates. */
  predicate ReachesTheEnd(contained: seq<Cursor>) {
    Window(contained).Some? && Window(contained).value.1 >= I64_MAX
  }

  /** A row group that states no receipt before the last representable one. */
  predicate OnlyTheEnd(group: RowGroup) {
    match group.Stated(PRUNE_COLUMN)
    case Numbers(Some(lo), Some(hi), _) => lo >= I64_MAX
    case _ => false
  }

  /** A row group holding rows that a window stopping short of the last receipt leaves out. */
  predicate EndsApart(container: Segment) {
    PRUNE_COLUMN in container.columns && exists g :: g in container.groups && g.rows != [] && OnlyTheEnd(g)
  }

  /** Reading the container only for the window its contained segments span is not enough exactly here. */
  predicate StopsShort(container: Segment, contained: seq<Cursor>) {
    ReachesTheEnd(contained) && EndsApart(container)
  }

  /** A window stopping short of the last receipt leaves out a copy of the row. */
  predicate Misses(container: Segment, r: Row) {
    PRUNE_COLUMN in container.columns && exists g :: g in container.groups && OnlyTheEnd(g) && r in g.rows
  }

  /** Nothing the contained segments hold is left out of the windowed read of their container. */
  predicate NoneMissed(container: Segment, contained: seq<Cursor>, readable: map<Cursor, Segment>) {
    ReachesTheEnd(contained) ==>
      forall c, r :: c in contained && c in readable && r in RowsOf(readable[c]) ==> !Misses(container, r)
  }

  lemma LongEnoughMissesNothing(container: Segment, contained: seq<Cursor>, readable: map<Cursor, Segment>)
    requires !StopsShort(container, contained)
    ensures NoneMissed(container, contained, readable)
  {
    forall r ensures Misses(container, r) ==> EndsApart(container) {
      if Misses(container, r) {
        var g :| g in container.groups && OnlyTheEnd(g) && r in g.rows;
        assert g.rows != [];
      }
    }
  }

  predicate NamesBound(contained: seq<Cursor>, readable: map<Cursor, Segment>) {
    forall c :: c in contained && c in readable ==> NameBounds(c, readable[c])
  }

  lemma SelectedOrMissed(container: Segment, g: RowGroup, lo: int, hi: int, r: Row)
    requires container.Sound() && PRUNE_COLUMN in container.columns && g in container.groups && r in g.rows
    requires lo <= r.recvMicros <= hi <= I64_MAX && (hi == I64_MAX ==> !Misses(container, r))
    ensures Intersects(g, lo, SaturatingSucc(hi))
  {
    var i :| 0 <= i < |container.groups| && container.groups[i] == g;
    assert container.groups[i].Sound();
    SoundRow(g, r, PRUNE_COLUMN);
  }

  lemma WindowHoldsEverything(container: Segment, contained: seq<Cursor>, readable: map<Cursor, Segment>, c: Cursor, r: Row)
    requires container.Sound() && NamesBound(contained, readable) && NoneMissed(container, contained, readable)
    requires forall d :: d in contained ==> d.Fits()
    requires c in contained && c in readable && r in RowsOf(readable[c])
    ensures multiset(HeldBy(container, contained))[r] == multiset(RowsOf(container))[r]
  {
    WindowCovers(contained);
    if Window(contained).Some? && PRUNE_COLUMN in container.columns {
      var (lo, hi) := Window(contained).value;
      var same := (row: Row) => row == r;
      var select := (g: RowGroup) => Intersects(g, lo, SaturatingSucc(hi));
      forall g, row | g in container.groups && row in g.rows && same(row) ensures select(g) {
        SelectedOrMissed(container, g, lo, hi, r);
      }
      SelectionKeeps(container.groups, select, same);
      KeepCounts(RowsIn(container.groups, select), same, r);
      KeepCounts(RowsOf(container), same, r);
    }
  }

  /** Reading the container only for the window its contained segments span gives every verdict a whole read gives. */
  lemma WindowedVerdictsAreWhole(container: Segment, contained: seq<Cursor>, readable: map<Cursor, Segment>)
    requires container.Sound() && NamesBound(contained, readable) && NoneMissed(container, contained, readable)
    requires forall c :: c in contained ==> c.Fits()
    ensures Condemned(multiset(HeldBy(container, contained)), contained, readable)
         == Condemned(multiset(RowsOf(container)), contained, readable)
  {
    forall c, r | c in contained && c in readable && r in RowsOf(readable[c])
      ensures multiset(HeldBy(container, contained))[r] == multiset(RowsOf(container))[r]
    {
      WindowHoldsEverything(container, contained, readable, c, r);
    }
    VerdictIsLocal(multiset(HeldBy(container, contained)), multiset(RowsOf(container)), contained, readable);
  }

  /** Whatever the contained segments hold, the windowed read gives the verdicts of a whole one. */
  ghost predicate VerdictsAgree(container: Segment, contained: seq<Cursor>) {
    forall readable :: NamesBound(contained, readable) ==>
      Condemned(multiset(HeldBy(container, contained)), contained, readable)
      == Condemned(multiset(RowsOf(container)), contained, readable)
  }

  function Copies(r: Row, n: nat): seq<Row> {
    seq(n, _ => r)
  }

  lemma {:induction false} CopiesCount(r: Row, n: nat)
    ensures multiset(Copies(r, n)) == multiset{}[r := n]
    decreases n
  {
    if n > 0 {
      assert Copies(r, n) == Copies(r, n - 1) + [r];
      CopiesCount(r, n - 1);
    } else {
      assert Copies(r, 0) == [];
    }
  }

  /** Where one segment alone reads, it is condemned exactly when the container has all its rows. */
  lemma {:induction false} OneIsCondemned(available: multiset<Row>, contained: seq<Cursor>, c: Cursor, segment: Segment)
    requires c in contained
    ensures c in Condemned(available, contained, map[c := segment]) <==> multiset(RowsOf(segment)) <= available
    decreases |contained|
  {
    assert contained == [contained[0]] + contained[1..];
    if contained[0] != c {
      OneIsCondemned(available, contained[1..], c, segment);
    } else if !(multiset(RowsOf(segment)) <= available) && c in contained[1..] {
      OneIsCondemned(available, contained[1..], c, segment);
    } else if !(multiset(RowsOf(segment)) <= available) {
      CondemnedIsPart(available, contained[1..], map[c := segment]);
    }
  }

  lemma {:induction false} SelectionDrops(groups: seq<RowGroup>, select: RowGroup -> bool, g: RowGroup, r: Row)
    requires g in groups && !select(g) && r in g.rows
    ensures multiset(RowsIn(groups, select))[r] < multiset(RowsIn(groups, h => true))[r]
    decreases |groups|
  {
    assert groups == [groups[0]] + groups[1..];
    SelectionIsPart(groups[1..], select);
    if groups[0] == g {
      assert r in multiset(g.rows);
    } else {
      SelectionDrops(groups[1..], select, g, r);
    }
  }

  lemma EndIsLeftOut(container: Segment, contained: seq<Cursor>) returns (r: Row)
    requires container.Sound() && StopsShort(container, contained) && forall c :: c in contained ==> c.Fits()
    requires forall row :: row in RowsOf(container) ==> row.recvMicros <= I64_MAX
    ensures r.recvMicros == I64_MAX && multiset(HeldBy(container, contained))[r] < multiset(RowsOf(container))[r]
  {
    var g :| g in container.groups && g.rows != [] && OnlyTheEnd(g);
    var i :| 0 <= i < |container.groups| && container.groups[i] == g;
    r := g.rows[0];
    SoundRow(g, r, PRUNE_COLUMN);
    WindowCovers(contained);
    var (lo, hi) := Window(contained).value;
    assert SaturatingSucc(hi) == I64_MAX;
    SelectionDrops(container.groups, h => Intersects(h, lo, I64_MAX), g, r);
    assert r in RowsOf(container) by { assert multiset(RowsOf(container))[r] > 0; }
  }

  lemma CopiesFit(r: Row, n: nat, available: multiset<Row>)
    ensures multiset(RowsOf(Written(Copies(r, n)))) <= available <==> n <= available[r]
  {
    WrittenReadsBack(Copies(r, n));
    CopiesCount(r, n);
    var bag := multiset{}[r := n];
    if bag <= available { assert bag[r] <= available[r]; }
  }

  /** A segment holding a row as often as the whole container does tells a short count of it from the whole one. */
  lemma ShortCountMisjudges(held: multiset<Row>, whole: multiset<Row>, contained: seq<Cursor>, c: Cursor, r: Row)
    requires c in contained && held[r] < whole[r]
    ensures var readable := map[c := Written(Copies(r, whole[r]))];
            c in Condemned(whole, contained, readable) && c !in Condemned(held, contained, readable)
  {
    CopiesFit(r, whole[r], whole);
    CopiesFit(r, whole[r], held);
    OneIsCondemned(held, contained, c, Written(Copies(r, whole[r])));
    OneIsCondemned(whole, contained, c, Written(Copies(r, whole[r])));
  }

  lemma CopiesAreBounded(contained: seq<Cursor>, c: Cursor, r: Row, n: nat)
    requires c.Time? && c.firstMicros <= r.recvMicros <= c.lastMicros
    ensures NamesBound(contained, map[c := Written(Copies(r, n))])
  {
    WrittenReadsBack(Copies(r, n));
  }

  lemma StoppingShortMisjudges(container: Segment, contained: seq<Cursor>)
    requires container.Sound() && StopsShort(container, contained) && forall c :: c in contained ==> c.Fits()
    requires forall row :: row in RowsOf(container) ==> row.recvMicros <= I64_MAX
    ensures !VerdictsAgree(container, contained)
  {
    var r := EndIsLeftOut(container, contained);
    WindowCovers(contained);
    var c :| c in contained && c.lastMicros == Window(contained).value.1;
    var held, whole := multiset(HeldBy(container, contained)), multiset(RowsOf(container));
    ShortCountMisjudges(held, whole, contained, c, r);
    CopiesAreBounded(contained, c, r, whole[r]);
    OneVerdictDiffers(container, contained, map[c := Written(Copies(r, whole[r]))], c);
  }

  lemma OneVerdictDiffers(container: Segment, contained: seq<Cursor>, readable: map<Cursor, Segment>, c: Cursor)
    requires NamesBound(contained, readable)
    requires c in Condemned(multiset(RowsOf(container)), contained, readable)
    requires c !in Condemned(multiset(HeldBy(container, contained)), contained, readable)
    ensures !VerdictsAgree(container, contained)
  {
  }

  /**
    Exactly when the windowed read will do, container by container: unless the contained names reach the last
    representable receipt and the container keeps rows of that receipt in a row group of their own.
   */
  lemma WindowedReadIsEnoughExactly(container: Segment, contained: seq<Cursor>)
    requires container.Sound() && forall row :: row in RowsOf(container) ==> row.recvMicros <= I64_MAX
    requires forall c :: c in contained ==> c.Fits()
    ensures VerdictsAgree(container, contained) <==> !StopsShort(container, contained)
  {
    if StopsShort(container, contained) {
      StoppingShortMisjudges(container, contained);
    } else {
      forall readable | NamesBound(contained, readable)
        ensures Condemned(multiset(HeldBy(container, contained)), contained, readable)
             == Condemned(multiset(RowsOf(container)), contained, readable)
      {
        LongEnoughMissesNothing(container, contained, readable);
        WindowedVerdictsAreWhole(container, contained, readable);
      }
    }
  }

  /** A segment as it is written: one whole row group of an early row, and a row of the last receipt in the next. */
  function EndingApart(first: int, cells: map<string, Cell>): Segment {
    Written(Copies(Row(first, 0, cells), MAX_ROW_GROUP_ROWS) + [Row(I64_MAX, 1, cells)])
  }

  lemma EndingApartIsWritten(w: Cursor, cells: map<string, Cell>)
    requires w.Time? && w.firstMicros < I64_MAX == w.lastMicros
    ensures EndingApart(w.firstMicros, cells).Sound() && NameBounds(w, EndingApart(w.firstMicros, cells))
    ensures EndsApart(EndingApart(w.firstMicros, cells))
  {
    var early, r := Copies(Row(w.firstMicros, 0, cells), MAX_ROW_GROUP_ROWS), Row(I64_MAX, 1, cells);
    var rows := early + [r];
    WrittenReadsBack(rows);
    assert rows[MAX_ROW_GROUP_ROWS..] == [r];
    assert [r][..1] == [r] && [r][1..] == [];
    var last := Grouped([r])[0];
    assert Grouped(rows)[1..] == Grouped([r]) && Grouped(rows)[1] == last;
    assert last in Grouped(rows) && last.rows == [r] && OnlyTheEnd(last);
  }

  /** So of every container a name may belong to the windowed read will do, exactly where no contained name reaches the end. */
  lemma WindowedReadIsEnoughForEvery(w: Cursor, contained: seq<Cursor>)
    requires w.Fits() && forall c :: c in contained ==> c.Fits() && StrictlyInside(c, w)
    ensures (forall container: Segment :: container.Sound() && NameBounds(w, container) ==> VerdictsAgree(container, contained))
       <==> !ReachesTheEnd(contained)
  {
    WindowCovers(contained);
    if ReachesTheEnd(contained) {
      var c :| c in contained && c.lastMicros == Window(contained).value.1;
      var container := EndingApart(w.firstMicros, map[]);
      EndingApartIsWritten(w, map[]);
      WindowedReadIsEnoughExactly(container, contained);
    } else {
      forall container: Segment | container.Sound() && NameBounds(w, container) ensures VerdictsAgree(container, contained) {
        forall readable | NamesBound(contained, readable)
          ensures Condemned(multiset(HeldBy(container, contained)), contained, readable)
               == Condemned(multiset(RowsOf(container)), contained, readable)
        {
          WindowedVerdictsAreWhole(container, contained, readable);
        }
      }
    }
  }

  lemma PairIsSwept(c: Cursor, w: Cursor)
    requires StrictlyInside(c, w)
    ensures Pair(c, w) in PairsOf(Swept([c, w]))
  {
    SweepIsCrossProduct([c, w]);
    assert Inside(c, [c, w]);
    var p :| p in PairsOf(Swept([c, w])) && p.contained == c;
    assert p.container == w;
  }

  lemma EndingApartHoldsOne(first: int, cells: map<string, Cell>)
    requires first < I64_MAX
    ensures multiset(RowsOf(EndingApart(first, cells)))
         == multiset{}[Row(first, 0, cells) := MAX_ROW_GROUP_ROWS] + multiset{Row(I64_MAX, 1, cells)}
  {
    CopiesCount(Row(first, 0, cells), MAX_ROW_GROUP_ROWS);
    WrittenReadsBack(Copies(Row(first, 0, cells), MAX_ROW_GROUP_ROWS) + [Row(I64_MAX, 1, cells)]);
  }

  lemma EndingApartLeavesItOut(first: int, contained: seq<Cursor>, cells: map<string, Cell>)
    requires first < I64_MAX && ReachesTheEnd(contained) && forall c :: c in contained ==> c.Fits()
    ensures multiset(RowsOf(EndingApart(first, cells)))[Row(I64_MAX, 1, cells)] == 1
    ensures multiset(HeldBy(EndingApart(first, cells), contained))[Row(I64_MAX, 1, cells)] == 0
  {
    var container := EndingApart(first, cells);
    EndingApartIsWritten(Time(first, I64_MAX, 1, 0), cells);
    EndingApartHoldsOne(first, cells);
    var left := EndIsLeftOut(container, contained);
    assert left in multiset(RowsOf(container));
    assert left == Row(I64_MAX, 1, cells);
  }

  const AT_THE_END := Time(I64_MAX, I64_MAX, 1, 1)
  const TO_THE_END := Time(0, I64_MAX, 1, 0)

  /** The sweep reports the one inside the other. */
  lemma EndPairIsReported()
    ensures Pair(AT_THE_END, TO_THE_END) in PairsOf(Swept([AT_THE_END, TO_THE_END]))
  {
    PairIsSwept(AT_THE_END, TO_THE_END);
  }

  lemma EndPairIsNamed(r: Row, cells: map<string, Cell>)
    requires r == Row(I64_MAX, 1, cells)
    ensures NameBounds(AT_THE_END, Written([r])) && NameBounds(TO_THE_END, EndingApart(0, cells))
  {
    WrittenReadsBack([r]);
    EndingApartIsWritten(TO_THE_END, cells);
  }

  /** Of that pair, both as they are written, the whole read proves the duplicate and the windowed one does not. */
  lemma WindowStopsShortAtTheEnd(r: Row, cells: map<string, Cell>)
    requires r == Row(I64_MAX, 1, cells)
    ensures NameBounds(AT_THE_END, Written([r])) && NameBounds(TO_THE_END, EndingApart(0, cells))
    ensures var readable, container := map[AT_THE_END := Written([r])], EndingApart(0, cells);
            && AT_THE_END in Condemned(multiset(RowsOf(container)), [AT_THE_END], readable)
            && AT_THE_END !in Condemned(multiset(HeldBy(container, [AT_THE_END])), [AT_THE_END], readable)
  {
    EndPairIsNamed(r, cells);
    WindowCovers([AT_THE_END]);
    EndingApartLeavesItOut(0, [AT_THE_END], cells);
    assert Copies(r, 1) == [r];
    var held, whole := multiset(HeldBy(EndingApart(0, cells), [AT_THE_END])), multiset(RowsOf(EndingApart(0, cells)));
    ShortCountMisjudges(held, whole, [AT_THE_END], AT_THE_END, r);
  }

  lemma {:induction false} CondemnedFits(available: multiset<Row>, contained: seq<Cursor>, readable: map<Cursor, Segment>)
    ensures forall c :: c in Condemned(available, contained, readable) ==>
      c in readable && multiset(RowsOf(readable[c])) <= available
    decreases |contained|
  {
    if contained != [] {
      CondemnedFits(available, contained[1..], readable);
      if contained[0] in readable {
        CondemnedFits(available - multiset(RowsOf(readable[contained[0]])), contained[1..], readable);
      }
    }
  }

  /** Every condemned segment has a container, itself not condemned, that holds each of its rows as often. */
  lemma ProvenIsHeld(listed: seq<Cursor>, readable: map<Cursor, Segment>, c: Cursor) returns (w: Cursor)
    requires c in ProvenOf(PairsOf(Swept(listed)), readable)
    ensures c in listed && w in listed && c in readable && w in readable && StrictlyInside(c, w)
    ensures w !in ProvenOf(PairsOf(Swept(listed)), readable)
    ensures multiset(RowsOf(readable[c])) <= multiset(RowsOf(readable[w]))
  {
    var pairs := PairsOf(Swept(listed));
    var p :| p in pairs && p.contained == c && c in ProvenIn(p.container, ContainedIn(pairs, p.container), readable);
    w := p.container;
    SweepIsCrossProduct(listed);
    var contained := ContainedIn(pairs, w);
    CondemnedFits(multiset(HeldBy(readable[w], contained)), contained, readable);
    if Window(contained).Some? {
      var (lo, hi) := Window(contained).value;
      SelectionIsPart(readable[w].groups, g => Intersects(g, lo, SaturatingSucc(hi)));
    }
  }

  /** A container holding everything inside it at once condemns all of it that reads. */
  lemma AllInsideAreProven(pairs: seq<Pair>, name: Cursor, readable: map<Cursor, Segment>)
    requires name in readable && readable[name].Sound()
    requires NoneMissed(readable[name], ContainedIn(pairs, name), readable)
    requires forall c :: c in ContainedIn(pairs, name) ==> c.Fits()
    requires forall c :: c in ContainedIn(pairs, name) && c in readable ==> NameBounds(c, readable[c]) && RowsOf(readable[c]) != []
    requires SumOf(RowBag(readable), ContainedIn(pairs, name)) <= multiset(RowsOf(readable[name]))
    ensures forall c :: c in ContainedIn(pairs, name) && c in readable ==> c in ProvenOf(pairs, readable)
  {
    var contained := ContainedIn(pairs, name);
    var held := multiset(HeldBy(readable[name], contained));
    ContainedInHolds(pairs, name);
    CoveredIsCondemned(multiset(RowsOf(readable[name])), contained, readable);
    WindowedVerdictsAreWhole(readable[name], contained, readable);
    CondemnedFits(held, contained, readable);
    forall c | c in contained && c in readable ensures c in ProvenOf(pairs, readable) {
      assert c in Condemned(held, contained, readable);
      assert RowsOf(readable[c])[0] in multiset(RowsOf(readable[c]));
      assert Pair(c, name) in pairs;
    }
  }

  lemma WindowToTheEnd(container: Segment, c: Cursor)
    requires c.Time? && c.lastMicros == I64_MAX && PRUNE_COLUMN in container.columns
    ensures HeldBy(container, [c]) == RowsIn(container.groups, g => Intersects(g, c.firstMicros, I64_MAX))
  {
    assert Window([c]) == Some((c.firstMicros, c.lastMicros));
  }

  /** A row group of the last receipt alone holds rows of that receipt, which a window ending there leaves out. */
  lemma LastGroupIsMissed(container: Segment, g: RowGroup, r: Row, from: int)
    requires container.Sound() && g in container.groups && OnlyTheEnd(g) && r in g.rows
    ensures r.recvMicros >= I64_MAX && !Intersects(g, from, I64_MAX)
  {
    var i :| 0 <= i < |container.groups| && container.groups[i] == g;
    assert container.groups[i].Sound();
    SoundRow(g, r, PRUNE_COLUMN);
  }

  lemma OnlyCopyIsDropped(groups: seq<RowGroup>, from: int, g: RowGroup, r: Row)
    requires g in groups && !Intersects(g, from, I64_MAX) && r in g.rows && multiset(RowsIn(groups, h => true))[r] == 1
    ensures r !in multiset(RowsIn(groups, h => Intersects(h, from, I64_MAX)))
  {
    SelectionDrops(groups, h => Intersects(h, from, I64_MAX), g, r);
  }

  /** A segment alone in its container, with a row of the last receipt the window misses, is not proven there. */
  lemma MissedAlone(c: Cursor, container: Segment, readable: map<Cursor, Segment>, r: Row)
    requires c.Fits() && c in readable && NameBounds(c, readable[c]) && r in RowsOf(readable[c])
    requires c.Time? && container.Sound() && Misses(container, r) && multiset(RowsOf(container))[r] == 1
    ensures c !in Condemned(multiset(HeldBy(container, [c])), [c], readable)
  {
    var g :| g in container.groups && OnlyTheEnd(g) && r in g.rows;
    LastGroupIsMissed(container, g, r, c.firstMicros);
    assert c.lastMicros == I64_MAX;
    WindowToTheEnd(container, c);
    OnlyCopyIsDropped(container.groups, c.firstMicros, g, r);
    CondemnedFits(multiset(HeldBy(container, [c])), [c], readable);
    assert r in multiset(RowsOf(readable[c]));
  }
}
