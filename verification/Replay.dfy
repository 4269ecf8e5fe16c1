/** A replay of listed segments as an ordered merge that opens as few of them at a time as it can. */
module Replaying {
  import opened Sorting
  import opened Segments
  import opened Merge

  datatype Item = Yielded(row: Row) | Failed | Ended

  class Replay {
    /** What is still to be opened; the earliest start is at the end. */
    var pending: seq<Pending>
    /** For each segment opened so far, the sorted rows it still has to give. */
    var open: seq<seq<Row>>
    /** The least row of each of those that has any. */
    var heap: set<Entry>
    var failed: bool
    const from: int
    const to: int
    /** Everything listed; what is no longer pending has been opened. */
    ghost const listed: seq<Pending>
    /** What each listed segment gives, in receipt order. */
    ghost const sorted: Pending -> seq<Row>
    ghost var yielded: seq<Row>

    ghost predicate Valid()
      reads this
    {
      Listed(listed, pending) && Merging(listed, pending, open, heap) && SortsAsked(sorted, from, to)
    }

    ghost function Remaining(): multiset<Row>
      reads this
    {
      Left(open, pending, from, to)
    }

    /** What has been yielded is in order, and nothing left comes before it. */
    ghost predicate InOrder()
      reads this
    {
      OrderedBefore(yielded, Remaining())
    }

    constructor (list: seq<Pending>, from: int, to: int)
      requires forall i :: 0 <= i < |list| ==> StartsAt(list[i])
      ensures Valid() && InOrder() && !failed && yielded == [] && this.from == from && this.to == to
      ensures Remaining() == SumOf(AskedOf(from, to), list) && multiset(listed) == multiset(list)
      ensures pending == listed == SortBy(LatestFirst, list) && open == []
      ensures InTurn([], open, pending, sorted, ReplayOrder(list, from, to))
    {
      var latestFirst := SortBy(LatestFirst, list);
      LatestFirstSorts(list);
      BeginsListed(list, latestFirst);
      BeginsMerging(latestFirst, from, to);
      BeginsInTurn(list, from, to);
      SortedAsked(from, to);
      SumPermuted(AskedOf(from, to), list, latestFirst);
      this.from, this.to := from, to;
      pending, open, heap, failed := latestFirst, [], {}, false;
      listed, sorted, yielded := latestFirst, SortedOf(from, to), [];
    }

    /** Read a segment: what it has for the window, sorted. */
    method SortedRows(next: Pending) returns (rows: seq<Row>)
      requires StartsAt(next) && next.stored.Reads? && SortsAsked(sorted, from, to)
      ensures Sorted(KeyLe, rows) && multiset(rows) == AskedOf(from, to)(next) && rows == sorted(next)
      ensures forall r :: r in rows ==> next.first <= r.recvMicros
    {
      var segment := next.stored.segment;
      rows := SortBy(KeyLe, Keep(ReadRange(segment, from, to), InWindow(from, to)));
      RangeReadLosesNothing(segment, from, to, InWindow(from, to));
      KeyLeIsTotal();
      SortBySorts(KeyLe, Keep(RowsOf(segment), InWindow(from, to)));
      OpenedRowsStart(next, rows, from, to);
    }

    /** Open the next segment, once nothing held comes before it. */
    method OpenSegment() returns (ok: bool)
      requires Valid() && pending != [] && forall e :: e in heap ==> pending[|pending| - 1].first <= e.recv
      modifies this`pending, this`open, this`heap
      ensures Valid() && pending == old(pending[..|pending| - 1]) && Remaining() == old(Remaining())
      ensures ok == old(pending[|pending| - 1].stored.Reads?)
      ensures ok ==> open == old(open + [sorted(pending[|pending| - 1])])
    {
      var next := pending[|pending| - 1];
      if next.stored.Fails? {
        FailureMovesNothing(listed, pending, open, heap, from, to);
        pending := pending[..|pending| - 1];
        return false;
      }
      NextStarts(listed, pending);
      var rows := SortedRows(next);
      PushHead(rows);
      pending := pending[..|pending| - 1];
      OpeningMovesRows(listed, old(pending), old(open), old(heap), rows, from, to);
      ok := true;
    }

    method PushHead(rows: seq<Row>)
      requires heap == Heads(open)
      modifies this`open, this`heap
      ensures open == old(open) + [rows] && heap == Heads(open)
    {
      HeadsAppend(open, rows);
      if rows != [] { heap := heap + {Entry(rows[0].recvMicros, rows[0].streamSeq, |open|)}; }
      open := open + [rows];
    }

    /** Take the least head, and put the row after it in its place. */
    method PopHead() returns (row: Row)
      requires heap == Heads(open) && heap != {} && AllSorted(open)
      modifies this`open, this`heap
      ensures heap == Heads(open) && HeadTaken(old(open), row, open) && LeastIn(row, old(heap))
    {
      ghost var least := LeastEntry(heap);
      var e :| e in heap && forall f :: f in heap ==> EntryLe(e, f);
      HeadIsLeast(open, e);
      HeadIsFirst(open, e);
      HeadsPop(open, e.index);
      var rows := open[e.index];
      row := rows[0];
      assert Popped(open, e.index, row, open[e.index := rows[1..]]);
      open := open[e.index := rows[1..]];
      heap := heap - {e};
      if |rows| > 1 { heap := heap + {Entry(rows[1].recvMicros, rows[1].streamSeq, e.index)}; }
    }

    /** Whether the earliest row held comes before everything the next segment can hold. */
    method HeldComesFirst(first: int) returns (before: bool)
      requires heap == Heads(open)
      ensures before <==> EarlierHeld(heap, first)
    {
      before := exists e :: e in heap && e.recv < first;
    }

    /** Go on opening until the least row held precedes the start of all that is unopened. */
    method Fill() returns (ok: bool)
      requires Valid() && !failed
      modifies this`pending, this`open, this`heap, this`failed
      ensures Valid() && Remaining() == old(Remaining()) && |pending| <= old(|pending|)
      ensures ok ==> Filled(old(open), old(pending), open, pending, sorted)
      ensures failed == !ok
      ensures ok && pending != [] ==> EarlierHeld(heap, pending[|pending| - 1].first)
      ensures !ok ==> |pending| < old(|pending|) && listed[|pending|].stored.Fails?
    {
      while pending != []
        invariant Valid() && !failed && Remaining() == old(Remaining()) && |pending| <= old(|pending|)
        invariant Filled(old(open), old(pending), open, pending, sorted)
        decreases |pending|
      {
        var before := HeldComesFirst(pending[|pending| - 1].first);
        if before { return true; }
        assert pending[|pending| - 1] == listed[|pending| - 1];
        FilledOneMore(old(open), old(pending), open, pending, sorted);
        var read := OpenSegment();
        if !read {
          failed := true;
          return false;
        }
      }
      ok := true;
    }

    method Next() returns (item: Item)
      requires Valid() && InOrder()
      modifies this
      ensures Valid() && InOrder()
      ensures |pending| <= old(|pending|)
      ensures item.Yielded? ==>
        && !old(failed) && !failed && yielded == old(yielded) + [item.row]
        && LeastIsOut(listed, pending, old(Remaining()), item.row, Remaining())
        && Turn(old(open), old(pending), item.row, open, pending, sorted)
      ensures !item.Yielded? ==> yielded == old(yielded) && Remaining() == old(Remaining())
      ensures item.Failed? ==> !old(failed) && failed && |pending| < old(|pending|) && listed[|pending|].stored.Fails?
      ensures item.Ended? ==> failed == old(failed) && (failed || (pending == [] && Remaining() == multiset{}))
      ensures item.Ended? && !failed ==> Filled(old(open), old(pending), open, pending, sorted)
    {
      if failed { return Ended; }
      var ok := Fill();
      if !ok { return Failed; }
      ghost var held := open;
      item := Lead();
      if item.Yielded? { TurnIs(old(open), old(pending), held, item.row, open, pending, sorted); }
    }

    /** The row at the head of the merge, if any is held. */
    method Lead() returns (item: Item)
      requires Listed(listed, pending) && Merging(listed, pending, open, heap) && OrderedBefore(yielded, Left(open, pending, from, to))
      requires pending != [] ==> EarlierHeld(heap, pending[|pending| - 1].first)
      modifies this`open, this`heap, this`yielded
      ensures Merging(listed, pending, open, heap) && OrderedBefore(yielded, Left(open, pending, from, to))
      ensures item.Yielded? || item.Ended?
      ensures item.Yielded? ==>
        && yielded == old(yielded) + [item.row]
        && LeastIsOut(listed, pending, Left(old(open), pending, from, to), item.row, Left(open, pending, from, to))
        && HeadTaken(old(open), item.row, open)
      ensures item.Ended? ==> yielded == old(yielded) && open == old(open) && pending == [] && Left(open, pending, from, to) == multiset{}
    {
      if heap == {} {
        NothingHeld(open);
        return Ended;
      }
      item := Take();
    }

    method Take() returns (item: Item)
      requires Listed(listed, pending) && Merging(listed, pending, open, heap) && heap != {}
      requires OrderedBefore(yielded, Left(open, pending, from, to))
      requires pending != [] ==> EarlierHeld(heap, pending[|pending| - 1].first)
      modifies this`open, this`heap, this`yielded
      ensures item.Yielded? && yielded == old(yielded) + [item.row] && heap == Heads(open)
      ensures TookLeast(listed, pending, old(open), item.row, open, from, to, old(yielded))
      ensures HeadTaken(old(open), item.row, open)
    {
      ghost var before := open;
      var row := PopHead();
      if pending != [] { LeastIsEarlier(row, old(heap), pending[|pending| - 1].first); }
      TakenInOrder(listed, pending, before, row, open, from, to, yielded);
      yielded := yielded + [row];
      item := Yielded(row);
    }

    /** Run to the end, or to the first segment that fails. */
    method Collect(ghost whole: seq<Row>) returns (rows: seq<Row>, complete: bool)
      requires Valid() && InOrder() && !failed && yielded == [] && InTurn([], open, pending, sorted, whole)
      modifies this
      ensures rows <= whole && (complete ==> rows == whole)
      ensures OrderedBefore(rows, old(Remaining()) - multiset(rows)) && multiset(rows) <= old(Remaining())
      ensures complete ==> multiset(rows) == old(Remaining())
      ensures !complete ==> exists j :: 0 <= j < |listed| && listed[j].stored.Fails?
    {
      rows, complete := [], true;
      ghost var all := Remaining();
      while complete
        invariant Valid() && InOrder() && yielded == rows && failed == !complete && rows <= whole
        invariant complete ==> InTurn(rows, open, pending, sorted, whole)
        invariant Accounted(Remaining(), rows, all)
        invariant failed ==> exists j :: 0 <= j < |listed| && listed[j].stored.Fails?
        decreases complete, |Remaining()|
      {
        ghost var before, held, unopened := Remaining(), open, pending;
        var item := Next();
        match item {
          case Yielded(row) =>
            TurnCounted(listed, held, unopened, row, open, pending, from, to, sorted, rows, whole, before, all);
            rows := rows + [row];
            InTurnIsPrefix(rows, open, pending, sorted, whole);
          case Failed => complete := false;
          case Ended =>
            TurnsEnd(held, unopened, open, pending, from, to, sorted, rows, whole);
            break;
        }
      }
      AccountedEnds(rows, Remaining(), all);
    }
  }

  /** Where receipt and sequence tell rows apart, a replay is everything asked for, sorted. */
  lemma ReplayIsSort(rows: seq<Row>, asked: seq<Row>)
    requires Sorted(KeyLe, rows) && multiset(rows) == multiset(asked) && TellsApart(KeyLe, multiset(asked))
    ensures rows == SortBy(KeyLe, asked)
  {
    KeyLeIsTotal();
    SortBySorts(KeyLe, asked);
    SortedUnique(KeyLe, rows, SortBy(KeyLe, asked));
  }

  /** What an error cuts short is a prefix of what an unbroken replay would have yielded. */
  lemma {:induction false} BrokenReplayIsPrefix(rows: seq<Row>, whole: seq<Row>)
    requires Sorted(KeyLe, whole) && TellsApart(KeyLe, multiset(whole)) && multiset(rows) <= multiset(whole)
    requires OrderedBefore(rows, multiset(whole) - multiset(rows))
    ensures rows <= whole
  {
    var rest := multiset(whole) - multiset(rows);
    var tail := SeqOf(rest);
    var sorted := SortBy(KeyLe, tail);
    KeyLeIsTotal();
    SortBySorts(KeyLe, tail);
    forall i, j | 0 <= i < j < |rows + sorted| ensures KeyLe((rows + sorted)[i], (rows + sorted)[j]) {
      if i < |rows| <= j {
        assert sorted[j - |rows|] in multiset(sorted);
        assert rows[i] in rows;
      }
    }
    assert multiset(rows + sorted) == multiset(whole);
    SortedUnique(KeyLe, rows + sorted, whole);
  }

  ghost function SeqOf(rows: multiset<Row>): (s: seq<Row>)
    ensures multiset(s) == rows
    decreases |rows|
  {
    if rows == multiset{} then [] else
      var r :| r in rows;
      [r] + SeqOf(rows - multiset{r})
  }

  // ---- the order segments open in ------------------------------------------------------------

  function StartingAt(first: int, list: seq<Pending>): seq<Pending> {
    if list == [] then []
    else
      var last := list[|list| - 1];
      StartingAt(first, list[..|list| - 1]) + if last.first == first then [last] else []
  }

  lemma StartingAtAppend(first: int, list: seq<Pending>, p: Pending)
    ensures StartingAt(first, list + [p]) == StartingAt(first, list) + if p.first == first then [p] else []
  {
    assert (list + [p])[..|list|] == list;
  }

  lemma {:induction false} InsertKeepsStarts(first: int, list: seq<Pending>, p: Pending)
    requires Sorted(LatestFirst, list)
    ensures StartingAt(first, Insert(LatestFirst, list, p)) == StartingAt(first, list) + if p.first == first then [p] else []
    decreases |list|
  {
    if list == [] {
      assert Insert(LatestFirst, list, p) == [] + [p];
      StartingAtAppend(first, [], p);
    } else {
      var front, last := list[..|list| - 1], list[|list| - 1];
      assert list == front + [last];
      InsertBefore(LatestFirst, front, last, p);
      StartingAtAppend(first, front, last);
      if LatestFirst(last, p) {
        StartingAtAppend(first, list, p);
      } else {
        InsertKeepsStarts(first, front, p);
        StartingAtAppend(first, Insert(LatestFirst, front, p), last);
      }
    }
  }

  /** Sorting by start moves no segment past another of its own start. */
  lemma {:induction false} SortKeepsStarts(first: int, list: seq<Pending>)
    ensures StartingAt(first, SortBy(LatestFirst, list)) == StartingAt(first, list)
    decreases |list|
  {
    if list != [] {
      var front, last := list[..|list| - 1], list[|list| - 1];
      assert list == front + [last];
      SortKeepsStarts(first, front);
      LatestFirstIsTotal();
      SortBySorts(LatestFirst, front);
      SortAppends(LatestFirst, front, last);
      InsertKeepsStarts(first, SortBy(LatestFirst, front), last);
    }
  }

  lemma {:induction false} StartingAtConcat(first: int, xs: seq<Pending>, ys: seq<Pending>)
    ensures StartingAt(first, xs + ys) == StartingAt(first, xs) + StartingAt(first, ys)
    decreases |ys|
  {
    if ys == [] {
      assert xs + ys == xs;
    } else {
      var front, last := ys[..|ys| - 1], ys[|ys| - 1];
      assert ys == front + [last];
      StartingAtConcat(first, xs, front);
      AppendLast(xs, front, last);
      StartingAtAppend(first, xs + front, last);
      Regroup3(StartingAt(first, xs), StartingAt(first, front), if last.first == first then [last] else []);
    }
  }

  lemma {:induction false} StartingAtReversed(first: int, list: seq<Pending>)
    ensures StartingAt(first, Reversed(list)) == Reversed(StartingAt(first, list))
    decreases |list|
  {
    if list != [] {
      var front, last := list[..|list| - 1], list[|list| - 1];
      StartingAtReversed(first, front);
      StartingAtConcat(first, [last], Reversed(front));
      assert [last] == [] + [last];
      StartingAtAppend(first, [], last);
      if last.first == first { ReversedLast(StartingAt(first, front), last); }
    }
  }

  /**
    Of any listing, the segments that start at one receipt open last listed first, where the documentation says
    listing order.
   */
  lemma EqualStartsOpenLastListedFirst(list: seq<Pending>, first: int)
    ensures StartingAt(first, OpeningOrder(list)) == Reversed(StartingAt(first, list))
  {
    SortKeepsStarts(first, list);
    StartingAtReversed(first, SortBy(LatestFirst, list));
  }

  lemma {:induction false} StartingAtHolds(first: int, list: seq<Pending>)
    requires Distinct(list)
    ensures Distinct(StartingAt(first, list))
    ensures forall p :: p in StartingAt(first, list) <==> p in list && p.first == first
    decreases |list|
  {
    if list != [] {
      var front, last := list[..|list| - 1], list[|list| - 1];
      assert list == front + [last];
      StartingAtHolds(first, front);
      assert last !in front;
    }
  }

  predicate NoTwoStartTogether(list: seq<Pending>) {
    forall i, j :: 0 <= i < j < |list| ==> list[i].first != list[j].first
  }

  lemma ReversedIsSame(xs: seq<Pending>)
    requires Distinct(xs)
    ensures Reversed(xs) == xs <==> |xs| <= 1
  {
    assert |xs| > 1 ==> Reversed(xs)[0] == xs[|xs| - 1] != xs[0];
  }

  lemma TwoStartTogether(list: seq<Pending>, i: nat, j: nat)
    requires Distinct(list) && i < j < |list| && list[i].first == list[j].first
    ensures |StartingAt(list[i].first, list)| > 1
  {
    var starting := StartingAt(list[i].first, list);
    StartingAtHolds(list[i].first, list);
    assert list[i] in list && list[j] in list && list[i] in starting && list[j] in starting && list[i] != list[j];
  }

  lemma SomeStartTogether(list: seq<Pending>, first: int)
    requires Distinct(list) && |StartingAt(first, list)| > 1
    ensures !NoTwoStartTogether(list)
  {
    var starting := StartingAt(first, list);
    StartingAtHolds(first, list);
    assert starting[0] in starting && starting[1] in starting;
    var i :| 0 <= i < |list| && list[i] == starting[0];
    var j :| 0 <= j < |list| && list[j] == starting[1];
    assert list[i].first == list[j].first && i != j;
    assert i < j ==> !NoTwoStartTogether(list);
  }

  /** The documented order, that of the listing, is the order of opening exactly where no two segments start together. */
  lemma ListingOrderExactly(list: seq<Pending>)
    requires Distinct(list)
    ensures (forall first :: StartingAt(first, OpeningOrder(list)) == StartingAt(first, list)) <==> NoTwoStartTogether(list)
  {
    forall first ensures StartingAt(first, OpeningOrder(list)) == StartingAt(first, list) <==> |StartingAt(first, list)| <= 1 {
      EqualStartsOpenLastListedFirst(list, first);
      StartingAtHolds(first, list);
      ReversedIsSame(StartingAt(first, list));
    }
    if NoTwoStartTogether(list) {
      forall first ensures |StartingAt(first, list)| <= 1 {
        if |StartingAt(first, list)| > 1 { SomeStartTogether(list, first); }
      }
    } else {
      var i, j :| 0 <= i < j < |list| && list[i].first == list[j].first;
      TwoStartTogether(list, i, j);
    }
  }

  // ---- rows alike in receipt and sequence ------------------------------------------------------

  /** Rows the order of a replay does not tell from one of this receipt and sequence. */
  function Alike(recv: int, seqNo: nat): Row -> bool {
    (r: Row) => r.recvMicros == recv && r.streamSeq == seqNo
  }

  /** Those of a segment's asked rows, as they are stored. */
  function AlikeIn(recv: int, seqNo: nat, from: int, to: int): Pending -> seq<Row> {
    (p: Pending) => Keep(Asked(p.stored, from, to), Alike(recv, seqNo))
  }

  lemma KeepAnother(rows: seq<Row>, last: Row, keep: Row -> bool)
    ensures Keep(rows + [last], keep) == Keep(rows, keep) + if keep(last) then [last] else []
  {
    KeepAppend(rows, [last], keep);
    assert [last][1..] == [];
  }

  lemma {:induction false} InsertKeepsAlike(rows: seq<Row>, row: Row, recv: int, seqNo: nat)
    requires Sorted(KeyLe, rows)
    ensures Keep(Insert(KeyLe, rows, row), Alike(recv, seqNo)) == Keep(rows, Alike(recv, seqNo)) + if Alike(recv, seqNo)(row) then [row] else []
    decreases |rows|
  {
    var alike := Alike(recv, seqNo);
    if rows == [] {
      assert Insert(KeyLe, rows, row) == [] + [row];
      KeepAnother([], row, alike);
    } else {
      var front, last := rows[..|rows| - 1], rows[|rows| - 1];
      assert rows == front + [last];
      InsertBefore(KeyLe, front, last, row);
      KeepAnother(front, last, alike);
      if KeyLe(last, row) {
        KeepAnother(rows, row, alike);
      } else {
        InsertKeepsAlike(front, row, recv, seqNo);
        KeepAnother(Insert(KeyLe, front, row), last, alike);
      }
    }
  }

  /** Sorting moves no row past another alike in receipt and sequence. */
  lemma {:induction false} SortKeepsAlike(rows: seq<Row>, recv: int, seqNo: nat)
    ensures Keep(SortBy(KeyLe, rows), Alike(recv, seqNo)) == Keep(rows, Alike(recv, seqNo))
    decreases |rows|
  {
    if rows != [] {
      var front, last := rows[..|rows| - 1], rows[|rows| - 1];
      assert rows == front + [last];
      SortKeepsAlike(front, recv, seqNo);
      KeyLeIsTotal();
      SortBySorts(KeyLe, front);
      SortAppends(KeyLe, front, last);
      InsertKeepsAlike(SortBy(KeyLe, front), last, recv, seqNo);
      KeepAnother(front, last, Alike(recv, seqNo));
    }
  }

  lemma {:induction false} FlatKeepsAlike(list: seq<Pending>, from: int, to: int, recv: int, seqNo: nat)
    ensures Keep(Flat(SortedOf(from, to), list), Alike(recv, seqNo)) == Flat(AlikeIn(recv, seqNo, from, to), list)
    decreases |list|
  {
    if list != [] {
      var front, last := list[..|list| - 1], list[|list| - 1];
      FlatKeepsAlike(front, from, to, recv, seqNo);
      KeepAppend(Flat(SortedOf(from, to), front), SortedOf(from, to)(last), Alike(recv, seqNo));
      SortKeepsAlike(Asked(last.stored, from, to), recv, seqNo);
    }
  }

  /** Of any listing, rows alike in receipt and sequence are yielded segment by segment, in the order the segments open. */
  lemma AlikeRowsComeInOpeningOrder(list: seq<Pending>, from: int, to: int, recv: int, seqNo: nat)
    ensures Keep(ReplayOrder(list, from, to), Alike(recv, seqNo)) == Flat(AlikeIn(recv, seqNo, from, to), OpeningOrder(list))
  {
    SortKeepsAlike(Flat(SortedOf(from, to), OpeningOrder(list)), recv, seqNo);
    FlatKeepsAlike(OpeningOrder(list), from, to, recv, seqNo);
  }

  /** One of a start listed before another of it comes before it among all of that start. */
  lemma {:induction false} StartingInOrder(first: int, list: seq<Pending>, i: nat, j: nat) returns (a: nat, b: nat)
    requires i < j < |list| && list[i].first == first == list[j].first
    ensures a < b < |StartingAt(first, list)| && StartingAt(first, list)[a] == list[i] && StartingAt(first, list)[b] == list[j]
    decreases |list|
  {
    var front := list[..|list| - 1];
    if j < |front| {
      a, b := StartingInOrder(first, front, i, j);
    } else {
      a := StartingAtIndex(first, front, i);
      b := |StartingAt(first, front)|;
    }
  }

  lemma {:induction false} StartingAtIndex(first: int, list: seq<Pending>, i: nat) returns (a: nat)
    requires i < |list| && list[i].first == first
    ensures a < |StartingAt(first, list)| && StartingAt(first, list)[a] == list[i]
    decreases |list|
  {
    var front := list[..|list| - 1];
    if i < |front| { a := StartingAtIndex(first, front, i); } else { a := |StartingAt(first, front)|; }
  }

  /** And the other way about. */
  lemma {:induction false} FoundInOrder(first: int, list: seq<Pending>, a: nat, b: nat) returns (i: nat, j: nat)
    requires a < b < |StartingAt(first, list)|
    ensures i < j < |list| && list[i] == StartingAt(first, list)[a] && list[j] == StartingAt(first, list)[b]
    decreases |list|
  {
    var front := list[..|list| - 1];
    if b < |StartingAt(first, front)| {
      i, j := FoundInOrder(first, front, a, b);
    } else {
      i := FoundAtIndex(first, front, a);
      j := |front|;
    }
  }

  lemma {:induction false} FoundAtIndex(first: int, list: seq<Pending>, a: nat) returns (i: nat)
    requires a < |StartingAt(first, list)|
    ensures i < |list| && list[i] == StartingAt(first, list)[a]
    decreases |list|
  {
    var front := list[..|list| - 1];
    if a < |StartingAt(first, front)| { i := FoundAtIndex(first, front, a); } else { i := |front|; }
  }

  lemma SplitAtTwo(list: seq<Pending>, i: nat, j: nat)
    requires i < j < |list|
    ensures list == list[..i] + [list[i]] + list[i + 1..j] + [list[j]] + list[j + 1..]
  {
  }

  lemma FlatOfTwoAmong(says: Pending -> seq<Row>, before: seq<Pending>, x: Pending, between: seq<Pending>, y: Pending, after: seq<Pending>)
    ensures Flat(says, before + [x] + between + [y] + after)
         == Flat(says, before) + says(x) + Flat(says, between) + says(y) + Flat(says, after)
  {
    FlatConcat(says, before + [x] + between + [y], after);
    FlatAppend(says, before + [x] + between, y);
    FlatConcat(says, before + [x], between);
    FlatAppend(says, before, x);
  }

  /** Of any two segments of one start the one listed later opens first. */
  lemma OpenedInReverse(list: seq<Pending>, i: nat, j: nat) returns (before: seq<Pending>, between: seq<Pending>, after: seq<Pending>)
    requires i < j < |list| && list[i].first == list[j].first
    ensures OpeningOrder(list) == before + [list[j]] + between + [list[i]] + after
  {
    var first, order := list[i].first, OpeningOrder(list);
    var a, b := StartingInOrder(first, list, i, j);
    EqualStartsOpenLastListedFirst(list, first);
    var n := |StartingAt(first, list)|;
    var l, m := FoundInOrder(first, order, n - 1 - b, n - 1 - a);
    SplitAtTwo(order, l, m);
    before, between, after := order[..l], order[l + 1..m], order[m + 1..];
  }

  /**
    What a reader sees of it: of any two segments of one start, however many rows they hold and whatever else is listed,
    the rows of the one listed later that are alike to any receipt and sequence all come before those of the other.
   */
  lemma EqualRowsComeLastListedFirst(list: seq<Pending>, i: nat, j: nat, from: int, to: int, recv: int, seqNo: nat)
    returns (before: seq<Pending>, between: seq<Pending>, after: seq<Pending>)
    requires i < j < |list| && list[i].first == list[j].first
    ensures OpeningOrder(list) == before + [list[j]] + between + [list[i]] + after
    ensures var says := AlikeIn(recv, seqNo, from, to);
            Keep(ReplayOrder(list, from, to), Alike(recv, seqNo))
              == Flat(says, before) + says(list[j]) + Flat(says, between) + says(list[i]) + Flat(says, after)
  {
    before, between, after := OpenedInReverse(list, i, j);
    FlatOfTwoAmong(AlikeIn(recv, seqNo, from, to), before, list[j], between, list[i], after);
    AlikeRowsComeInOpeningOrder(list, from, to, recv, seqNo);
  }

  lemma SayingAppend(says: Pending -> seq<Row>, xs: seq<Pending>, x: Pending)
    ensures Saying(says, xs + [x]) == Saying(says, xs) + if says(x) != [] then [x] else []
  {
    assert (xs + [x])[..|xs|] == xs;
  }

  lemma {:induction false} SayingConcat(says: Pending -> seq<Row>, xs: seq<Pending>, ys: seq<Pending>)
    ensures Saying(says, xs + ys) == Saying(says, xs) + Saying(says, ys)
    decreases |ys|
  {
    if ys == [] {
      assert xs + ys == xs;
    } else {
      var front, last := ys[..|ys| - 1], ys[|ys| - 1];
      assert ys == front + [last];
      SayingConcat(says, xs, front);
      AppendLast(xs, front, last);
      SayingAppend(says, xs + front, last);
      Regroup3(Saying(says, xs), Saying(says, front), if says(last) != [] then [last] else []);
    }
  }

  lemma {:induction false} SayingReversed(says: Pending -> seq<Row>, xs: seq<Pending>)
    ensures Saying(says, Reversed(xs)) == Reversed(Saying(says, xs))
    decreases |xs|
  {
    if xs != [] {
      var front, last := xs[..|xs| - 1], xs[|xs| - 1];
      SayingReversed(says, front);
      SayingConcat(says, [last], Reversed(front));
      assert [last] == [] + [last];
      SayingAppend(says, [], last);
      if says(last) != [] { ReversedLast(Saying(says, front), last); }
    }
  }

  lemma {:induction false} SayingSays(says: Pending -> seq<Row>, xs: seq<Pending>)
    ensures forall k :: 0 <= k < |Saying(says, xs)| ==> says(Saying(says, xs)[k]) != []
    decreases |xs|
  {
    if xs != [] { SayingSays(says, xs[..|xs| - 1]); }
  }

  lemma FlatOfMany(says: Pending -> seq<Row>, xs: seq<Pending>)
    requires xs != [] && forall k :: 0 <= k < |xs| ==> says(xs[k]) != []
    ensures Flat(says, xs) != [] && Flat(says, xs)[0] == says(xs[0])[0]
  {
    assert xs == [xs[0]] + xs[1..];
    FlatConcat(says, [xs[0]], xs[1..]);
    FlatOfOne(says, xs[0]);
  }

  lemma FirstsApart(says: Pending -> seq<Row>, xs: seq<Pending>)
    requires |xs| > 1 && (forall k :: 0 <= k < |xs| ==> says(xs[k]) != []) && Distinct(Flat(says, xs))
    ensures says(xs[0])[0] != says(xs[|xs| - 1])[0]
  {
    var front, last := xs[..|xs| - 1], xs[|xs| - 1];
    assert xs == front + [last];
    FlatOfMany(says, front);
    FlatAppend(says, front, last);
    var rows := Flat(says, xs);
    assert rows[0] == says(xs[0])[0] && rows[|Flat(says, front)|] == says(last)[0];
  }

  lemma ReversedSaysTheSame(says: Pending -> seq<Row>, xs: seq<Pending>)
    requires (forall k :: 0 <= k < |xs| ==> says(xs[k]) != []) && Distinct(Flat(says, xs))
    ensures Flat(says, Reversed(xs)) == Flat(says, xs) <==> |xs| <= 1
  {
    if |xs| > 1 {
      FlatOfMany(says, xs);
      FlatOfMany(says, Reversed(xs));
      FirstsApart(says, xs);
    } else {
      assert Reversed(xs) == xs;
    }
  }

  /**
    Among the segments of one start, rows alike come out as the documentation has it, in the order of the listing, exactly
    where no two of those segments both hold one. The segments that hold any always come out in the reverse of that order.
   */
  lemma AlikeRowsKeepListingOrderExactly(list: seq<Pending>, first: int, from: int, to: int, recv: int, seqNo: nat)
    ensures var (says, listed, out) := (AlikeIn(recv, seqNo, from, to), StartingAt(first, list), StartingAt(first, OpeningOrder(list)));
            && Saying(says, out) == Reversed(Saying(says, listed))
            && (Distinct(Flat(says, listed)) ==> (Flat(says, out) == Flat(says, listed) <==> |Saying(says, listed)| <= 1))
  {
    var says, listed := AlikeIn(recv, seqNo, from, to), StartingAt(first, list);
    EqualStartsOpenLastListedFirst(list, first);
    ReversedAlike(says, listed);
  }

  lemma ReversedAlike(says: Pending -> seq<Row>, listed: seq<Pending>)
    ensures Saying(says, Reversed(listed)) == Reversed(Saying(says, listed))
    ensures Distinct(Flat(says, listed)) ==> (Flat(says, Reversed(listed)) == Flat(says, listed) <==> |Saying(says, listed)| <= 1)
  {
    SayingReversed(says, listed);
    SayingSaysItAll(says, listed);
    SayingSaysItAll(says, Reversed(listed));
    SayingSays(says, listed);
    if Distinct(Flat(says, listed)) { ReversedSaysTheSame(says, Saying(says, listed)); }
  }
}
