/** A merge of sorted segments, as values: what it holds, what is left of it, and the order rows leave it in. */
module Merge {
  import opened Sorting
  import opened Segments

  datatype Stored = Reads(segment: Segment) | Fails

  type Path = seq<string>

  /** A segment a replay lists: where its name says it starts, where it is, and what reading it gives. */
  datatype Pending = Pending(first: int, path: Path, stored: Stored)

  /** By receipt, and by sequence where receipts are equal. */
  predicate KeyLe(a: Row, b: Row) {
    a.recvMicros < b.recvMicros || (a.recvMicros == b.recvMicros && a.streamSeq <= b.streamSeq)
  }

  predicate LatestFirst(a: Pending, b: Pending) {
    a.first >= b.first
  }

  function InWindow(from: int, to: int): Row -> bool {
    (r: Row) => from <= r.recvMicros < to
  }

  /** Those of a segment's rows that lie in the window. */
  function Asked(stored: Stored, from: int, to: int): seq<Row> {
    if stored.Reads? then Keep(RowsOf(stored.segment), InWindow(from, to)) else []
  }

  function AskedOf(from: int, to: int): Pending -> multiset<Row> {
    (p: Pending) => multiset(Asked(p.stored, from, to))
  }

  function RowsLeft(): seq<Row> -> multiset<Row> {
    (rows: seq<Row>) => multiset(rows)
  }

  /** The same rows sorted. */
  function SortedOf(from: int, to: int): Pending -> seq<Row> {
    (p: Pending) => SortBy(KeyLe, Asked(p.stored, from, to))
  }

  /** The function gives each segment's asked rows in receipt order. */
  ghost predicate SortsAsked(sorted: Pending -> seq<Row>, from: int, to: int) {
    forall p: Pending {:trigger SortBy(KeyLe, Asked(p.stored, from, to))} :: sorted(p) == SortBy(KeyLe, Asked(p.stored, from, to))
  }

  function Whole(): seq<Row> -> seq<Row> {
    (rows: seq<Row>) => rows
  }

  /** The order segments are opened in: the listing sorted latest start first, taken from its end. */
  function OpeningOrder(list: seq<Pending>): seq<Pending> {
    Reversed(SortBy(LatestFirst, list))
  }

  /** A replay, row for row: a stable sort of every segment's own rows, the segments in the order they open. */
  function ReplayOrder(list: seq<Pending>, from: int, to: int): seq<Row> {
    SortBy(KeyLe, Flat(SortedOf(from, to), OpeningOrder(list)))
  }

  /** What is left of a replay, held rows before unopened ones. */
  function LeftInOrder(open: seq<seq<Row>>, pending: seq<Pending>, sorted: Pending -> seq<Row>): seq<Row> {
    Flat(Whole(), open) + Flat(sorted, Reversed(pending))
  }

  /** What has been yielded and what is left, sorted, make up the whole replay. */
  predicate InTurn(yielded: seq<Row>, open: seq<seq<Row>>, pending: seq<Pending>, sorted: Pending -> seq<Row>, whole: seq<Row>) {
    yielded + SortBy(KeyLe, LeftInOrder(open, pending, sorted)) == whole
  }

  /** Segments opened one after another from the end of what was pending, each held behind those before it. */
  ghost predicate Filled(open: seq<seq<Row>>, pending: seq<Pending>, after: seq<seq<Row>>, left: seq<Pending>,
                         sorted: Pending -> seq<Row>)
    decreases |pending|
  {
    if |pending| <= |left| then after == open && left == pending
    else Filled(open + [sorted(pending[|pending| - 1])], pending[..|pending| - 1], after, left, sorted)
  }

  /** No row of a listed segment arrives before the receipt its name begins at, and its footer is true. */
  predicate StartsAt(p: Pending) {
    p.stored.Reads? ==> p.stored.segment.Sound() && forall r :: r in RowsOf(p.stored.segment) ==> p.first <= r.recvMicros
  }

  datatype Entry = Entry(recv: int, seqNo: nat, index: nat)

  predicate EntryLe(a: Entry, b: Entry) {
    a.recv < b.recv || (a.recv == b.recv && (a.seqNo < b.seqNo || (a.seqNo == b.seqNo && a.index <= b.index)))
  }

  /** Where each opened segment stands: its first row not yet taken, if any. */
  function Heads(open: seq<seq<Row>>): set<Entry> {
    set i | 0 <= i < |open| && open[i] != [] :: Entry(open[i][0].recvMicros, open[i][0].streamSeq, i)
  }

  predicate AllSorted(open: seq<seq<Row>>) {
    forall i :: 0 <= i < |open| ==> Sorted(KeyLe, open[i])
  }

  predicate AllFrom(open: seq<seq<Row>>, first: int) {
    forall i, k :: 0 <= i < |open| && 0 <= k < |open[i]| ==> first <= open[i][k].recvMicros
  }

  lemma KeyLeIsTotal()
    ensures TotalOrder(KeyLe)
  {
  }

  lemma LatestFirstIsTotal()
    ensures TotalOrder(LatestFirst)
  {
  }

  lemma LeastEntry(heap: set<Entry>) returns (least: Entry)
    requires heap != {}
    ensures least in heap && forall e :: e in heap ==> EntryLe(least, e)
    decreases |heap|
  {
    least :| least in heap;
    var rest := heap - {least};
    if rest != {} {
      var other := LeastEntry(rest);
      assert forall e :: e in heap ==> e == least || e in rest;
      if !EntryLe(least, other) { least := other; }
    }
  }

  lemma {:induction false} KeepIn(rows: seq<Row>, keep: Row -> bool)
    ensures forall r :: r in Keep(rows, keep) <==> r in rows && keep(r)
    decreases |rows|
  {
    if rows != [] {
      KeepIn(rows[1..], keep);
      assert rows == [rows[0]] + rows[1..];
    }
  }

  /** Latest first receipt first; what is no longer pending has been opened. */
  ghost predicate Listed(listed: seq<Pending>, pending: seq<Pending>) {
    && Sorted(LatestFirst, listed) && (forall i {:trigger StartsAt(listed[i])} :: 0 <= i < |listed| ==> StartsAt(listed[i]))
    && |pending| <= |listed| && pending == listed[..|pending|]
  }

  lemma NextStarts(listed: seq<Pending>, pending: seq<Pending>)
    requires Listed(listed, pending) && pending != []
    ensures StartsAt(pending[|pending| - 1]) && pending[|pending| - 1] == listed[|pending| - 1]
  {
    assert StartsAt(listed[|pending| - 1]);
  }

  /** The heap holds each open segment's next row, and the latest opened starts at or before every row held. */
  ghost predicate Merging(listed: seq<Pending>, pending: seq<Pending>, open: seq<seq<Row>>, heap: set<Entry>) {
    && heap == Heads(open) && AllSorted(open)
    && (|pending| < |listed| ==> AllFrom(open, listed[|pending|].first))
  }

  /** A turn taken: one row more, one fewer left, and the rest of the replay still to come. */
  lemma TurnCounted(listed: seq<Pending>, held: seq<seq<Row>>, unopened: seq<Pending>, row: Row, open: seq<seq<Row>>, pending: seq<Pending>,
                    from: int, to: int, sorted: Pending -> seq<Row>, rows: seq<Row>, whole: seq<Row>, before: multiset<Row>, all: multiset<Row>)
    requires Listed(listed, pending) && SortsAsked(sorted, from, to)
    requires LeastIsOut(listed, pending, before, row, Left(open, pending, from, to)) && Accounted(before, rows, all)
    requires Turn(held, unopened, row, open, pending, sorted) && InTurn(rows, held, unopened, sorted, whole)
    ensures Accounted(Left(open, pending, from, to), rows + [row], all) && |Left(open, pending, from, to)| < |before|
    ensures InTurn(rows + [row], open, pending, sorted, whole)
  {
    AccountedMoves(before, Left(open, pending, from, to), rows, row, all);
    if pending != [] { assert listed[|pending| - 1] == pending[|pending| - 1]; }
    TurnTaken(listed, held, unopened, row, open, pending, from, to, sorted, rows, whole);
  }

  lemma InTurnIsPrefix(rows: seq<Row>, open: seq<seq<Row>>, pending: seq<Pending>, sorted: Pending -> seq<Row>, whole: seq<Row>)
    requires InTurn(rows, open, pending, sorted, whole)
    ensures rows <= whole
  {
  }

  lemma AccountedEnds(rows: seq<Row>, remaining: multiset<Row>, all: multiset<Row>)
    requires Accounted(remaining, rows, all) && OrderedBefore(rows, remaining)
    ensures OrderedBefore(rows, all - multiset(rows)) && multiset(rows) <= all
    ensures remaining == multiset{} ==> multiset(rows) == all
  {
  }

  lemma OpenedRowsStart(next: Pending, rows: seq<Row>, from: int, to: int)
    requires StartsAt(next) && next.stored.Reads?
    requires multiset(rows) == multiset(Asked(next.stored, from, to))
    ensures forall r :: r in rows ==> next.first <= r.recvMicros
  {
    KeepIn(RowsOf(next.stored.segment), InWindow(from, to));
    SameElements(rows, Asked(next.stored, from, to));
  }

  /** A row held, and none held before it. */
  ghost predicate LeastOf(row: Row, open: seq<seq<Row>>) {
    && (exists i :: 0 <= i < |open| && row in open[i])
    && forall i, k :: 0 <= i < |open| && 0 <= k < |open[i]| ==> KeyLe(row, open[i][k])
  }

  lemma OpenedTo(listed: seq<Pending>, pending: seq<Pending>, before: seq<seq<Row>>, row: Row)
    requires Listed(listed, pending) && LeastOf(row, before)
    requires |pending| < |listed| ==> AllFrom(before, listed[|pending|].first)
    requires pending == [] || row.recvMicros < pending[|pending| - 1].first
    ensures forall j :: 0 <= j < |listed| ==> (|pending| <= j <==> listed[j].first <= row.recvMicros)
  {
    forall j | 0 <= j < |listed| ensures |pending| <= j <==> listed[j].first <= row.recvMicros {
      if j < |pending| {
        assert j == |pending| - 1 || LatestFirst(listed[j], listed[|pending| - 1]);
      } else {
        assert j == |pending| || LatestFirst(listed[|pending|], listed[j]);
        var i :| 0 <= i < |before| && row in before[i];
        var k :| 0 <= k < |before[i]| && before[i][k] == row;
        assert listed[|pending|].first <= before[i][k].recvMicros;
      }
    }
  }

  lemma UnopenedIsLater(listed: seq<Pending>, pending: seq<Pending>, row: Row, from: int, to: int, r: Row)
    requires Listed(listed, pending) && (pending != [] ==> row.recvMicros < pending[|pending| - 1].first)
    requires r in SumOf(AskedOf(from, to), pending)
    ensures KeyLe(row, r)
  {
    var i := SumComesFrom(AskedOf(from, to), pending, r);
    assert r in Asked(pending[i].stored, from, to);
    KeepIn(RowsOf(pending[i].stored.segment), InWindow(from, to));
    assert StartsAt(listed[i]) && listed[i] == pending[i];
    assert i == |pending| - 1 || LatestFirst(listed[i], listed[|pending| - 1]);
  }

  /** The least head, earlier than every unopened segment, is least of all that remains. */
  lemma LeastRemaining(listed: seq<Pending>, pending: seq<Pending>, before: seq<seq<Row>>, row: Row, from: int, to: int)
    requires Listed(listed, pending)
    requires LeastOf(row, before) && (pending != [] ==> row.recvMicros < pending[|pending| - 1].first)
    ensures forall r :: r in SumOf(RowsLeft(), before) + SumOf(AskedOf(from, to), pending) ==> KeyLe(row, r)
  {
    forall r | r in SumOf(RowsLeft(), before) + SumOf(AskedOf(from, to), pending) ensures KeyLe(row, r) {
      if r in SumOf(RowsLeft(), before) {
        var i := SumComesFrom(RowsLeft(), before, r);
        assert r in before[i];
      } else {
        UnopenedIsLater(listed, pending, row, from, to, r);
      }
    }
  }

  lemma HeadIsLeast(open: seq<seq<Row>>, e: Entry)
    requires AllSorted(open) && e in Heads(open) && forall f :: f in Heads(open) ==> EntryLe(e, f)
    ensures e.index < |open| && open[e.index] != [] && LeastOf(open[e.index][0], open)
    ensures open[e.index][0].recvMicros == e.recv && open[e.index][0].streamSeq == e.seqNo
  {
    var row := open[e.index][0];
    assert row in open[e.index];
    forall i, k | 0 <= i < |open| && 0 <= k < |open[i]| ensures KeyLe(row, open[i][k]) {
      var f := Entry(open[i][0].recvMicros, open[i][0].streamSeq, i);
      assert f in Heads(open) && EntryLe(e, f);
      assert k == 0 || KeyLe(open[i][0], open[i][k]);
    }
  }

  /** No row held in a segment opened earlier is as early as the head of this one. */
  ghost predicate FirstAmong(open: seq<seq<Row>>, i: nat)
    requires i < |open|
  {
    open[i] != [] && forall k, n :: 0 <= k < i && 0 <= n < |open[k]| ==> !KeyLe(open[k][n], open[i][0])
  }

  lemma HeadIsFirst(open: seq<seq<Row>>, e: Entry)
    requires AllSorted(open) && e in Heads(open) && forall f :: f in Heads(open) ==> EntryLe(e, f)
    ensures e.index < |open| && FirstAmong(open, e.index)
  {
    forall k, n | 0 <= k < e.index && 0 <= n < |open[k]| ensures !KeyLe(open[k][n], open[e.index][0]) {
      var f := Entry(open[k][0].recvMicros, open[k][0].streamSeq, k);
      assert f in Heads(open) && EntryLe(e, f);
      assert n == 0 || KeyLe(open[k][0], open[k][n]);
    }
  }

  // ---- in turn, equal rows included --------------------------------------------------

  /** The next segment is unopened no more, and what is left is what was left. */
  ghost predicate Moved(listed: seq<Pending>, pending: seq<Pending>, open: seq<seq<Row>>,
                        front: seq<Pending>, after: seq<seq<Row>>, from: int, to: int)
  {
    && Listed(listed, front) && Merging(listed, front, after, Heads(after))
    && Left(after, front, from, to) == Left(open, pending, from, to)
  }

  lemma RemainingSplits(before: seq<Pending>, next: Pending, from: int, to: int)
    requires before != [] && next == before[|before| - 1]
    ensures SumOf(AskedOf(from, to), before) == SumOf(AskedOf(from, to), before[..|before| - 1]) + AskedOf(from, to)(next)
  {
    assert before == before[..|before| - 1] + [next];
    SumAppend(AskedOf(from, to), before[..|before| - 1], [next]);
    SumOfOne(AskedOf(from, to), next);
  }

  lemma OpeningIsMerging(listed: seq<Pending>, pending: seq<Pending>, open: seq<seq<Row>>, heap: set<Entry>, rows: seq<Row>)
    requires Listed(listed, pending) && Merging(listed, pending, open, heap) && pending != []
    requires forall e :: e in heap ==> pending[|pending| - 1].first <= e.recv
    requires Sorted(KeyLe, rows) && forall r :: r in rows ==> pending[|pending| - 1].first <= r.recvMicros
    ensures var front := pending[..|pending| - 1];
            && Listed(listed, front) && Merging(listed, front, open, heap)
            && Merging(listed, front, open + [rows], Heads(open + [rows]))
  {
    HeadsBoundRows(open, pending[|pending| - 1].first);
    OpenAppend(open, rows, pending[|pending| - 1].first);
  }

  lemma OpeningMovesRows(listed: seq<Pending>, pending: seq<Pending>, open: seq<seq<Row>>, heap: set<Entry>, rows: seq<Row>,
                         from: int, to: int)
    requires Listed(listed, pending) && Merging(listed, pending, open, heap) && pending != []
    requires forall e :: e in heap ==> pending[|pending| - 1].first <= e.recv
    requires multiset(rows) == AskedOf(from, to)(pending[|pending| - 1]) && Sorted(KeyLe, rows)
    requires forall r :: r in rows ==> pending[|pending| - 1].first <= r.recvMicros
    ensures Moved(listed, pending, open, pending[..|pending| - 1], open + [rows], from, to)
  {
    OpeningIsMerging(listed, pending, open, heap, rows);
    RemainingSplits(pending, pending[|pending| - 1], from, to);
    OpenSum(open, rows, SumOf(AskedOf(from, to), pending[..|pending| - 1]), SumOf(AskedOf(from, to), pending));
  }

  lemma FailureMovesNothing(listed: seq<Pending>, pending: seq<Pending>, open: seq<seq<Row>>, heap: set<Entry>, from: int, to: int)
    requires Listed(listed, pending) && Merging(listed, pending, open, heap) && pending != []
    requires forall e :: e in heap ==> pending[|pending| - 1].first <= e.recv
    requires pending[|pending| - 1].stored.Fails?
    ensures Moved(listed, pending, open, pending[..|pending| - 1], open, from, to)
  {
    OpeningIsMerging(listed, pending, open, heap, []);
    RemainingSplits(pending, pending[|pending| - 1], from, to);
  }

  lemma OpeningTakesTheLast(open: seq<seq<Row>>, pending: seq<Pending>, sorted: Pending -> seq<Row>)
    requires pending != []
    ensures var front, next := pending[..|pending| - 1], pending[|pending| - 1];
            LeftInOrder(open + [sorted(next)], front, sorted) == LeftInOrder(open, pending, sorted)
  {
    var front, next := pending[..|pending| - 1], pending[|pending| - 1];
    assert pending == front + [next];
    MovedToHeld(open, front, next, sorted);
  }

  lemma MovedToHeld(open: seq<seq<Row>>, front: seq<Pending>, next: Pending, sorted: Pending -> seq<Row>)
    ensures Flat(Whole(), open + [sorted(next)]) + Flat(sorted, Reversed(front))
         == Flat(Whole(), open) + Flat(sorted, Reversed(front + [next]))
  {
    FlatReversed(sorted, front, next);
    FlatAppend(Whole(), open, sorted(next));
    Regroup3(Flat(Whole(), open), sorted(next), Flat(sorted, Reversed(front)));
  }

  lemma {:induction false} FilledIsLeft(open: seq<seq<Row>>, pending: seq<Pending>, after: seq<seq<Row>>, left: seq<Pending>,
                                        sorted: Pending -> seq<Row>)
    requires Filled(open, pending, after, left, sorted)
    ensures LeftInOrder(after, left, sorted) == LeftInOrder(open, pending, sorted)
    decreases |pending|
  {
    if |pending| > |left| {
      FilledIsLeft(open + [sorted(pending[|pending| - 1])], pending[..|pending| - 1], after, left, sorted);
      OpeningTakesTheLast(open, pending, sorted);
    }
  }

  lemma {:induction false} FilledOneMore(open: seq<seq<Row>>, pending: seq<Pending>, after: seq<seq<Row>>, left: seq<Pending>,
                                        sorted: Pending -> seq<Row>)
    requires Filled(open, pending, after, left, sorted) && left != []
    ensures Filled(open, pending, after + [sorted(left[|left| - 1])], left[..|left| - 1], sorted)
    decreases |pending|
  {
    if |pending| > |left| {
      FilledOneMore(open + [sorted(pending[|pending| - 1])], pending[..|pending| - 1], after, left, sorted);
    }
  }

  lemma HeldSplits(open: seq<seq<Row>>, i: nat)
    requires i < |open|
    ensures Flat(Whole(), open) == Flat(Whole(), open[..i]) + open[i] + Flat(Whole(), open[i + 1..])
  {
    assert open == (open[..i] + [open[i]]) + open[i + 1..];
    FlatConcat(Whole(), open[..i] + [open[i]], open[i + 1..]);
    FlatAppend(Whole(), open[..i], open[i]);
  }

  lemma PoppedSplits(before: seq<seq<Row>>, i: nat, row: Row, after: seq<seq<Row>>)
    requires i < |before| && Popped(before, i, row, after)
    ensures Flat(Whole(), before) == Flat(Whole(), before[..i]) + ([row] + before[i][1..]) + Flat(Whole(), before[i + 1..])
    ensures Flat(Whole(), after) == Flat(Whole(), before[..i]) + before[i][1..] + Flat(Whole(), before[i + 1..])
  {
    HeldSplits(before, i);
    HeldSplits(after, i);
    assert after[..i] == before[..i] && after[i + 1..] == before[i + 1..];
    assert before[i] == [row] + before[i][1..];
  }

  lemma HeadComesOut(first: seq<Row>, row: Row, mine: seq<Row>, others: seq<Row>, unopened: seq<Row>)
    ensures (first + ([row] + mine) + others) + unopened == first + [row] + (mine + others + unopened)
    ensures (first + mine + others) + unopened == first + (mine + others + unopened)
  {
  }

  lemma PoppedLeft(before: seq<seq<Row>>, i: nat, row: Row, after: seq<seq<Row>>, unopened: seq<Row>)
    requires i < |before| && Popped(before, i, row, after)
    ensures var (first, rest) := (Flat(Whole(), before[..i]), before[i][1..] + Flat(Whole(), before[i + 1..]) + unopened);
            && Flat(Whole(), before) + unopened == first + [row] + rest
            && Flat(Whole(), after) + unopened == first + rest
  {
    PoppedSplits(before, i, row, after);
    HeadComesOut(Flat(Whole(), before[..i]), row, before[i][1..], Flat(Whole(), before[i + 1..]), unopened);
  }

  lemma EarlierHeldAreLater(open: seq<seq<Row>>, i: nat)
    requires i < |open| && FirstAmong(open, i)
    ensures forall k :: 0 <= k < |Flat(Whole(), open[..i])| ==> !KeyLe(Flat(Whole(), open[..i])[k], open[i][0])
  {
    var rows := Flat(Whole(), open[..i]);
    forall k | 0 <= k < |rows| ensures !KeyLe(rows[k], open[i][0]) {
      FlatComesFrom(Whole(), open[..i], rows[k]);
      var batch :| batch in open[..i] && rows[k] in batch;
      var b :| 0 <= b < i && open[b] == batch;
      var n :| 0 <= n < |batch| && batch[n] == rows[k];
      assert open[b][n] == rows[k];
    }
  }

  lemma UnopenedComesLater(listed: seq<Pending>, pending: seq<Pending>, row: Row, from: int, to: int, sorted: Pending -> seq<Row>,
                           i: nat, r: Row)
    requires Listed(listed, pending) && (pending != [] ==> row.recvMicros < pending[|pending| - 1].first)
    requires SortsAsked(sorted, from, to) && i < |pending| && r in sorted(pending[i])
    ensures KeyLe(row, r)
  {
    SortKeeps(KeyLe, Asked(pending[i].stored, from, to));
    assert r in AskedOf(from, to)(pending[i]);
    SumHolds(AskedOf(from, to), pending, i, r);
    UnopenedIsLater(listed, pending, row, from, to, r);
  }

  lemma UnopenedComeLater(listed: seq<Pending>, pending: seq<Pending>, row: Row, from: int, to: int, sorted: Pending -> seq<Row>)
    requires Listed(listed, pending) && (pending != [] ==> row.recvMicros < pending[|pending| - 1].first)
    requires SortsAsked(sorted, from, to)
    ensures forall r :: r in Flat(sorted, Reversed(pending)) ==> KeyLe(row, r)
  {
    forall r | r in Flat(sorted, Reversed(pending)) ensures KeyLe(row, r) {
      var i := FoundReversed(sorted, pending, r);
      UnopenedComesLater(listed, pending, row, from, to, sorted, i, r);
    }
  }

  lemma FoundReversed(sorted: Pending -> seq<Row>, pending: seq<Pending>, r: Row) returns (i: nat)
    requires r in Flat(sorted, Reversed(pending))
    ensures i < |pending| && r in sorted(pending[i])
  {
    FlatComesFrom(sorted, Reversed(pending), r);
    var p :| p in Reversed(pending) && r in sorted(p);
    var k :| 0 <= k < |pending| && Reversed(pending)[k] == p;
    i := |pending| - 1 - k;
  }

  lemma RestComeLater(open: seq<seq<Row>>, i: nat, row: Row, unopened: seq<Row>)
    requires i < |open| && LeastOf(row, open) && open[i] != [] && forall r :: r in unopened ==> KeyLe(row, r)
    ensures forall r :: r in open[i][1..] + Flat(Whole(), open[i + 1..]) + unopened ==> KeyLe(row, r)
  {
    forall r | r in Flat(Whole(), open[i + 1..]) ensures KeyLe(row, r) {
      FlatComesFrom(Whole(), open[i + 1..], r);
      var batch :| batch in open[i + 1..] && r in batch;
      var b :| i < b < |open| && open[b] == batch;
      var n :| 0 <= n < |batch| && batch[n] == r;
      assert KeyLe(row, open[b][n]);
    }
    forall r | r in open[i][1..] ensures KeyLe(row, r) {
      var n :| 0 <= n < |open[i]| - 1 && open[i][1..][n] == r;
      assert KeyLe(row, open[i][n + 1]);
    }
  }

  lemma BeginsInTurn(list: seq<Pending>, from: int, to: int)
    ensures InTurn([], [], SortBy(LatestFirst, list), SortedOf(from, to), ReplayOrder(list, from, to))
  {
    var unopened := Flat(SortedOf(from, to), OpeningOrder(list));
    assert Flat(Whole(), []) + unopened == unopened;
  }

  lemma AllOfSame<T>(holds: T -> bool, xs: seq<T>, ys: seq<T>)
    requires (forall i :: 0 <= i < |xs| ==> holds(xs[i])) && forall y :: y in ys ==> y in xs
    ensures forall i :: 0 <= i < |ys| ==> holds(ys[i])
  {
    forall i | 0 <= i < |ys| ensures holds(ys[i]) { assert ys[i] in xs; }
  }

  lemma BeginsListed(list: seq<Pending>, sorted: seq<Pending>)
    requires Sorted(LatestFirst, sorted) && forall p :: p in sorted ==> p in list
    requires forall i {:trigger StartsAt(list[i])} :: 0 <= i < |list| ==> StartsAt(list[i])
    ensures Listed(sorted, sorted)
  {
    AllOfSame(StartsAt, list, sorted);
  }

  lemma LatestFirstSorts(list: seq<Pending>)
    ensures Sorted(LatestFirst, SortBy(LatestFirst, list)) && multiset(SortBy(LatestFirst, list)) == multiset(list)
    ensures forall p :: p in SortBy(LatestFirst, list) ==> p in list
  {
    LatestFirstIsTotal();
    SortBySorts(LatestFirst, list);
    SortKeeps(LatestFirst, list);
  }

  lemma BeginsMerging(sorted: seq<Pending>, from: int, to: int)
    ensures Merging(sorted, sorted, [], {}) && OrderedBefore([], Left([], sorted, from, to))
    ensures Left([], sorted, from, to) == SumOf(AskedOf(from, to), sorted)
  {
  }

  lemma SortedAsked(from: int, to: int)
    ensures SortsAsked(SortedOf(from, to), from, to)
  {
  }

  /** The least row held is taken, from the first opened of the segments whose next rows are equally least. */
  ghost predicate HeadTaken(held: seq<seq<Row>>, row: Row, after: seq<seq<Row>>) {
    exists i: nat :: i < |held| && Popped(held, i, row, after) && FirstAmong(held, i) && LeastOf(row, held)
  }

  /** Segments are opened until the least row held precedes every unopened one, and then that row is taken. */
  ghost predicate Turn(open: seq<seq<Row>>, pending: seq<Pending>, row: Row, after: seq<seq<Row>>, left: seq<Pending>,
                       sorted: Pending -> seq<Row>)
  {
    exists held: seq<seq<Row>> :: HeadTaken(held, row, after) && Filled(open, pending, held, left, sorted)
  }

  lemma TurnIs(open: seq<seq<Row>>, pending: seq<Pending>, held: seq<seq<Row>>, row: Row, after: seq<seq<Row>>, left: seq<Pending>,
               sorted: Pending -> seq<Row>)
    requires HeadTaken(held, row, after) && Filled(open, pending, held, left, sorted)
    ensures Turn(open, pending, row, after, left, sorted)
  {
  }

  /** A turn yields the next row of the whole replay. */
  lemma TurnTaken(listed: seq<Pending>, open: seq<seq<Row>>, pending: seq<Pending>, row: Row, after: seq<seq<Row>>,
                  left: seq<Pending>, from: int, to: int, sorted: Pending -> seq<Row>, yielded: seq<Row>, whole: seq<Row>)
    requires Listed(listed, left) && (left != [] ==> row.recvMicros < left[|left| - 1].first) && SortsAsked(sorted, from, to)
    requires Turn(open, pending, row, after, left, sorted) && InTurn(yielded, open, pending, sorted, whole)
    ensures InTurn(yielded + [row], after, left, sorted, whole)
  {
    var held :| HeadTaken(held, row, after) && Filled(open, pending, held, left, sorted);
    var i: nat :| i < |held| && Popped(held, i, row, after) && FirstAmong(held, i) && LeastOf(row, held);
    FilledIsLeft(open, pending, held, left, sorted);
    UnopenedComeLater(listed, left, row, from, to, sorted);
    HeadIsNext(held, i, row, after, Flat(sorted, Reversed(left)), yielded, whole);
  }

  /** The end is reached with the whole replay yielded. */
  lemma TurnsEnd(open: seq<seq<Row>>, pending: seq<Pending>, after: seq<seq<Row>>, left: seq<Pending>,
                 from: int, to: int, sorted: Pending -> seq<Row>, yielded: seq<Row>, whole: seq<Row>)
    requires Filled(open, pending, after, left, sorted) && InTurn(yielded, open, pending, sorted, whole)
    requires left == [] && Left(after, left, from, to) == multiset{}
    ensures yielded == whole
  {
    FilledIsLeft(open, pending, after, left, sorted);
    NothingLeft(after, left, from, to, sorted);
  }

  lemma HeadIsNext(held: seq<seq<Row>>, i: nat, row: Row, after: seq<seq<Row>>, unopened: seq<Row>, yielded: seq<Row>, whole: seq<Row>)
    requires i < |held| && Popped(held, i, row, after) && FirstAmong(held, i) && LeastOf(row, held)
    requires forall r :: r in unopened ==> KeyLe(row, r)
    requires yielded + SortBy(KeyLe, Flat(Whole(), held) + unopened) == whole
    ensures (yielded + [row]) + SortBy(KeyLe, Flat(Whole(), after) + unopened) == whole
  {
    PoppedLeft(held, i, row, after, unopened);
    EarlierHeldAreLater(held, i);
    RestComeLater(held, i, row, unopened);
    LeftmostIsNext(yielded, Flat(Whole(), held[..i]), row, held[i][1..] + Flat(Whole(), held[i + 1..]) + unopened, whole);
  }

  lemma LeftmostIsNext(yielded: seq<Row>, first: seq<Row>, row: Row, rest: seq<Row>, whole: seq<Row>)
    requires yielded + SortBy(KeyLe, first + [row] + rest) == whole
    requires (forall k :: 0 <= k < |first| ==> !KeyLe(first[k], row)) && forall r :: r in rest ==> KeyLe(row, r)
    ensures (yielded + [row]) + SortBy(KeyLe, first + rest) == whole
  {
    forall k | 0 <= k < |rest| ensures KeyLe(row, rest[k]) { assert rest[k] in rest; }
    SortTakesLeftmost(KeyLe, first, row, rest);
    Regroup3(yielded, [row], SortBy(KeyLe, first + rest));
  }

  lemma {:induction false} SumHolds<T>(f: T -> multiset<Row>, xs: seq<T>, i: nat, r: Row)
    requires i < |xs| && r in f(xs[i])
    ensures r in SumOf(f, xs)
    decreases i
  {
    if i > 0 { SumHolds(f, xs[1..], i - 1, r); }
  }

  lemma {:induction false} NothingHeldIsLeft(open: seq<seq<Row>>)
    requires SumOf(RowsLeft(), open) == multiset{}
    ensures Flat(Whole(), open) == []
  {
    FlatBag(Whole(), open);
    SumOfAlike(open);
    assert |multiset(Flat(Whole(), open))| == |Flat(Whole(), open)|;
  }

  lemma {:induction false} SumOfAlike(open: seq<seq<Row>>)
    ensures SumOf(BagOf(Whole()), open) == SumOf(RowsLeft(), open)
    decreases |open|
  {
    if open != [] { SumOfAlike(open[1..]); }
  }

  lemma NothingLeft(open: seq<seq<Row>>, pending: seq<Pending>, from: int, to: int, sorted: Pending -> seq<Row>)
    requires pending == [] && Left(open, pending, from, to) == multiset{}
    ensures LeftInOrder(open, pending, sorted) == []
  {
    NothingHeldIsLeft(open);
  }

  lemma HeadsPop(open: seq<seq<Row>>, i: nat)
    requires i < |open| && open[i] != []
    ensures Heads(open[i := open[i][1..]])
         == Heads(open) - {Entry(open[i][0].recvMicros, open[i][0].streamSeq, i)}
          + if |open[i]| > 1 then {Entry(open[i][1].recvMicros, open[i][1].streamSeq, i)} else {}
  {
    var popped := open[i := open[i][1..]];
    forall k | 0 <= k < |open| && k != i ensures popped[k] == open[k] {}
    assert popped[i] == open[i][1..];
  }

  ghost predicate OrderedBefore(yielded: seq<Row>, remaining: multiset<Row>) {
    && Sorted(KeyLe, yielded)
    && forall y, r :: y in yielded && r in remaining ==> KeyLe(y, r)
  }

  lemma LeastExtendsOrder(yielded: seq<Row>, row: Row, before: multiset<Row>, after: multiset<Row>)
    requires OrderedBefore(yielded, before) && before == after + multiset{row}
    requires forall r :: r in before ==> KeyLe(row, r)
    ensures OrderedBefore(yielded + [row], after)
  {
    assert row in before;
    forall y | y in yielded ensures KeyLe(y, row) {}
  }

  /** One batch has given up its first row. */
  ghost predicate Popped(before: seq<seq<Row>>, i: nat, row: Row, after: seq<seq<Row>>)
    requires i < |before|
  {
    before[i] != [] && row == before[i][0] && after == before[i := before[i][1..]]
  }

  ghost predicate LeastIn(row: Row, heap: set<Entry>) {
    forall e :: e in heap ==> row.recvMicros <= e.recv
  }

  ghost predicate EarlierHeld(heap: set<Entry>, first: int) {
    exists e :: e in heap && e.recv < first
  }

  lemma LeastIsEarlier(row: Row, heap: set<Entry>, first: int)
    requires LeastIn(row, heap) && EarlierHeld(heap, first)
    ensures row.recvMicros < first
  {
  }

  /** What remains and what was taken make up the whole. */
  ghost predicate Accounted(remaining: multiset<Row>, rows: seq<Row>, all: multiset<Row>) {
    remaining + multiset(rows) == all && remaining == all - multiset(rows)
  }

  lemma AccountedMoves(before: multiset<Row>, after: multiset<Row>, rows: seq<Row>, row: Row, all: multiset<Row>)
    requires Accounted(before, rows, all) && before == after + multiset{row}
    ensures Accounted(after, rows + [row], all) && |after| < |before|
  {
    assert multiset(rows + [row]) == multiset(rows) + multiset{row};
    assert after + (multiset(rows) + multiset{row}) == (after + multiset{row}) + multiset(rows);
    assert |before| == |after| + 1;
  }

  lemma Cancel(a: multiset<Row>, b: multiset<Row>, c: multiset<Row>)
    requires a + c == b + c
    ensures a == b
  {
    assert a == (a + c) - c && b == (b + c) - c;
  }

  lemma PopSum(before: seq<seq<Row>>, i: nat, row: Row, after: seq<seq<Row>>, unopened: multiset<Row>)
    requires i < |before| && Popped(before, i, row, after)
    ensures SumOf(RowsLeft(), before) + unopened == (SumOf(RowsLeft(), after) + unopened) + multiset{row}
  {
    var f, rest := RowsLeft(), before[i][1..];
    SumUpdated(f, before, i, rest);
    assert before[i] == [row] + rest;
    assert f(before[i]) == multiset{row} + f(rest);
    var a := SumOf(f, after);
    assert a + (multiset{row} + f(rest)) == (a + multiset{row}) + f(rest);
    Cancel(SumOf(f, before), a + multiset{row}, f(rest));
    assert (a + multiset{row}) + unopened == (a + unopened) + multiset{row};
  }

  lemma PopKeeps(listed: seq<Pending>, pending: seq<Pending>, before: seq<seq<Row>>, i: nat, row: Row, after: seq<seq<Row>>)
    requires i < |before| && Popped(before, i, row, after) && Merging(listed, pending, before, Heads(before))
    ensures Merging(listed, pending, after, Heads(after))
  {
    forall k | 0 <= k < |after| ensures Sorted(KeyLe, after[k]) {
      assert Sorted(KeyLe, before[k]);
    }
    forall k, n | 0 <= k < |after| && 0 <= n < |after[k]|
      ensures after[k][n] == before[k][if k == i then n + 1 else n]
    {
    }
  }

  ghost function Left(open: seq<seq<Row>>, pending: seq<Pending>, from: int, to: int): multiset<Row> {
    SumOf(RowsLeft(), open) + SumOf(AskedOf(from, to), pending)
  }

  /** The row is the least of all that remained, and the opened segments are precisely those starting at or before it. */
  ghost predicate LeastIsOut(listed: seq<Pending>, pending: seq<Pending>, before: multiset<Row>, row: Row, after: multiset<Row>) {
    && before == after + multiset{row} && (forall r :: r in before ==> KeyLe(row, r))
    && forall j :: 0 <= j < |listed| ==> (|pending| <= j <==> listed[j].first <= row.recvMicros)
  }

  ghost predicate TookLeast(listed: seq<Pending>, pending: seq<Pending>, before: seq<seq<Row>>, row: Row, after: seq<seq<Row>>,
                            from: int, to: int, yielded: seq<Row>)
  {
    && Merging(listed, pending, after, Heads(after))
    && LeastIsOut(listed, pending, Left(before, pending, from, to), row, Left(after, pending, from, to))
    && OrderedBefore(yielded + [row], Left(after, pending, from, to))
  }

  /** Taking the least head keeps the merge, and takes the least of all that remains. */
  lemma TakenInOrder(listed: seq<Pending>, pending: seq<Pending>, before: seq<seq<Row>>, row: Row, after: seq<seq<Row>>,
                     from: int, to: int, yielded: seq<Row>)
    requires Listed(listed, pending) && Merging(listed, pending, before, Heads(before))
    requires pending != [] ==> row.recvMicros < pending[|pending| - 1].first
    requires HeadTaken(before, row, after)
    requires OrderedBefore(yielded, Left(before, pending, from, to))
    ensures TookLeast(listed, pending, before, row, after, from, to, yielded)
  {
    var i: nat :| i < |before| && Popped(before, i, row, after) && FirstAmong(before, i) && LeastOf(row, before);
    LeastRemaining(listed, pending, before, row, from, to);
    OpenedTo(listed, pending, before, row);
    PopKeeps(listed, pending, before, i, row, after);
    PopSum(before, i, row, after, SumOf(AskedOf(from, to), pending));
    LeastExtendsOrder(yielded, row, Left(before, pending, from, to), Left(after, pending, from, to));
  }

  lemma {:induction false} NoRowsHeld(open: seq<seq<Row>>)
    requires forall i :: 0 <= i < |open| ==> open[i] == []
    ensures SumOf(RowsLeft(), open) == multiset{}
    decreases |open|
  {
    if open != [] { NoRowsHeld(open[1..]); }
  }

  lemma HeadOf(open: seq<seq<Row>>, i: nat)
    requires i < |open|
    ensures open[i] != [] ==> Entry(open[i][0].recvMicros, open[i][0].streamSeq, i) in Heads(open)
  {
  }

  lemma NothingHeld(open: seq<seq<Row>>)
    requires Heads(open) == {}
    ensures SumOf(RowsLeft(), open) == multiset{}
  {
    forall i | 0 <= i < |open| ensures open[i] == [] {
      HeadOf(open, i);
    }
    NoRowsHeld(open);
  }

  lemma SumOfOne<T>(f: T -> multiset<Row>, x: T)
    ensures SumOf(f, [x]) == f(x)
  {
    assert [x][1..] == [] && SumOf(f, [x]) == f(x) + SumOf(f, []);
  }

  lemma HeadsBoundRows(open: seq<seq<Row>>, first: int)
    requires AllSorted(open) && forall e :: e in Heads(open) ==> first <= e.recv
    ensures AllFrom(open, first)
  {
    forall i, k | 0 <= i < |open| && 0 <= k < |open[i]| ensures first <= open[i][k].recvMicros {
      assert Entry(open[i][0].recvMicros, open[i][0].streamSeq, i) in Heads(open);
      assert k == 0 || KeyLe(open[i][0], open[i][k]);
    }
  }

  /** A sorted batch opened beside the others keeps them sorted. */
  lemma OpenAppend(open: seq<seq<Row>>, rows: seq<Row>, first: int)
    requires AllSorted(open) && AllFrom(open, first) && Sorted(KeyLe, rows) && forall r :: r in rows ==> first <= r.recvMicros
    ensures AllSorted(open + [rows]) && AllFrom(open + [rows], first)
  {
  }

  lemma OpenSum(open: seq<seq<Row>>, rows: seq<Row>, unopened: multiset<Row>, before: multiset<Row>)
    requires before == unopened + multiset(rows)
    ensures SumOf(RowsLeft(), open + [rows]) + unopened == SumOf(RowsLeft(), open) + before
  {
    var f, a := RowsLeft(), SumOf(RowsLeft(), open);
    SumAppend(f, open, [rows]);
    SumOfOne(f, rows);
    assert f(rows) == multiset(rows);
    assert (a + multiset(rows)) + unopened == a + (unopened + multiset(rows));
  }

  lemma HeadsAppend(open: seq<seq<Row>>, rows: seq<Row>)
    ensures Heads(open + [rows]) == Heads(open) + if rows == [] then {} else {Entry(rows[0].recvMicros, rows[0].streamSeq, |open|)}
  {
    var all := open + [rows];
    forall i | 0 <= i < |open| ensures all[i] == open[i] {}
    assert all[|open|] == rows;
  }

  lemma {:induction false} SumComesFrom<T>(f: T -> multiset<Row>, xs: seq<T>, r: Row) returns (i: nat)
    requires r in SumOf(f, xs)
    ensures i < |xs| && r in f(xs[i])
    decreases |xs|
  {
    if r in f(xs[0]) {
      i := 0;
    } else {
      var k := SumComesFrom(f, xs[1..], r);
      i := k + 1;
    }
  }

  lemma Regroup(a: multiset<Row>, t: multiset<Row>, u: multiset<Row>, s: multiset<Row>, v: multiset<Row>)
    requires t + u == s + v
    ensures (a + t) + u == (a + s) + v
  {
    assert (a + t) + u == a + (t + u);
  }

  lemma {:induction false} SumUpdated<T>(f: T -> multiset<Row>, xs: seq<T>, i: nat, x: T)
    requires i < |xs|
    ensures SumOf(f, xs[i := x]) + f(xs[i]) == SumOf(f, xs) + f(x)
    decreases i
  {
    if i == 0 {
      assert xs[0 := x][1..] == xs[1..];
    } else {
      SumUpdated(f, xs[1..], i - 1, x);
      var ys := xs[i := x];
      assert ys[1..] == xs[1..][i - 1 := x] && ys[0] == xs[0] && xs[1..][i - 1] == xs[i];
      Regroup(f(xs[0]), SumOf(f, ys[1..]), f(xs[i]), SumOf(f, xs[1..]), f(x));
    }
  }
}
