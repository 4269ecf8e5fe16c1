/** A segment's rows and footer, what writing one states, and what pruning a read may leave out. */
module Segments {
  import opened Text

  datatype Cell = Null | Int64(n: int) | Bytes(b: string)

  /** One row: its receipt, its place in its stream, and every other column by name. */
  datatype Row = Row(recvMicros: int, streamSeq: nat, cells: map<string, Cell>)

  const PRUNE_COLUMN := "recv_micros"
  const MAX_ROW_GROUP_ROWS: nat := 16_384

  function CellOf(row: Row, column: string): Cell {
    if column == PRUNE_COLUMN then Int64(row.recvMicros)
    else if column in row.cells then row.cells[column]
    else Null
  }

  /** What a footer says of one column of one row group. Any part may be absent. */
  datatype Statistics =
    | Numbers(min: Option<int>, max: Option<int>, nulls: Option<nat>)
    | Texts(least: Option<string>, greatest: Option<string>)
    | Unstated

  datatype RowGroup = RowGroup(rows: seq<Row>, footer: map<string, Statistics>) {
    function Stated(column: string): Statistics {
      if column in footer then footer[column] else Unstated
    }

    /** What the footer states is true of the rows. */
    predicate Sound() {
      forall column, i :: column in footer && 0 <= i < |rows| ==> Bounds(footer[column], CellOf(rows[i], column))
    }
  }

  predicate Bounds(s: Statistics, cell: Cell) {
    match s
    case Numbers(min, max, nulls) =>
      && (cell.Int64? ==> (min.Some? ==> min.value <= cell.n) && (max.Some? ==> cell.n <= max.value))
      && (nulls == Some(0) ==> cell != Null)
    case Texts(least, greatest) =>
      cell.Bytes? ==>
        && (least.Some? ==> !Before(cell.b, least.value))
        && (greatest.Some? ==> !Before(greatest.value, cell.b))
    case Unstated => true
  }

  datatype Segment = Segment(columns: set<string>, groups: seq<RowGroup>) {
    predicate Sound() {
      forall i :: 0 <= i < |groups| ==> groups[i].Sound()
    }
  }

  function RowsIn(groups: seq<RowGroup>, select: RowGroup -> bool): seq<Row> {
    if groups == [] then []
    else (if select(groups[0]) then groups[0].rows else []) + RowsIn(groups[1..], select)
  }

  function RowsOf(segment: Segment): seq<Row> {
    RowsIn(segment.groups, g => true)
  }

  function Keep(rows: seq<Row>, keep: Row -> bool): seq<Row> {
    if rows == [] then [] else (if keep(rows[0]) then [rows[0]] else []) + Keep(rows[1..], keep)
  }

  // ---- reading a receipt range ------------------------------------------------

  /** A row group is ruled out for `[from, to)` by its statistics, which must give both bounds. */
  predicate Intersects(group: RowGroup, from: int, to: int) {
    match group.Stated(PRUNE_COLUMN)
    case Numbers(Some(lo), Some(hi), _) => hi >= from && lo < to
    case _ => true
  }

  function ReadRange(segment: Segment, from: int, to: int): seq<Row> {
    if PRUNE_COLUMN in segment.columns then RowsIn(segment.groups, g => Intersects(g, from, to))
    else RowsOf(segment)
  }

  // ---- reading what every test can hold -----------------------------------------

  datatype Prune =
    | Int64Range(column: string, from: int, to: int, keepNulls: bool)
    | Equals(column: string, value: string)

  predicate CellPasses(prune: Prune, cell: Cell) {
    match prune
    case Int64Range(_, from, to, keepNulls) =>
      (match cell
       case Int64(n) => from <= n < to
       case Null => keepNulls
       case Bytes(_) => false)
    case Equals(_, value) => cell == Bytes(value)
  }

  predicate Passes(row: Row, prune: Prune) {
    CellPasses(prune, CellOf(row, prune.column))
  }

  /** A test is of the row's own value: its receipt, a cell, or the absence of one. */
  lemma TestsReadTheColumn(row: Row, prune: Prune)
    ensures prune.column == "recv_micros" && prune.Int64Range? ==> (Passes(row, prune) <==> prune.from <= row.recvMicros < prune.to)
    ensures prune.column != "recv_micros" && prune.column in row.cells ==>
              (Passes(row, prune) <==> CellPasses(prune, row.cells[prune.column]))
    ensures prune.column != "recv_micros" && prune.column !in row.cells ==> (Passes(row, prune) <==> prune.Int64Range? && prune.keepNulls)
  {
  }

  predicate MayHold(group: RowGroup, prune: Prune) {
    match (prune, group.Stated(prune.column))
    case (Int64Range(_, from, to, keepNulls), Numbers(min, max, nulls)) =>
      || (keepNulls && nulls != Some(0))
      || min.None? || max.None?
      || (max.value >= from && min.value < to)
    case (Equals(_, value), Texts(least, greatest)) =>
      || least.None? || greatest.None?
      || (!Before(value, least.value) && !Before(greatest.value, value))
    case _ => true
  }

  predicate AllMayHold(segment: Segment, prunes: seq<Prune>, group: RowGroup) {
    forall i :: 0 <= i < |prunes| && prunes[i].column in segment.columns ==> MayHold(group, prunes[i])
  }

  function ReadWhere(segment: Segment, prunes: seq<Prune>): seq<Row> {
    RowsIn(segment.groups, g => AllMayHold(segment, prunes, g))
  }

  predicate PassesAll(row: Row, prunes: seq<Prune>) {
    forall i :: 0 <= i < |prunes| ==> Passes(row, prunes[i])
  }

  // ---- pruning never changes an answer ---------------------------------------------

  lemma {:induction false} KeepAppend(xs: seq<Row>, ys: seq<Row>, keep: Row -> bool)
    ensures Keep(xs + ys, keep) == Keep(xs, keep) + Keep(ys, keep)
    decreases |xs|
  {
    if xs == [] {
      assert xs + ys == ys;
    } else {
      assert (xs + ys)[1..] == xs[1..] + ys && (xs + ys)[0] == xs[0];
      KeepAppend(xs[1..], ys, keep);
      var kept := if keep(xs[0]) then [xs[0]] else [];
      assert kept + (Keep(xs[1..], keep) + Keep(ys, keep)) == (kept + Keep(xs[1..], keep)) + Keep(ys, keep);
    }
  }

  lemma {:induction false} KeepNone(xs: seq<Row>, keep: Row -> bool)
    requires forall r :: r in xs ==> !keep(r)
    ensures Keep(xs, keep) == []
    decreases |xs|
  {
    if xs != [] {
      assert xs[0] in xs;
      KeepNone(xs[1..], keep);
    }
  }

  lemma {:induction false} KeepCounts(xs: seq<Row>, keep: Row -> bool, r: Row)
    ensures multiset(Keep(xs, keep))[r] == if keep(r) then multiset(xs)[r] else 0
    decreases |xs|
  {
    if xs != [] {
      KeepCounts(xs[1..], keep, r);
      assert xs == [xs[0]] + xs[1..];
    }
  }

  lemma {:induction false} SelectionKeeps(groups: seq<RowGroup>, select: RowGroup -> bool, keep: Row -> bool)
    requires forall g, r :: g in groups && r in g.rows && keep(r) ==> select(g)
    ensures Keep(RowsIn(groups, select), keep) == Keep(RowsIn(groups, g => true), keep)
    decreases |groups|
  {
    if groups != [] {
      var all := g => true;
      var first := if select(groups[0]) then groups[0].rows else [];
      assert groups[0] in groups;
      SelectionKeeps(groups[1..], select, keep);
      KeepAppend(first, RowsIn(groups[1..], select), keep);
      KeepAppend(groups[0].rows, RowsIn(groups[1..], all), keep);
      if !select(groups[0]) { KeepNone(groups[0].rows, keep); }
    }
  }

  lemma SoundRow(g: RowGroup, r: Row, column: string)
    requires g.Sound() && r in g.rows
    ensures Bounds(g.Stated(column), CellOf(r, column))
  {
    var i :| 0 <= i < |g.rows| && g.rows[i] == r;
    if column in g.footer { assert Bounds(g.footer[column], CellOf(g.rows[i], column)); }
  }

  /** Filtering after a range read and after a whole read gives one sequence of rows. */
  lemma RangeReadLosesNothing(segment: Segment, from: int, to: int, keep: Row -> bool)
    requires segment.Sound()
    requires forall r :: keep(r) ==> from <= r.recvMicros < to
    ensures Keep(ReadRange(segment, from, to), keep) == Keep(RowsOf(segment), keep)
  {
    forall g, r | g in segment.groups && r in g.rows && keep(r) ensures Intersects(g, from, to) {
      var i :| 0 <= i < |segment.groups| && segment.groups[i] == g;
      SoundRow(g, r, PRUNE_COLUMN);
    }
    SelectionKeeps(segment.groups, g => Intersects(g, from, to), keep);
  }

  /** So does a read by tests, rows kept because they hold no value included. */
  lemma TestedReadLosesNothing(segment: Segment, prunes: seq<Prune>)
    requires segment.Sound()
    ensures Keep(ReadWhere(segment, prunes), r => PassesAll(r, prunes)) == Keep(RowsOf(segment), r => PassesAll(r, prunes))
  {
    forall g, r | g in segment.groups && r in g.rows && PassesAll(r, prunes)
      ensures AllMayHold(segment, prunes, g)
    {
      var k :| 0 <= k < |segment.groups| && segment.groups[k] == g;
      forall i | 0 <= i < |prunes| && prunes[i].column in segment.columns ensures MayHold(g, prunes[i]) {
        SoundRow(g, r, prunes[i].column);
        assert Passes(r, prunes[i]);
      }
    }
    SelectionKeeps(segment.groups, g => AllMayHold(segment, prunes, g), r => PassesAll(r, prunes));
  }

  lemma {:induction false} SelectionIsPart(groups: seq<RowGroup>, select: RowGroup -> bool)
    ensures multiset(RowsIn(groups, select)) <= multiset(RowsIn(groups, g => true))
    decreases |groups|
  {
    if groups != [] { SelectionIsPart(groups[1..], select); }
  }

  // ---- writing ------------------------------------------------------------------------

  function Least(rows: seq<Row>): int
    requires rows != []
  {
    if |rows| == 1 then rows[0].recvMicros
    else var rest := Least(rows[1..]); if rows[0].recvMicros < rest then rows[0].recvMicros else rest
  }

  function Greatest(rows: seq<Row>): int
    requires rows != []
  {
    if |rows| == 1 then rows[0].recvMicros
    else var rest := Greatest(rows[1..]); if rows[0].recvMicros > rest then rows[0].recvMicros else rest
  }

  /** Row groups of at most the declared size, each stating the bounds of the one column reads prune on. */
  function Grouped(rows: seq<Row>): (groups: seq<RowGroup>)
    ensures |groups| == 0 <==> rows == []
  {
    if rows == [] then []
    else
      var n := if |rows| < MAX_ROW_GROUP_ROWS then |rows| else MAX_ROW_GROUP_ROWS;
      var stated := Numbers(Some(Least(rows[..n])), Some(Greatest(rows[..n])), Some(0));
      [RowGroup(rows[..n], map[PRUNE_COLUMN := stated])] + Grouped(rows[n..])
  }

  function Written(rows: seq<Row>): Segment {
    Segment({PRUNE_COLUMN}, Grouped(rows))
  }

  lemma {:induction false} BoundsHold(rows: seq<Row>)
    requires rows != []
    ensures forall i :: 0 <= i < |rows| ==> Least(rows) <= rows[i].recvMicros <= Greatest(rows)
    decreases |rows|
  {
    if |rows| > 1 {
      BoundsHold(rows[1..]);
      forall i | 0 <= i < |rows| ensures Least(rows) <= rows[i].recvMicros <= Greatest(rows) {
        if i > 0 { assert rows[i] == rows[1..][i - 1]; }
      }
    }
  }

  /** A written segment holds the rows it was given, in order, and its footer is true of them. */
  lemma {:induction false} WrittenReadsBack(rows: seq<Row>)
    ensures RowsOf(Written(rows)) == rows && Written(rows).Sound()
    decreases |rows|
  {
    if rows != [] {
      var n := if |rows| < MAX_ROW_GROUP_ROWS then |rows| else MAX_ROW_GROUP_ROWS;
      BoundsHold(rows[..n]);
      WrittenReadsBack(rows[n..]);
      assert rows == rows[..n] + rows[n..];
      var all := Grouped(rows);
      assert all[0].Sound();
      assert all[1..] == Grouped(rows[n..]);
      forall i | 0 <= i < |all| ensures all[i].Sound() {
        if i > 0 { assert all[i] == Written(rows[n..]).groups[i - 1]; }
      }
    }
  }

  /** Every row group written holds the declared number of rows, but for the last, which holds what is left. */
  lemma {:induction false} GroupsAreFull(rows: seq<Row>, i: nat)
    requires i < |Grouped(rows)|
    ensures Grouped(rows)[i].footer.Keys == {"recv_micros"}
    ensures 1 <= |Grouped(rows)[i].rows| <= 16_384 && (i + 1 < |Grouped(rows)| ==> |Grouped(rows)[i].rows| == 16_384)
    decreases |rows|
  {
    var n := if |rows| < MAX_ROW_GROUP_ROWS then |rows| else MAX_ROW_GROUP_ROWS;
    var rest := Grouped(rows[n..]);
    assert Grouped(rows) == [Grouped(rows)[0]] + rest;
    if i > 0 { GroupsAreFull(rows[n..], i - 1); }
  }

  /** A value of the column that the footer allows, and that the test passes. */
  predicate CouldPass(s: Statistics, prune: Prune, cell: Cell) {
    Bounds(s, cell) && CellPasses(prune, cell)
  }

  /**
    Where the footer states both ends of a column, and a test asks for something, a row group is left out exactly when no
    value the footer allows would pass.
   */
  lemma RuledOutExactly(group: RowGroup, prune: Prune)
    requires match (prune, group.Stated(prune.column))
             case (Int64Range(_, from, to, _), Numbers(Some(lo), Some(hi), _)) => from < to && lo <= hi
             case (Equals(_, _), Texts(Some(_), Some(_))) => true
             case _ => false
    ensures MayHold(group, prune) <==> exists cell :: CouldPass(group.Stated(prune.column), prune, cell)
  {
    var stated := group.Stated(prune.column);
    match prune {
      case Int64Range(_, from, to, keepNulls) =>
        var lo, hi := stated.min.value, stated.max.value;
        if keepNulls && stated.nulls != Some(0) { assert CouldPass(stated, prune, Null); }
        if hi >= from && lo < to { assert CouldPass(stated, prune, Int64(if lo < from then from else lo)); }
      case Equals(_, value) =>
        if MayHold(group, prune) { assert CouldPass(stated, prune, Bytes(value)); }
    }
  }

  function OneGroup(g: RowGroup, columns: set<string>): Segment {
    Segment(columns, [g])
  }

  /** A row group is read whole or not at all, and is left out as soon as one test of a column there is rules it out. */
  lemma ReadUnlessRuledOut(g: RowGroup, columns: set<string>, prunes: seq<Prune>)
    ensures (exists prune :: prune in prunes && prune.column in columns && !MayHold(g, prune)) ==>
              ReadWhere(OneGroup(g, columns), prunes) == []
    ensures !(exists prune :: prune in prunes && prune.column in columns && !MayHold(g, prune)) ==>
              ReadWhere(OneGroup(g, columns), prunes) == g.rows
  {
    assert RowsIn([g][1..], h => AllMayHold(OneGroup(g, columns), prunes, h)) == [];
    if prune :| prune in prunes && prune.column in columns && !MayHold(g, prune) {
      var i :| 0 <= i < |prunes| && prunes[i] == prune;
      assert !AllMayHold(OneGroup(g, columns), prunes, g);
    } else {
      forall i | 0 <= i < |prunes| && prunes[i].column in columns ensures MayHold(g, prunes[i]) {
        assert prunes[i] in prunes;
      }
    }
  }

  /** And where it states both ends of the receipts, a range read leaves it out exactly when none of the range could be in it. */
  lemma RangeRuledOutExactly(group: RowGroup, from: int, to: int)
    requires group.Stated(PRUNE_COLUMN).Numbers? && from < to
    requires var s := group.Stated(PRUNE_COLUMN); s.min.Some? && s.max.Some? && s.min.value <= s.max.value
    ensures Intersects(group, from, to) <==> exists n :: from <= n < to && Bounds(group.Stated(PRUNE_COLUMN), Int64(n))
  {
    var s := group.Stated(PRUNE_COLUMN);
    if Intersects(group, from, to) {
      var n := if s.min.value < from then from else s.min.value;
      assert from <= n < to && Bounds(s, Int64(n));
    }
  }
}
