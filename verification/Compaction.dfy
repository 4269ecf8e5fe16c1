/** Many segments into one: what a run does, where it may stop, and what is left whatever it does. */
module Compaction {
  import opened Sorting
  import opened Cursors
  import opened Segments
  import opened Containment

  /** The committed segments of one partition, by name. */
  type Directory = map<Cursor, Segment>

  /** What reads while duplicates are proven, and what reads while the rest is merged: each file is read afresh. */
  datatype Reads = Reads(proof: Directory, inputs: Directory)

  /** What will not read while duplicates are proven, and what will not while the rest is merged. */
  datatype Unread = Unread(proof: set<Cursor>, merge: set<Cursor>)

  /** What of the directory reads each time: the rest is there and does not. */
  function Reading(files: Directory, unreadable: Unread): Reads {
    Reads(files - unreadable.proof, files - unreadable.merge)
  }

  // ---- what one run decides --------------------------------------------------

  datatype Merge = Nothing | Unreadable | Into(name: Cursor, rows: seq<Row>)

  datatype Plan = Plan(doomed: set<Cursor>, existing: seq<Cursor>, merge: Merge)

  function Doomed(listed: seq<Cursor>, readable: Directory): set<Cursor> {
    ProvenOf(PairsOf(Swept(listed)), readable)
  }

  function Without(listed: seq<Cursor>, gone: set<Cursor>): seq<Cursor> {
    if listed == [] then []
    else (if listed[0] in gone then [] else [listed[0]]) + Without(listed[1..], gone)
  }

  function Lo(existing: seq<Cursor>): int
    requires existing != []
  {
    if |existing| == 1 then existing[0].First() else Min(Lo(existing[..|existing| - 1]), existing[|existing| - 1].First())
  }

  function Hi(existing: seq<Cursor>): int
    requires existing != []
  {
    if |existing| == 1 then existing[0].Last() else Max(Hi(existing[..|existing| - 1]), existing[|existing| - 1].Last())
  }

  predicate OneKind(listed: seq<Cursor>) {
    forall i :: 0 <= i < |listed| ==> listed[i].Kind() == listed[0].Kind()
  }

  predicate AllFit(listed: seq<Cursor>) {
    forall i :: 0 <= i < |listed| ==> listed[i].Fits()
  }

  /** What a merge will be called, worked out from the names of its inputs alone. */
  function MergedName(existing: seq<Cursor>): Cursor
    requires existing != [] && OneKind(existing)
  {
    SpanIsNatural(existing);
    match existing[0]
    case Time(_, _, pid, _) => Time(Lo(existing), Hi(existing), pid, 0)
    case Block(_, _) => Block(Lo(existing), Hi(existing))
    case Seq(_, _) => Seq(Lo(existing), Hi(existing))
  }

  lemma {:induction false} SpanIsNatural(existing: seq<Cursor>)
    requires existing != [] && OneKind(existing)
    ensures !existing[0].Time? ==> Lo(existing) >= 0 && Hi(existing) >= 0
    decreases |existing|
  {
    if |existing| > 1 { SpanIsNatural(existing[..|existing| - 1]); }
  }

  function MergedRows(existing: seq<Cursor>, readable: Directory): seq<Row>
    requires forall c :: c in existing ==> c in readable
  {
    if existing == [] then []
    else MergedRows(existing[..|existing| - 1], readable) + RowsOf(readable[existing[|existing| - 1]])
  }

  function MergeOf(existing: seq<Cursor>, readable: Directory): Merge
    requires OneKind(existing)
  {
    if |existing| <= 1 then Nothing
    else if existing[0] !in readable then Unreadable
    else if RowsOf(readable[existing[0]]) == [] then Nothing
    else if exists c :: c in existing && c !in readable then Unreadable
    else Into(MergedName(existing), MergedRows(existing, readable))
  }

  lemma {:induction false} WithoutHolds(listed: seq<Cursor>, gone: set<Cursor>)
    ensures forall c :: c in Without(listed, gone) <==> c in listed && c !in gone
    ensures OneKind(listed) ==> OneKind(Without(listed, gone))
    ensures AllFit(listed) ==> AllFit(Without(listed, gone))
    ensures Distinct(listed) ==> Distinct(Without(listed, gone))
    ensures |Without(listed, gone)| <= |listed|
    decreases |listed|
  {
    if listed != [] {
      var rest := listed[1..];
      assert listed == [listed[0]] + rest;
      assert OneKind(listed) ==> OneKind(rest) by {
        if OneKind(listed) { forall i | 0 <= i < |rest| ensures rest[i].Kind() == rest[0].Kind() { assert rest[i] == listed[i + 1]; } }
      }
      WithoutHolds(rest, gone);
      forall c | c in Without(listed, gone) ensures c in listed {}
      if OneKind(listed) {
        forall c | c in listed ensures c.Kind() == listed[0].Kind() {}
      }
      if AllFit(listed) {
        forall c | c in listed ensures c.Fits() {}
      }
    }
  }

  function PlanOf(listed: seq<Cursor>, reading: Reads): Plan
    requires OneKind(listed)
  {
    var doomed := Doomed(listed, reading.proof);
    var existing := Without(listed, doomed);
    WithoutHolds(listed, doomed);
    Plan(doomed, existing, MergeOf(existing, reading.inputs))
  }

  // ---- where a run may be ------------------------------------------------------

  function Sans(dir: Directory, gone: set<Cursor>): Directory {
    dir - gone
  }

  /** After the rename, with nothing merged removed yet. */
  function Renamed(dir: Directory, plan: Plan): Directory
    requires plan.merge.Into?
  {
    Sans(dir, plan.doomed)[plan.merge.name := Written(plan.merge.rows)]
  }

  function Originals(plan: Plan): set<Cursor>
    requires plan.merge.Into?
  {
    (set c | c in plan.existing) - {plan.merge.name}
  }

  ghost predicate RemovingDoomed(dir: Directory, plan: Plan, d: Directory) {
    exists gone :: gone <= plan.doomed && d == Sans(dir, gone)
  }

  ghost predicate RemovingOriginals(dir: Directory, plan: Plan, d: Directory) {
    plan.merge.Into? && exists gone :: gone <= Originals(plan) && d == Sans(Renamed(dir, plan), gone)
  }

  /** Every state of the directory a run over `dir` passes through, and so every state a stop can leave. */
  ghost predicate RunState(dir: Directory, plan: Plan, d: Directory) {
    RemovingDoomed(dir, plan, d) || RemovingOriginals(dir, plan, d)
  }

  function Final(dir: Directory, plan: Plan): Directory {
    if plan.merge.Into? then Sans(Renamed(dir, plan), Originals(plan)) else Sans(dir, plan.doomed)
  }

  /** What a reading of the directory may find: some of what is there, as it is there. */
  predicate FoundIn(readable: Directory, dir: Directory) {
    forall c :: c in readable ==> c in dir && readable[c] == dir[c]
  }

  predicate ReadsFrom(reading: Reads, dir: Directory) {
    FoundIn(reading.proof, dir) && FoundIn(reading.inputs, dir)
  }

  // ---- a run never loses a row ---------------------------------------------------

  ghost predicate Holds(dir: Directory, r: Row) {
    exists c :: c in dir && r in RowsOf(dir[c])
  }

  lemma {:induction false} MergedRowsHold(existing: seq<Cursor>, readable: Directory)
    requires forall c :: c in existing ==> c in readable
    ensures forall c, r :: c in existing && r in RowsOf(readable[c]) ==> r in MergedRows(existing, readable)
    ensures multiset(MergedRows(existing, readable)) == SumOf(RowBag(readable), existing)
    decreases |existing|
  {
    if existing != [] {
      var front, last := existing[..|existing| - 1], existing[|existing| - 1];
      assert existing == front + [last];
      MergedRowsHold(front, readable);
      SumAppend(RowBag(readable), front, [last]);
      assert [last][1..] == [];
    }
  }

  function ReadRows(readable: Directory): Cursor -> seq<Row> {
    (c: Cursor) => if c in readable then RowsOf(readable[c]) else []
  }

  /** Rows are merged input by input, each input's in its own order. */
  lemma {:induction false} MergedInOrder(existing: seq<Cursor>, readable: Directory)
    requires forall c :: c in existing ==> c in readable
    ensures MergedRows(existing, readable) == Flat(ReadRows(readable), existing)
    decreases |existing|
  {
    if existing != [] { MergedInOrder(existing[..|existing| - 1], readable); }
  }

  /** A listed segment no proof condemned holds every row of `c`, as often. */
  predicate CoversIn(listed: seq<Cursor>, doomed: set<Cursor>, readable: Directory, c: Cursor, w: Cursor) {
    w in listed && w !in doomed && w in readable && c in readable
    && multiset(RowsOf(readable[c])) <= multiset(RowsOf(readable[w]))
  }

  /** What the steps of a run rely on, said of the plan alone. */
  ghost predicate SoundPlan(plan: Plan, listed: seq<Cursor>, reading: Reads) {
    && (forall c :: c in plan.doomed ==> c in listed)
    && (forall c :: c in plan.existing <==> c in listed && c !in plan.doomed)
    && (forall c :: c in plan.doomed ==>
          c in reading.proof && exists w :: CoversIn(listed, plan.doomed, reading.proof, c, w))
    && (plan.merge.Into? ==>
          && OneKind(plan.existing) && |plan.existing| > 1
          && (forall c :: c in plan.existing ==> c in reading.inputs)
          && plan.merge.name == MergedName(plan.existing)
          && plan.merge.rows == MergedRows(plan.existing, reading.inputs))
  }

  lemma PlansAreSound(listed: seq<Cursor>, reading: Reads)
    requires OneKind(listed)
    ensures SoundPlan(PlanOf(listed, reading), listed, reading)
  {
    var doomed := Doomed(listed, reading.proof);
    WithoutHolds(listed, doomed);
    forall c | c in doomed
      ensures c in listed && c in reading.proof
      ensures exists w :: CoversIn(listed, doomed, reading.proof, c, w)
    {
      var w := ProvenIsHeld(listed, reading.proof, c);
      assert CoversIn(listed, doomed, reading.proof, c, w);
    }
  }

  /** No file outside the listing has the name the merge takes. */
  predicate NoStray(dir: Directory, listed: seq<Cursor>, plan: Plan) {
    plan.merge.Into? && plan.merge.name in dir ==> plan.merge.name in listed
  }

  lemma SomeUncondemnedHolder(dir: Directory, plan: Plan, listed: seq<Cursor>, reading: Reads, r: Row) returns (w: Cursor)
    requires ReadsFrom(reading, dir) && SoundPlan(plan, listed, reading) && Holds(dir, r)
    requires forall c :: c in listed ==> c in dir
    ensures w in dir && w !in plan.doomed && r in RowsOf(dir[w])
  {
    w :| w in dir && r in RowsOf(dir[w]);
    if w in plan.doomed {
      var c := w;
      w :| CoversIn(listed, plan.doomed, reading.proof, c, w);
      assert r in multiset(RowsOf(reading.proof[c]));
    }
  }

  lemma StepsKeepHolder(dir: Directory, plan: Plan, listed: seq<Cursor>, reading: Reads, d: Directory, w: Cursor, r: Row)
    requires ReadsFrom(reading, dir) && SoundPlan(plan, listed, reading)
    requires RunState(dir, plan, d) && NoStray(dir, listed, plan)
    requires w in dir && w !in plan.doomed && r in RowsOf(dir[w])
    ensures Holds(d, r)
  {
    if RemovingDoomed(dir, plan, d) {
      assert w in d;
    } else {
      var gone :| gone <= Originals(plan) && d == Sans(Renamed(dir, plan), gone);
      if w in plan.existing {
        WrittenReadsBack(plan.merge.rows);
        MergedRowsHold(plan.existing, reading.inputs);
        assert plan.merge.name in d && r in RowsOf(d[plan.merge.name]);
      } else {
        assert w in d && d[w] == dir[w];
      }
    }
  }

  /**
    Whatever a run does and wherever it stops, every row a committed segment held is still held
    by one. The merged name may replace a listed segment; it must not be another's.
   */
  lemma RunNeverLosesARow(dir: Directory, listed: seq<Cursor>, reading: Reads, d: Directory, r: Row)
    requires OneKind(listed) && ReadsFrom(reading, dir) && forall c :: c in listed ==> c in dir
    requires NoStray(dir, listed, PlanOf(listed, reading)) && RunState(dir, PlanOf(listed, reading), d)
    requires Holds(dir, r)
    ensures Holds(d, r)
  {
    PlansAreSound(listed, reading);
    var w := SomeUncondemnedHolder(dir, PlanOf(listed, reading), listed, reading, r);
    StepsKeepHolder(dir, PlanOf(listed, reading), listed, reading, d, w, r);
  }
}
