/** The compaction of one partition, step by step on its directory. */
module Compactor {
  import opened Sorting
  import opened Cursors
  import opened Segments
  import opened Containment
  import opened Compaction

  datatype Outcome =
    | Compacted(after: nat, rows: nat)
    | WouldNotRead
    | Mixed(first: Variant, other: Variant)

  method MergedCursor(existing: seq<Cursor>) returns (name: Cursor)
    requires existing != [] && OneKind(existing) && AllFit(existing)
    ensures name == MergedName(existing)
  {
    var lo, hi := I64_MAX, I64_MIN;
    if !existing[0].Time? { lo, hi := existing[0].First(), existing[0].Last(); }
    var i := 0;
    while i < |existing|
      invariant 0 <= i <= |existing|
      invariant i == 0 ==> if existing[0].Time? then lo == I64_MAX && hi == I64_MIN else lo == existing[0].First() && hi == existing[0].Last()
      invariant i > 0 ==> lo == Lo(existing[..i]) && hi == Hi(existing[..i])
    {
      assert existing[..i + 1][..i] == existing[..i] && existing[i].Kind() == existing[0].Kind();
      lo, hi := Min(lo, existing[i].First()), Max(hi, existing[i].Last());
      i := i + 1;
    }
    assert existing[..|existing|] == existing;
    SpanIsNatural(existing);
    match existing[0] {
      case Time(_, _, pid, _) => name := Time(lo, hi, pid, 0);
      case Block(_, _) => name := Block(lo, hi);
      case Seq(_, _) => name := Cursor.Seq(lo, hi);
    }
  }

  /** A merge takes the process of the first it merges and the flush no flush has. */
  lemma MergesAreNoFlushes(existing: seq<Cursor>)
    requires existing != [] && OneKind(existing)
    ensures MergedName(existing).Kind() == existing[0].Kind()
    ensures existing[0].Time? ==> MergedName(existing).pid == existing[0].pid && MergedName(existing).flush == 0
  {
  }

  /** Concatenate the rows of every input, and widen the name by each input in turn. */
  method MergeInputs(existing: seq<Cursor>, readable: Directory) returns (merge: Merge)
    requires |existing| > 1 && OneKind(existing) && AllFit(existing)
    ensures merge == MergeOf(existing, readable)
  {
    var name := MergedCursor(existing);
    if existing[0] !in readable { return Unreadable; }
    var rows := RowsOf(readable[existing[0]]);
    if rows == [] { return Nothing; }
    var i := 1;
    assert existing[..1][..0] == [] && MergedRows(existing[..1], readable) == MergedRows([], readable) + rows;
    while i < |existing|
      invariant 1 <= i <= |existing|
      invariant forall c :: c in existing[..i] ==> c in readable
      invariant rows == MergedRows(existing[..i], readable)
    {
      if existing[i] !in readable {
        assert existing[i] in existing;
        return Unreadable;
      }
      assert existing[..i + 1][..i] == existing[..i];
      rows := rows + RowsOf(readable[existing[i]]);
      i := i + 1;
    }
    assert existing[..|existing|] == existing;
    merge := Into(name, rows);
  }

  function OutcomeOf(plan: Plan): Outcome {
    match plan.merge
    case Nothing => Compacted(|plan.existing|, 0)
    case Unreadable => WouldNotRead
    case Into(_, rows) => Compacted(1, |rows|)
  }

  /** What of the listing, and of what it was merged into, is there afterwards. */
  function LeftOf(dir: Directory, listed: seq<Cursor>, plan: Plan): set<Cursor> {
    set c | c in dir && (c in listed || (plan.merge.Into? && c == plan.merge.name))
  }

  lemma {:induction false} DistinctCount(cs: seq<Cursor>)
    requires Distinct(cs)
    ensures |set c | c in cs| == |cs|
    decreases |cs|
  {
    if cs != [] {
      var front, last := cs[..|cs| - 1], cs[|cs| - 1];
      DistinctCount(front);
      assert cs == front + [last];
      assert (set c | c in cs) == (set c | c in front) + {last};
    }
  }

  /** The outcome tells how many segments the run leaves of those listed, and how many rows it wrote. */
  lemma OutcomeCounts(dir: Directory, listed: seq<Cursor>, reading: Reads)
    requires OneKind(listed) && Distinct(listed) && forall c :: c in listed ==> c in dir
    ensures var plan := PlanOf(listed, reading);
            && (OutcomeOf(plan).WouldNotRead? <==> plan.merge.Unreadable?)
            && (OutcomeOf(plan).Compacted? ==>
                  && OutcomeOf(plan).after == |LeftOf(Final(dir, plan), listed, plan)|
                  && OutcomeOf(plan).rows == if plan.merge.Into? then |RowsOf(Final(dir, plan)[plan.merge.name])| else 0)
  {
    var plan := PlanOf(listed, reading);
    PlansAreSound(listed, reading);
    WithoutHolds(listed, plan.doomed);
    var left := LeftOf(Final(dir, plan), listed, plan);
    if plan.merge.Into? {
      WrittenReadsBack(plan.merge.rows);
      assert left == {plan.merge.name};
    } else {
      DistinctCount(plan.existing);
      assert left == set c | c in plan.existing;
    }
  }

  lemma DoomedAreListed(listed: seq<Cursor>, readable: Directory)
    ensures forall c :: c in Doomed(listed, readable) ==> c in listed
  {
    SweepIsCrossProduct(listed);
  }

  class Partition {
    /** What a listing of the directory returns, and what each segment holds. */
    var files: Directory
    /** Every state the directory has been in. */
    ghost var trail: seq<Directory>

    ghost predicate Valid()
      reads this
    {
      trail != [] && trail[|trail| - 1] == files
    }

    constructor (held: Directory)
      ensures Valid() && files == held && trail == [held]
    {
      files := held;
      trail := [held];
    }

    method Remove(c: Cursor)
      requires Valid() && c in files
      modifies this
      ensures Valid() && files == Sans(old(files), {c}) && trail == old(trail) + [files]
    {
      files := files - {c};
      trail := trail + [files];
    }

    /** Put a merge under its name, doing nothing where the file of that name holds precisely it. */
    method Commit(name: Cursor, rows: seq<Row>)
      requires Valid()
      modifies this
      ensures Valid() && files == old(files)[name := Written(rows)]
      ensures trail == if name in old(files) && old(files)[name] == Written(rows) then old(trail) else old(trail) + [files]
    {
      if name in files && files[name] == Written(rows) { return; }
      files := files[name := Written(rows)];
      trail := trail + [files];
    }

    /** Since `from`, the directory has been nowhere but where a run over `start` may be. */
    ghost predicate RanFrom(from: nat, start: Directory, plan: Plan)
      reads this
    {
      from <= |trail| && forall i :: from <= i < |trail| ==> RunState(start, plan, trail[i])
    }

    method RemoveDoomed(ghost start: Directory, ghost plan: Plan, doomed: set<Cursor>)
      requires Valid() && files == start && doomed == plan.doomed && forall c :: c in doomed ==> c in files
      modifies this
      ensures Valid() && files == Sans(start, doomed) && old(trail) <= trail && RanFrom(|old(trail)|, start, plan)
    {
      var left := doomed;
      while left != {}
        invariant Valid() && left <= doomed && files == Sans(start, doomed - left)
        invariant old(trail) <= trail && RanFrom(|old(trail)|, start, plan)
        decreases |left|
      {
        var c :| c in left;
        Remove(c);
        left := left - {c};
        assert files == Sans(start, doomed - left);
        assert RemovingDoomed(start, plan, files);
      }
    }

    method RemoveOriginals(ghost start: Directory, ghost plan: Plan, existing: seq<Cursor>, name: Cursor)
      requires Valid() && plan.merge.Into? && files == Renamed(start, plan)
      requires existing == plan.existing && name == plan.merge.name && Distinct(existing)
      requires forall c :: c in existing ==> c in start && c !in plan.doomed
      modifies this
      ensures Valid() && files == Sans(Renamed(start, plan), Originals(plan))
      ensures old(trail) <= trail && RanFrom(|old(trail)|, start, plan)
    {
      ghost var gone: set<Cursor> := {};
      var i := 0;
      while i < |existing|
        invariant 0 <= i <= |existing| && Valid()
        invariant gone == (set c | c in existing[..i]) - {name} && files == Sans(Renamed(start, plan), gone)
        invariant old(trail) <= trail && RanFrom(|old(trail)|, start, plan)
      {
        var c := existing[i];
        assert c !in existing[..i];
        if c != name {
          assert c in existing && c in Renamed(start, plan);
          Remove(c);
          gone := gone + {c};
          assert files == Sans(Renamed(start, plan), gone);
          assert gone <= Originals(plan);
          assert RemovingOriginals(start, plan, files);
        }
        i := i + 1;
      }
      assert existing[..i] == existing;
    }

    /** Commit the merge before anything it replaces is removed, then remove that, one at a time. */
    method Replace(ghost start: Directory, ghost plan: Plan, existing: seq<Cursor>, name: Cursor, rows: seq<Row>)
      requires Valid() && files == Sans(start, plan.doomed) && plan.merge == Into(name, rows)
      requires existing == plan.existing && Distinct(existing)
      requires forall c :: c in existing ==> c in start && c !in plan.doomed
      modifies this
      ensures Valid() && files == Final(start, plan) && old(trail) <= trail && RanFrom(|old(trail)|, start, plan)
    {
      Commit(name, rows);
      assert files == Sans(Renamed(start, plan), {});
      assert RemovingOriginals(start, plan, files);
      ghost var committed := trail;
      RemoveOriginals(start, plan, existing, name);
      assert forall i :: |old(trail)| <= i < |committed| ==> trail[i] == committed[i];
    }

    method Carry(ghost start: Directory, ghost plan: Plan, doomed: set<Cursor>, existing: seq<Cursor>, readable: Directory)
      returns (outcome: Outcome)
      requires Valid() && files == start && doomed == plan.doomed && existing == plan.existing
      requires Distinct(existing) && OneKind(existing) && AllFit(existing) && plan.merge == MergeOf(existing, readable)
      requires (forall c :: c in doomed ==> c in start) && (forall c :: c in existing ==> c in start && c !in doomed)
      modifies this
      ensures Valid() && files == Final(start, plan) && old(trail) <= trail && RanFrom(|old(trail)|, start, plan)
      ensures outcome == OutcomeOf(plan)
    {
      RemoveDoomed(start, plan, doomed);
      if |existing| <= 1 { return Compacted(|existing|, 0); }
      var merge := MergeInputs(existing, readable);
      match merge {
        case Unreadable => return WouldNotRead;
        case Nothing => return Compacted(|existing|, 0);
        case Into(name, rows) =>
          ghost var removed := trail;
          Replace(start, plan, existing, name, rows);
          assert forall i :: |old(trail)| <= i < |removed| ==> trail[i] == removed[i];
          return Compacted(1, |rows|);
      }
    }

    /**
      Compact one set of the listed segments into one. What an interrupted run left is removed
      first, never merged in again.
     */
    method CompactSet(listed: seq<Cursor>, unreadable: Unread) returns (outcome: Outcome)
      requires Valid() && Distinct(listed) && OneKind(listed) && AllFit(listed)
      requires forall c :: c in listed ==> c in files
      modifies this
      ensures Valid() && old(trail) <= trail
      ensures var plan := PlanOf(listed, Reading(old(files), unreadable));
              && files == Final(old(files), plan)
              && RanFrom(|old(trail)|, old(files), plan)
              && outcome == OutcomeOf(plan)
    {
      var reading := Reading(files, unreadable);
      var pairs := ContainedByRange(listed);
      var proven := ProvenDuplicates(pairs, reading.proof);
      var doomed := set c | c in proven;
      DoomedAreListed(listed, reading.proof);
      WithoutHolds(listed, doomed);
      outcome := Carry(files, PlanOf(listed, reading), doomed, Without(listed, doomed), reading.inputs);
    }

    /** Rewrite a whole partition; one holding two variants is refused, untouched. */
    method CompactPartition(listed: seq<Cursor>, unreadable: Unread) returns (outcome: Outcome)
      requires Valid() && Distinct(listed) && AllFit(listed) && forall c :: c in listed <==> c in files
      modifies this
      ensures Valid() && old(trail) <= trail
      ensures outcome.Mixed? <==> !OneKind(listed)
      ensures outcome.Mixed? ==> files == old(files) && trail == old(trail) && outcome.first != outcome.other
      ensures OneKind(listed) ==>
        var plan := PlanOf(listed, Reading(old(files), unreadable));
        files == Final(old(files), plan) && RanFrom(|old(trail)|, old(files), plan)
    {
      var i := 1;
      while i < |listed|
        invariant forall k :: 0 <= k < i && k < |listed| ==> listed[k].Kind() == listed[0].Kind()
      {
        if listed[i].Kind() != listed[0].Kind() { return Mixed(listed[0].Kind(), listed[i].Kind()); }
        i := i + 1;
      }
      outcome := CompactSet(listed, unreadable);
    }
  }
}
