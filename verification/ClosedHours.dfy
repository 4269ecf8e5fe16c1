/** Compacting today's closed hours: which segments it touches, and what it leaves of the listing. */
module ClosedHours {
  import opened Sorting
  import opened Cursors
  import opened Segments
  import opened Containment
  import opened Compaction
  import opened Compactor
  import Calendar

  const HOUR_MICROS := 3_600_000_000

  /** A receipt-named segment whose range ends before the cutoff. */
  predicate Closed(c: Cursor, cutoff: int) {
    c.Time? && c.lastMicros < cutoff
  }

  /** The hour of the last receipt a name gives. */
  function HourOf(c: Cursor): int {
    c.Last() / HOUR_MICROS
  }

  predicate InHour(c: Cursor, cutoff: int, hour: int) {
    Closed(c, cutoff) && HourOf(c) == hour
  }

  function GroupOf(listed: seq<Cursor>, cutoff: int, hour: int): seq<Cursor> {
    if listed == [] then []
    else
      var front, last := listed[..|listed| - 1], listed[|listed| - 1];
      if InHour(last, cutoff, hour) then GroupOf(front, cutoff, hour) + [last] else GroupOf(front, cutoff, hour)
  }

  lemma {:induction false} GroupHolds(listed: seq<Cursor>, cutoff: int, hour: int)
    ensures forall c :: c in GroupOf(listed, cutoff, hour) <==> c in listed && InHour(c, cutoff, hour)
    ensures Distinct(listed) ==> Distinct(GroupOf(listed, cutoff, hour))
    ensures OneKind(GroupOf(listed, cutoff, hour))
    ensures AllFit(listed) ==> AllFit(GroupOf(listed, cutoff, hour))
    decreases |listed|
  {
    if listed != [] {
      GroupHolds(listed[..|listed| - 1], cutoff, hour);
      assert listed == listed[..|listed| - 1] + [listed[|listed| - 1]];
      var group := GroupOf(listed, cutoff, hour);
      forall i | 0 <= i < |group| ensures group[i].Time? {
        assert group[i] in group;
      }
    }
  }

  /** What compacting one hour's group makes of the directory. */
  function HourDone(dir: Directory, group: seq<Cursor>, unreadable: Unread): Directory
    requires OneKind(group)
  {
    if |group| <= 1 then dir else Final(dir, PlanOf(group, Reading(dir, unreadable)))
  }

  function HoursDone(dir: Directory, listed: seq<Cursor>, cutoff: int, hours: seq<int>, unreadable: Unread): Directory {
    if hours == [] then dir
    else
      GroupHolds(listed, cutoff, hours[|hours| - 1]);
      HourDone(HoursDone(dir, listed, cutoff, hours[..|hours| - 1], unreadable),
               GroupOf(listed, cutoff, hours[|hours| - 1]), unreadable)
  }

  predicate Ascending(hours: seq<int>) {
    forall i, j :: 0 <= i < j < |hours| ==> hours[i] < hours[j]
  }

  function HoursIn(listed: seq<Cursor>, cutoff: int): set<int> {
    set c | c in listed && Closed(c, cutoff) :: HourOf(c)
  }

  // ---- one hour -------------------------------------------------------------------

  /** The directory still has every listed segment of the hour, and no other of it. */
  ghost predicate HourIntact(dir: Directory, group: seq<Cursor>, cutoff: int, hour: int) {
    && (forall c :: c in group <==> c in dir && InHour(c, cutoff, hour))
    && Distinct(group) && OneKind(group)
  }

  lemma {:induction false} SpanIsReached(group: seq<Cursor>)
    requires group != []
    ensures exists c :: c in group && c.First() == Lo(group)
    ensures exists c :: c in group && c.Last() == Hi(group)
    ensures forall c :: c in group ==> Lo(group) <= c.First() && c.Last() <= Hi(group)
    decreases |group|
  {
    if |group| == 1 {
      assert group[0] in group;
    } else {
      var front, last := group[..|group| - 1], group[|group| - 1];
      SpanIsReached(front);
      assert group == front + [last];
      var a :| a in front && a.First() == Lo(front);
      var b :| b in front && b.Last() == Hi(front);
      assert a in group && b in group && last in group;
    }
  }

  lemma MergedNameIsInHour(group: seq<Cursor>, cutoff: int, hour: int)
    requires group != [] && OneKind(group) && forall c :: c in group ==> InHour(c, cutoff, hour)
    ensures InHour(MergedName(group), cutoff, hour)
    ensures exists c :: c in group && c.First() == MergedName(group).First() && c.Last() <= MergedName(group).Last()
    ensures forall c :: c in group ==> MergedName(group).First() <= c.First()
  {
    SpanIsReached(group);
    assert group[0] in group;
  }

  /** The merge's name belongs to the hour, so it can replace nothing outside the group. */
  lemma HourNeverOverwritesAnother(dir: Directory, group: seq<Cursor>, cutoff: int, hour: int, reading: Reads)
    requires HourIntact(dir, group, cutoff, hour)
    ensures NoStray(dir, group, PlanOf(group, reading))
    ensures PlanOf(group, reading).merge.Into? ==> InHour(PlanOf(group, reading).merge.name, cutoff, hour)
  {
    var plan := PlanOf(group, reading);
    PlansAreSound(group, reading);
    if plan.merge.Into? { MergedNameIsInHour(plan.existing, cutoff, hour); }
  }

  /** Nothing outside the hour is created, changed or removed. */
  lemma HourTouchesOnlyItself(dir: Directory, group: seq<Cursor>, cutoff: int, hour: int, unreadable: Unread, c: Cursor)
    requires HourIntact(dir, group, cutoff, hour) && !InHour(c, cutoff, hour)
    ensures var d := HourDone(dir, group, unreadable);
            (c in d <==> c in dir) && (c in dir ==> d[c] == dir[c])
  {
    var reading := Reading(dir, unreadable);
    PlansAreSound(group, reading);
    HourNeverOverwritesAnother(dir, group, cutoff, hour, reading);
  }

  /** The hour keeps its own segments only, or one made of them. */
  lemma HourEndsAs(dir: Directory, group: seq<Cursor>, cutoff: int, hour: int, unreadable: Unread)
    requires HourIntact(dir, group, cutoff, hour)
    ensures var d, plan := HourDone(dir, group, unreadable), PlanOf(group, Reading(dir, unreadable));
            if |group| > 1 && plan.merge.Into?
            then forall c :: c in d && InHour(c, cutoff, hour) <==> c == plan.merge.name
            else forall c :: c in d && InHour(c, cutoff, hour) ==> c in group && c in dir && d[c] == dir[c]
  {
    var reading := Reading(dir, unreadable);
    PlansAreSound(group, reading);
    HourNeverOverwritesAnother(dir, group, cutoff, hour, reading);
  }

  // ---- every hour, one after another -------------------------------------------------

  ghost predicate WholeListing(dir: Directory, listed: seq<Cursor>) {
    Distinct(listed) && forall c :: c in listed <==> c in dir
  }

  lemma {:induction false} HoursTouchOnlyThemselves(
      dir: Directory, listed: seq<Cursor>, cutoff: int, hours: seq<int>, unreadable: Unread, c: Cursor)
    requires WholeListing(dir, listed) && Ascending(hours)
    requires forall h :: h in hours ==> !InHour(c, cutoff, h)
    ensures var d := HoursDone(dir, listed, cutoff, hours, unreadable);
            (c in d <==> c in dir) && (c in dir ==> d[c] == dir[c])
    decreases |hours|, 0
  {
    if hours != [] {
      var front, hour := hours[..|hours| - 1], hours[|hours| - 1];
      assert hour in hours && forall h :: h in front ==> h in hours;
      HoursTouchOnlyThemselves(dir, listed, cutoff, front, unreadable, c);
      NextHourIntact(dir, listed, cutoff, hours, unreadable);
      HourTouchesOnlyItself(HoursDone(dir, listed, cutoff, front, unreadable), GroupOf(listed, cutoff, hour), cutoff, hour, unreadable, c);
    }
  }

  lemma {:induction false} NextHourIntact(dir: Directory, listed: seq<Cursor>, cutoff: int, hours: seq<int>, unreadable: Unread)
    requires WholeListing(dir, listed) && Ascending(hours) && hours != []
    ensures var hour := hours[|hours| - 1];
            HourIntact(HoursDone(dir, listed, cutoff, hours[..|hours| - 1], unreadable), GroupOf(listed, cutoff, hour), cutoff, hour)
    decreases |hours| - 1, 1
  {
    var front, hour := hours[..|hours| - 1], hours[|hours| - 1];
    GroupHolds(listed, cutoff, hour);
    var d := HoursDone(dir, listed, cutoff, front, unreadable);
    forall c | InHour(c, cutoff, hour) ensures c in d <==> c in dir {
      HoursTouchOnlyThemselves(dir, listed, cutoff, front, unreadable, c);
    }
  }

  /** A run over closed hours leaves everything ending at or after the cutoff as it found it. */
  lemma OnlyClosedSegmentsAreTouched(
      dir: Directory, listed: seq<Cursor>, cutoff: int, hours: seq<int>, unreadable: Unread, c: Cursor)
    requires WholeListing(dir, listed) && Ascending(hours) && !(c.Time? && c.lastMicros < cutoff)
    ensures var d := HoursDone(dir, listed, cutoff, hours, unreadable);
            (c in d <==> c in dir) && (c in dir ==> d[c] == dir[c])
  {
    HoursTouchOnlyThemselves(dir, listed, cutoff, hours, unreadable, c);
  }

  /** And loses no row. */
  lemma {:induction false} HoursNeverLoseARow(
      dir: Directory, listed: seq<Cursor>, cutoff: int, hours: seq<int>, unreadable: Unread, r: Row)
    requires WholeListing(dir, listed) && Ascending(hours) && Holds(dir, r)
    ensures Holds(HoursDone(dir, listed, cutoff, hours, unreadable), r)
    decreases |hours|
  {
    if hours != [] {
      var front, hour := hours[..|hours| - 1], hours[|hours| - 1];
      var d, group := HoursDone(dir, listed, cutoff, front, unreadable), GroupOf(listed, cutoff, hour);
      HoursNeverLoseARow(dir, listed, cutoff, front, unreadable, r);
      NextHourIntact(dir, listed, cutoff, hours, unreadable);
      var reading := Reading(d, unreadable);
      HourNeverOverwritesAnother(d, group, cutoff, hour, reading);
      if |group| > 1 { FinalIsAState(d, PlanOf(group, reading)); RunNeverLosesARow(d, group, reading, HourDone(d, group, unreadable), r); }
    }
  }

  lemma FinalIsAState(dir: Directory, plan: Plan)
    ensures RunState(dir, plan, Final(dir, plan))
  {
    if plan.merge.Into? {
      assert RemovingOriginals(dir, plan, Final(dir, plan));
    } else {
      assert RemovingDoomed(dir, plan, Final(dir, plan));
    }
  }

  // ---- consecutive hours abut -----------------------------------------------------------

  ghost predicate ContainmentFree(dir: Directory) {
    forall a, b :: a in dir && b in dir ==> !StrictlyInside(a, b)
  }

  /** `a` is an original, or a merge of its hour that starts where an original of that hour does. */
  predicate ComesFrom(a: Cursor, a0: Cursor, cutoff: int) {
    || a0 == a
    || (a.Time? && a0.Time? && a0.First() == a.First() && a0.Last() <= a.Last() && HourOf(a0) == HourOf(a)
        && Closed(a, cutoff))
  }

  ghost predicate AllComeFrom(dir: Directory, d: Directory, cutoff: int) {
    forall a :: a in d ==> exists a0 :: a0 in dir && ComesFrom(a, a0, cutoff)
  }

  ghost predicate PairsAreOriginal(dir: Directory, d: Directory, cutoff: int) {
    forall a, b :: a in d && b in d && a != b && Closed(a, cutoff) && InHour(b, cutoff, HourOf(a)) ==> a in dir && b in dir
  }

  ghost predicate Traced(dir: Directory, d: Directory, cutoff: int) {
    AllComeFrom(dir, d, cutoff) && PairsAreOriginal(dir, d, cutoff)
  }

  lemma HourSegmentComesFrom(
      dir: Directory, d: Directory, group: seq<Cursor>, cutoff: int, hour: int, unreadable: Unread, a: Cursor)
    requires HourIntact(d, group, cutoff, hour) && forall c :: c in group ==> c in dir
    requires a in HourDone(d, group, unreadable) && InHour(a, cutoff, hour)
    ensures exists a0 :: a0 in dir && ComesFrom(a, a0, cutoff)
  {
    var plan := PlanOf(group, Reading(d, unreadable));
    HourEndsAs(d, group, cutoff, hour, unreadable);
    if |group| > 1 && plan.merge.Into? {
      PlansAreSound(group, Reading(d, unreadable));
      MergedNameIsInHour(plan.existing, cutoff, hour);
      var a0 :| a0 in plan.existing && a0.First() == a.First() && a0.Last() <= a.Last();
      assert a0 in dir && ComesFrom(a, a0, cutoff);
    } else {
      assert a in dir && ComesFrom(a, a, cutoff);
    }
  }

  lemma HourPairIsOriginal(
      dir: Directory, d: Directory, group: seq<Cursor>, cutoff: int, hour: int, unreadable: Unread, a: Cursor, b: Cursor)
    requires HourIntact(d, group, cutoff, hour) && forall c :: c in group ==> c in dir
    requires a in HourDone(d, group, unreadable) && b in HourDone(d, group, unreadable) && a != b
    requires InHour(a, cutoff, hour) && InHour(b, cutoff, hour)
    ensures a in dir && b in dir
  {
    HourEndsAs(d, group, cutoff, hour, unreadable);
  }

  lemma HourStaysTraced(dir: Directory, d: Directory, group: seq<Cursor>, cutoff: int, hour: int, unreadable: Unread)
    requires Traced(dir, d, cutoff) && HourIntact(d, group, cutoff, hour) && forall c :: c in group ==> c in dir
    ensures AllComeFrom(dir, HourDone(d, group, unreadable), cutoff)
  {
    forall a | a in HourDone(d, group, unreadable) ensures exists a0 :: a0 in dir && ComesFrom(a, a0, cutoff) {
      HourTouchesOnlyItselfOr(d, group, cutoff, hour, unreadable, a);
      if InHour(a, cutoff, hour) { HourSegmentComesFrom(dir, d, group, cutoff, hour, unreadable, a); }
    }
  }

  lemma PairsCarryOver(dir: Directory, d: Directory, d': Directory, cutoff: int, hour: int)
    requires PairsAreOriginal(dir, d, cutoff)
    requires forall c :: c in d' && !InHour(c, cutoff, hour) ==> c in d
    requires forall a, b :: a in d' && b in d' && a != b && InHour(a, cutoff, hour) && InHour(b, cutoff, hour) ==> a in dir && b in dir
    ensures PairsAreOriginal(dir, d', cutoff)
  {
  }

  lemma HourPairsStayOriginal(dir: Directory, d: Directory, group: seq<Cursor>, cutoff: int, hour: int, unreadable: Unread)
    requires Traced(dir, d, cutoff) && HourIntact(d, group, cutoff, hour) && forall c :: c in group ==> c in dir
    ensures PairsAreOriginal(dir, HourDone(d, group, unreadable), cutoff)
  {
    var d' := HourDone(d, group, unreadable);
    forall c | c in d' && !InHour(c, cutoff, hour) ensures c in d {
      HourTouchesOnlyItself(d, group, cutoff, hour, unreadable, c);
    }
    forall a, b | a in d' && b in d' && a != b && InHour(a, cutoff, hour) && InHour(b, cutoff, hour)
      ensures a in dir && b in dir
    {
      HourPairIsOriginal(dir, d, group, cutoff, hour, unreadable, a, b);
    }
    PairsCarryOver(dir, d, d', cutoff, hour);
  }

  lemma HourTouchesOnlyItselfOr(dir: Directory, group: seq<Cursor>, cutoff: int, hour: int, unreadable: Unread, c: Cursor)
    requires HourIntact(dir, group, cutoff, hour)
    ensures !InHour(c, cutoff, hour) ==> (c in HourDone(dir, group, unreadable) <==> c in dir)
  {
    if !InHour(c, cutoff, hour) { HourTouchesOnlyItself(dir, group, cutoff, hour, unreadable, c); }
  }

  lemma {:induction false} HoursStayTraced(dir: Directory, listed: seq<Cursor>, cutoff: int, hours: seq<int>, unreadable: Unread)
    requires WholeListing(dir, listed) && Ascending(hours)
    ensures Traced(dir, HoursDone(dir, listed, cutoff, hours, unreadable), cutoff)
    decreases |hours|
  {
    if hours == [] {
      forall a | a in dir ensures exists a0 :: a0 in dir && ComesFrom(a, a0, cutoff) {
        assert ComesFrom(a, a, cutoff);
      }
    } else {
      var front, hour := hours[..|hours| - 1], hours[|hours| - 1];
      HoursStayTraced(dir, listed, cutoff, front, unreadable);
      NextHourIntact(dir, listed, cutoff, hours, unreadable);
      GroupHolds(listed, cutoff, hour);
      var d, group := HoursDone(dir, listed, cutoff, front, unreadable), GroupOf(listed, cutoff, hour);
      HourStaysTraced(dir, d, group, cutoff, hour, unreadable);
      HourPairsStayOriginal(dir, d, group, cutoff, hour, unreadable);
    }
  }

  lemma LaterHourEndsLater(a: Cursor, b: Cursor)
    requires HourOf(a) < HourOf(b)
    ensures a.Last() < b.Last()
  {
  }

  lemma NestingComesFromNesting(dir: Directory, d: Directory, cutoff: int, a: Cursor, b: Cursor)
    requires Traced(dir, d, cutoff) && a in d && b in d && StrictlyInside(a, b)
    ensures !ContainmentFree(dir)
  {
    var a0 :| a0 in dir && ComesFrom(a, a0, cutoff);
    var b0 :| b0 in dir && ComesFrom(b, b0, cutoff);
    if a == a0 && b == b0 {
    } else if b == b0 && !Closed(b, cutoff) {
      assert StrictlyInside(a0, b0);
    } else if HourOf(a) == HourOf(b) {
      assert a in dir && b in dir;
    } else {
      if HourOf(b) < HourOf(a) { LaterHourEndsLater(b, a); }
      LaterHourEndsLater(a0, b0);
      assert StrictlyInside(a0, b0);
    }
  }

  /** A listing in which nothing contains anything stays one: nesting goes on meaning an interruption. */
  lemma ContainmentFreeStaysSo(dir: Directory, listed: seq<Cursor>, cutoff: int, hours: seq<int>, unreadable: Unread)
    requires WholeListing(dir, listed) && Ascending(hours) && ContainmentFree(dir)
    ensures ContainmentFree(HoursDone(dir, listed, cutoff, hours, unreadable))
  {
    HoursStayTraced(dir, listed, cutoff, hours, unreadable);
    var d := HoursDone(dir, listed, cutoff, hours, unreadable);
    forall a, b | a in d && b in d ensures !StrictlyInside(a, b) {
      if StrictlyInside(a, b) { NestingComesFromNesting(dir, d, cutoff, a, b); }
    }
  }

  // ---- a repeated run changes nothing ---------------------------------------------------

  ghost predicate HourSettled(d: Directory, cutoff: int, hour: int) {
    forall a, b :: a in d && b in d && InHour(a, cutoff, hour) && InHour(b, cutoff, hour) ==> a == b
  }

  lemma AtMostOneIsSame(xs: seq<Cursor>, a: Cursor, b: Cursor)
    requires |xs| <= 1 && a in xs && b in xs
    ensures a == b
  {
  }

  /** What the hour's group would be merged from read, or there was nothing to merge. */
  predicate HourRead(dir: Directory, group: seq<Cursor>, unreadable: Unread)
    requires OneKind(group)
  {
    |group| <= 1 || !PlanOf(group, Reading(dir, unreadable)).merge.Unreadable?
  }

  /** Every hour of a run read, each in the directory the ones before it left. */
  predicate HoursRead(dir: Directory, listed: seq<Cursor>, cutoff: int, hours: seq<int>, unreadable: Unread) {
    hours != [] ==>
      var front := hours[..|hours| - 1];
      GroupHolds(listed, cutoff, hours[|hours| - 1]);
      && HoursRead(dir, listed, cutoff, front, unreadable)
      && HourRead(HoursDone(dir, listed, cutoff, front, unreadable), GroupOf(listed, cutoff, hours[|hours| - 1]), unreadable)
  }

  /** With nothing empty, a merge that did not fail to read leaves at most one segment unmerged. */
  lemma NothingMergedIsOne(dir: Directory, group: seq<Cursor>, unreadable: Unread)
    requires OneKind(group) && forall c :: c in group ==> c in dir && RowsOf(dir[c]) != []
    requires !PlanOf(group, Reading(dir, unreadable)).merge.Unreadable?
    ensures var plan := PlanOf(group, Reading(dir, unreadable));
            plan.merge.Into? <==> |plan.existing| > 1
  {
    var plan := PlanOf(group, Reading(dir, unreadable));
    PlansAreSound(group, Reading(dir, unreadable));
    assert |plan.existing| > 0 ==> plan.existing[0] in plan.existing;
  }

  lemma HourEndsSettled(dir: Directory, group: seq<Cursor>, cutoff: int, hour: int, unreadable: Unread)
    requires HourIntact(dir, group, cutoff, hour) && forall c :: c in group ==> RowsOf(dir[c]) != []
    requires HourRead(dir, group, unreadable)
    ensures HourSettled(HourDone(dir, group, unreadable), cutoff, hour)
  {
    var plan := PlanOf(group, Reading(dir, unreadable));
    HourEndsAs(dir, group, cutoff, hour, unreadable);
    PlansAreSound(group, Reading(dir, unreadable));
    var d := HourDone(dir, group, unreadable);
    forall a, b | a in d && b in d && InHour(a, cutoff, hour) && InHour(b, cutoff, hour) ensures a == b {
      if |group| <= 1 {
        AtMostOneIsSame(group, a, b);
      } else if !plan.merge.Into? {
        assert a in plan.existing && b in plan.existing;
        NothingMergedIsOne(dir, group, unreadable);
        AtMostOneIsSame(plan.existing, a, b);
      }
    }
  }

  lemma LastHourSettles(dir: Directory, listed: seq<Cursor>, cutoff: int, hours: seq<int>, unreadable: Unread)
    requires WholeListing(dir, listed) && Ascending(hours) && hours != []
    requires (forall c :: c in dir ==> RowsOf(dir[c]) != []) && HoursRead(dir, listed, cutoff, hours, unreadable)
    ensures HourSettled(HoursDone(dir, listed, cutoff, hours, unreadable), cutoff, hours[|hours| - 1])
  {
    var front, last := hours[..|hours| - 1], hours[|hours| - 1];
    var d, group := HoursDone(dir, listed, cutoff, front, unreadable), GroupOf(listed, cutoff, last);
    NextHourIntact(dir, listed, cutoff, hours, unreadable);
    GroupHolds(listed, cutoff, last);
    forall c | c in group ensures c in d && d[c] == dir[c] {
      assert forall h :: h in front ==> h < last;
      HoursTouchOnlyThemselves(dir, listed, cutoff, front, unreadable, c);
    }
    HourEndsSettled(d, group, cutoff, last, unreadable);
  }

  lemma OtherHourStaysSettled(d: Directory, group: seq<Cursor>, cutoff: int, last: int, hour: int, unreadable: Unread)
    requires HourIntact(d, group, cutoff, last) && hour != last && HourSettled(d, cutoff, hour)
    ensures HourSettled(HourDone(d, group, unreadable), cutoff, hour)
  {
    forall c | InHour(c, cutoff, hour) ensures c in HourDone(d, group, unreadable) <==> c in d {
      HourTouchesOnlyItself(d, group, cutoff, last, unreadable, c);
    }
  }

  lemma {:induction false} HoursEndSettled(dir: Directory, listed: seq<Cursor>, cutoff: int, hours: seq<int>, hour: int, unreadable: Unread)
    requires WholeListing(dir, listed) && Ascending(hours) && hour in hours
    requires (forall c :: c in dir ==> RowsOf(dir[c]) != []) && HoursRead(dir, listed, cutoff, hours, unreadable)
    ensures HourSettled(HoursDone(dir, listed, cutoff, hours, unreadable), cutoff, hour)
    decreases |hours|
  {
    var front, last := hours[..|hours| - 1], hours[|hours| - 1];
    if hour == last {
      LastHourSettles(dir, listed, cutoff, hours, unreadable);
    } else {
      HoursEndSettled(dir, listed, cutoff, front, hour, unreadable);
      NextHourIntact(dir, listed, cutoff, hours, unreadable);
      OtherHourStaysSettled(HoursDone(dir, listed, cutoff, front, unreadable), GroupOf(listed, cutoff, last), cutoff, last, hour, unreadable);
    }
  }

  lemma LargeGroupIsUnsettled(d: Directory, group: seq<Cursor>, cutoff: int, hour: int)
    requires |group| > 1 && Distinct(group) && forall c :: c in group ==> c in d && InHour(c, cutoff, hour)
    ensures !HourSettled(d, cutoff, hour)
  {
    assert group[0] in group && group[1] in group && group[0] != group[1];
  }

  lemma {:induction false} SettledHoursAreSkipped(d: Directory, again: seq<Cursor>, cutoff: int, hours: seq<int>, unreadable: Unread)
    requires WholeListing(d, again) && forall h :: h in hours ==> HourSettled(d, cutoff, h)
    ensures HoursDone(d, again, cutoff, hours, unreadable) == d
    decreases |hours|
  {
    if hours != [] {
      var front, last := hours[..|hours| - 1], hours[|hours| - 1];
      SettledHoursAreSkipped(d, again, cutoff, front, unreadable);
      GroupHolds(again, cutoff, last);
      if |GroupOf(again, cutoff, last)| > 1 { LargeGroupIsUnsettled(d, GroupOf(again, cutoff, last), cutoff, last); }
    }
  }

  lemma HourWasListed(dir: Directory, d: Directory, listed: seq<Cursor>, cutoff: int, c: Cursor)
    requires WholeListing(dir, listed) && Traced(dir, d, cutoff) && c in d && Closed(c, cutoff)
    ensures HourOf(c) in HoursIn(listed, cutoff)
  {
    var c0 :| c0 in dir && ComesFrom(c, c0, cutoff);
    assert c0 in listed && Closed(c0, cutoff) && HourOf(c0) == HourOf(c);
  }

  /** Every hour the finished run left segments in was an hour it compacted. */
  lemma HoursLeftWereListed(dir: Directory, listed: seq<Cursor>, cutoff: int, hours: seq<int>, again: seq<Cursor>, unreadable: Unread)
    requires WholeListing(dir, listed) && Ascending(hours)
    requires WholeListing(HoursDone(dir, listed, cutoff, hours, unreadable), again)
    ensures HoursIn(again, cutoff) <= HoursIn(listed, cutoff)
  {
    var d := HoursDone(dir, listed, cutoff, hours, unreadable);
    HoursStayTraced(dir, listed, cutoff, hours, unreadable);
    forall c | c in again && Closed(c, cutoff) ensures HourOf(c) in HoursIn(listed, cutoff) {
      assert c in d;
      HourWasListed(dir, d, listed, cutoff, c);
    }
  }

  lemma HourReads(d: Directory, group: seq<Cursor>, unreadable: Unread)
    requires OneKind(group) && forall c :: c in group ==> c in d && c !in unreadable.merge
    ensures HourRead(d, group, unreadable)
  {
    PlansAreSound(group, Reading(d, unreadable));
    var plan := PlanOf(group, Reading(d, unreadable));
    assert |plan.existing| > 0 ==> plan.existing[0] in plan.existing;
  }

  /** A run is complete wherever everything listed reads when it comes to merging. */
  lemma {:induction false} ReadableHoursComplete(dir: Directory, listed: seq<Cursor>, cutoff: int, hours: seq<int>, unreadable: Unread)
    requires WholeListing(dir, listed) && Ascending(hours) && forall c :: c in listed ==> c !in unreadable.merge
    ensures HoursRead(dir, listed, cutoff, hours, unreadable)
    decreases |hours|
  {
    if hours != [] {
      var front, hour := hours[..|hours| - 1], hours[|hours| - 1];
      ReadableHoursComplete(dir, listed, cutoff, front, unreadable);
      NextHourIntact(dir, listed, cutoff, hours, unreadable);
      GroupHolds(listed, cutoff, hour);
      HourReads(HoursDone(dir, listed, cutoff, front, unreadable), GroupOf(listed, cutoff, hour), unreadable);
    }
  }

  /** A segment belongs to the hour a clock shows at its last receipt. */
  lemma HourOfTheClock(c: Cursor, days: int, hour: int, minute: int, second: int, micro: int)
    requires c.Last() == Calendar.InstantOf(days, hour, minute, second, micro)
    requires 0 <= hour < 24 && 0 <= minute < 60 && 0 <= second < 60 && 0 <= micro < 1_000_000
    ensures HourOf(c) == days * 24 + hour
  {
    var within := (minute * 60 + second) * 1_000_000 + micro;
    assert c.Last() == (days * 24 + hour) * HOUR_MICROS + within;
  }

  lemma SettledHoldsOne(d: Directory, cutoff: int, a: Cursor, b: Cursor)
    requires HourSettled(d, cutoff, HourOf(a)) && a in d && b in d
    requires a.Time? && b.Time? && a.lastMicros < cutoff && b.lastMicros < cutoff && HourOf(a) == HourOf(b)
    ensures a == b
  {
  }

  lemma LeftHourIsSettled(
      dir: Directory, listed: seq<Cursor>, cutoff: int, hours: seq<int>, unreadable: Unread, d: Directory, a: Cursor)
    requires WholeListing(dir, listed) && Ascending(hours) && forall h :: h in hours <==> h in HoursIn(listed, cutoff)
    requires (forall c :: c in dir ==> RowsOf(dir[c]) != []) && HoursRead(dir, listed, cutoff, hours, unreadable)
    requires d == HoursDone(dir, listed, cutoff, hours, unreadable) && a in d && Closed(a, cutoff)
    ensures HourSettled(d, cutoff, HourOf(a))
  {
    HoursStayTraced(dir, listed, cutoff, hours, unreadable);
    HourWasListed(dir, d, listed, cutoff, a);
    HoursEndSettled(dir, listed, cutoff, hours, HourOf(a), unreadable);
  }

  /** After a completed run no two segments end before the cutoff in one hour. */
  lemma ClosedHoursEndAsOne(
      dir: Directory, listed: seq<Cursor>, cutoff: int, hours: seq<int>, unreadable: Unread, d: Directory, a: Cursor, b: Cursor)
    requires WholeListing(dir, listed) && Ascending(hours) && forall h :: h in hours <==> h in HoursIn(listed, cutoff)
    requires (forall c :: c in dir ==> RowsOf(dir[c]) != []) && HoursRead(dir, listed, cutoff, hours, unreadable)
    requires d == HoursDone(dir, listed, cutoff, hours, unreadable) && a in d && b in d
    requires a.Time? && b.Time? && a.lastMicros < cutoff && b.lastMicros < cutoff && HourOf(a) == HourOf(b)
    ensures a == b
  {
    LeftHourIsSettled(dir, listed, cutoff, hours, unreadable, d, a);
    SettledHoldsOne(d, cutoff, a, b);
  }

  /** A completed run, repeated with the same cutoff, changes nothing, whatever reads the second time. */
  lemma RepeatedRunChangesNothing(
      dir: Directory, listed: seq<Cursor>, cutoff: int, hours: seq<int>, unreadable: Unread,
      again: seq<Cursor>, hours': seq<int>, unreadable': Unread)
    requires WholeListing(dir, listed) && Ascending(hours) && forall h :: h in hours <==> h in HoursIn(listed, cutoff)
    requires (forall c :: c in dir ==> RowsOf(dir[c]) != []) && HoursRead(dir, listed, cutoff, hours, unreadable)
    requires var d := HoursDone(dir, listed, cutoff, hours, unreadable);
             WholeListing(d, again) && forall h :: h in hours' <==> h in HoursIn(again, cutoff)
    ensures var d := HoursDone(dir, listed, cutoff, hours, unreadable);
            HoursDone(d, again, cutoff, hours', unreadable') == d
  {
    var d := HoursDone(dir, listed, cutoff, hours, unreadable);
    HoursLeftWereListed(dir, listed, cutoff, hours, again, unreadable);
    forall h | h in hours' ensures HourSettled(d, cutoff, h) {
      HoursEndSettled(dir, listed, cutoff, hours, h, unreadable);
    }
    SettledHoursAreSkipped(d, again, cutoff, hours', unreadable');
  }

  // ---- the run itself -----------------------------------------------------------------------

  lemma LeastExists(s: set<int>)
    requires s != {}
    ensures exists m :: m in s && AtMostAll(m, s)
    decreases |s|
  {
    var x: int :| x in s;
    if !AtMostAll(x, s) {
      var smaller: set<int> := set k | k in s && k < x;
      var k :| k in s && k < x;
      assert k in smaller && x !in smaller && smaller <= s;
      assert smaller < s;
      CardinalityGrows(smaller, s);
      LeastExists(smaller);
      var m :| m in smaller && AtMostAll(m, smaller);
      forall k | k in s ensures m <= k {
        if k < x { assert k in smaller; }
      }
    }
  }

  lemma CardinalityGrows(part: set<int>, whole: set<int>)
    requires part < whole
    ensures |part| < |whole|
  {
    assert whole == part + (whole - part);
    assert |whole| == |part| + |whole - part|;
    assert whole - part != {};
  }

  predicate AtMostAll(m: int, s: set<int>) {
    forall k :: k in s ==> m <= k
  }

  /** The segments of one hour merged into one, unless there is a single one. */
  method CompactHour(p: Partition, group: seq<Cursor>, unreadable: Unread) returns (read: bool)
    requires p.Valid() && Distinct(group) && OneKind(group) && AllFit(group) && forall c :: c in group ==> c in p.files
    modifies p
    ensures p.Valid() && p.files == HourDone(old(p.files), group, unreadable)
    ensures read == HourRead(old(p.files), group, unreadable)
  {
    if |group| <= 1 { return true; }
    var outcome := p.CompactSet(group, unreadable);
    read := !outcome.WouldNotRead?;
  }

  /** The hours done so far are the earliest, in order; the rest are left. */
  ghost predicate Progress(all: set<int>, hours: seq<int>, left: set<int>) {
    && Ascending(hours) && left <= all
    && (forall h :: h in hours <==> h in all - left)
    && (forall h, k :: h in hours && k in left ==> h < k)
  }

  lemma HoursAdvance(all: set<int>, hours: seq<int>, left: set<int>, hour: int)
    requires Progress(all, hours, left) && hour in left && AtMostAll(hour, left)
    ensures Progress(all, hours + [hour], left - {hour}) && (hours + [hour])[..|hours|] == hours
  {
    assert forall i :: 0 <= i < |hours| ==> hours[i] in hours;
  }

  /** Each closed hour in turn, from one listing made first; an hour that will not read ends the run. */
  method CompactClosedHours(p: Partition, listed: seq<Cursor>, cutoff: int, unreadable: Unread)
    returns (hours: seq<int>, complete: bool)
    requires p.Valid() && WholeListing(p.files, listed) && AllFit(listed)
    modifies p
    ensures p.Valid() && Ascending(hours)
    ensures p.files == HoursDone(old(p.files), listed, cutoff, hours, unreadable)
    ensures complete ==> forall h :: h in hours <==> h in HoursIn(listed, cutoff)
    ensures complete <==> HoursRead(old(p.files), listed, cutoff, hours, unreadable)
  {
    hours := [];
    var left := HoursIn(listed, cutoff);
    while left != {}
      invariant p.Valid() && p.files == HoursDone(old(p.files), listed, cutoff, hours, unreadable)
      invariant Progress(HoursIn(listed, cutoff), hours, left)
      invariant HoursRead(old(p.files), listed, cutoff, hours, unreadable)
      decreases |left|
    {
      LeastExists(left);
      var hour :| hour in left && AtMostAll(hour, left);
      HoursAdvance(HoursIn(listed, cutoff), hours, left, hour);
      NextHourIntact(old(p.files), listed, cutoff, hours + [hour], unreadable);
      GroupHolds(listed, cutoff, hour);
      hours := hours + [hour];
      left := left - {hour};
      var read := CompactHour(p, GroupOf(listed, cutoff, hour), unreadable);
      if !read { return hours, false; }
    }
    complete := true;
  }
}
