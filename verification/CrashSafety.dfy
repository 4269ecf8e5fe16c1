/**
  Capture committing segments and compaction replacing them, over one directory, one I/O action at a
  time, killed or crashed between any two. A crash keeps a prefix of the directory operations issued,
  in order, no shorter than the last directory sync; it may tear a file that was not synced.
 */
module CrashSafety {
  import opened Cursors
  import opened Segments
  import opened Compaction

  datatype File = File(segment: Segment, synced: bool)

  /** Committed names, which a listing returns, and temporaries, which it skips. */
  datatype Disk = Disk(segments: map<Cursor, File>, temps: map<Cursor, File>)

  function View(d: Disk): Directory {
    map c | c in d.segments :: d.segments[c].segment
  }

  // ---- directory and file operations ---------------------------------------------

  function Create(d: Disk, c: Cursor): Disk {
    d.(temps := d.temps[c := File(Segment({}, []), false)])
  }

  function Fill(d: Disk, c: Cursor, segment: Segment): Disk {
    d.(temps := d.temps[c := File(segment, false)])
  }

  function SyncFile(d: Disk, c: Cursor): Disk
    requires c in d.temps
  {
    d.(temps := d.temps[c := File(d.temps[c].segment, true)])
  }

  function Rename(d: Disk, c: Cursor): Disk
    requires c in d.temps
  {
    Disk(d.segments[c := d.temps[c]], d.temps - {c})
  }

  function Unlink(d: Disk, c: Cursor): Disk {
    d.(segments := d.segments - {c})
  }

  function Discard(d: Disk, c: Cursor): Disk {
    d.(temps := d.temps - {c})
  }

  function TornFile(f: File, c: Cursor, torn: Directory): File {
    if !f.synced && c in torn then File(torn[c], false) else f
  }

  function Torn(d: Disk, torn: Directory): Disk {
    Disk(map c | c in d.segments :: TornFile(d.segments[c], c, torn), map c | c in d.temps :: TornFile(d.temps[c], c, torn))
  }

  // ---- the two processes -----------------------------------------------------------

  datatype Stage = Created | Filled | Synced | Visible

  datatype Writer = Quiet | Committing(c: Cursor, segment: Segment, stage: Stage)

  /** One run: what it listed and found, what of it read, and what it decided. */
  datatype Run = Run(listed: seq<Cursor>, found: Directory, reading: Reads) {
    function Plan(): Plan
      requires OneKind(listed)
    {
      PlanOf(listed, reading)
    }
  }

  datatype Compactor =
    | Resting
    | Removing(run: Run, plan: Plan, left: set<Cursor>)
    | Merging(run: Run, plan: Plan, stage: Stage)
    | Unlinking(run: Run, plan: Plan, left: set<Cursor>)

  datatype State = State(history: seq<Disk>, durable: nat, writer: Writer, compactor: Compactor)

  predicate Shaped(s: State) {
    s.history != [] && s.durable < |s.history|
  }

  function Now(s: State): Disk
    requires s.history != []
  {
    s.history[|s.history| - 1]
  }

  /** A directory operation: a further state a crash may or may not reach. */
  function Issue(s: State, d: Disk): State {
    s.(history := s.history + [d])
  }

  /** A change to a file's contents, which no directory operation orders. */
  function Change(s: State, d: Disk): State
    requires s.history != []
  {
    s.(history := s.history[|s.history| - 1 := d])
  }

  function SyncDir(s: State): State
    requires s.history != []
  {
    s.(durable := |s.history| - 1)
  }

  datatype Step =
    | WriterCreate(c: Cursor, segment: Segment) | WriterFill | WriterSync | WriterRename | WriterSyncDir
    | RunBegin(listed: seq<Cursor>, unreadable: Unread) | RunRemove(c: Cursor)
    | RunCreate | RunFill | RunSync | RunSame | RunRename | RunSyncDir | RunUnlink(c: Cursor) | RunEnd
    | Cleanup(c: Cursor) | Kill | Crash(keep: nat, torn: Directory)

  /** A name capture flushes under: a receipt range and a counter that starts at one. */
  predicate Flushed(c: Cursor) {
    c.Time? && c.flush >= 1
  }

  function RunOver(d: Disk, listed: seq<Cursor>, unreadable: Unread): Run
    requires forall c :: c in listed ==> c in d.segments
  {
    Run(listed, View(d), Reading(View(d), unreadable))
  }

  predicate InUse(s: State, c: Cursor) {
    || (s.writer.Committing? && s.writer.c == c)
    || (s.compactor.Merging? && s.compactor.plan.merge.Into? && s.compactor.plan.merge.name == c)
  }

  predicate Enabled(s: State, step: Step)
    requires Shaped(s)
  {
    var now := Now(s);
    match step
    case WriterCreate(c, segment) =>
      s.writer.Quiet? && c !in now.segments && RowsOf(segment) != [] && (s.compactor.Resting? || Flushed(c))
    case WriterFill => s.writer.Committing? && s.writer.stage.Created?
    case WriterSync => s.writer.Committing? && s.writer.stage.Filled? && s.writer.c in now.temps
    case WriterRename => s.writer.Committing? && s.writer.stage.Synced? && s.writer.c in now.temps
    case WriterSyncDir => s.writer.Committing? && s.writer.stage.Visible?
    case RunBegin(listed, unreadable) =>
      && s.compactor.Resting? && (s.writer.Committing? ==> Flushed(s.writer.c))
      && OneKind(listed) && (forall c :: c in listed ==> c in now.segments)
      && NoStray(View(now), listed, RunOver(now, listed, unreadable).Plan())
    case RunRemove(c) => s.compactor.Removing? && c in s.compactor.left
    case RunCreate => s.compactor.Removing? && s.compactor.left == {} && s.compactor.plan.merge.Into?
    case RunFill => s.compactor.Merging? && s.compactor.stage.Created? && s.compactor.plan.merge.Into?
    case RunSync =>
      && s.compactor.Merging? && s.compactor.stage.Filled? && s.compactor.plan.merge.Into?
      && s.compactor.plan.merge.name in now.temps
    case RunSame =>
      && s.compactor.Merging? && s.compactor.stage.Filled? && s.compactor.plan.merge.Into?
      && s.compactor.plan.merge.name in now.segments
      && now.segments[s.compactor.plan.merge.name].segment == Written(s.compactor.plan.merge.rows)
    case RunRename =>
      && s.compactor.Merging? && s.compactor.stage.Synced? && s.compactor.plan.merge.Into?
      && s.compactor.plan.merge.name in now.temps
    case RunSyncDir => s.compactor.Merging? && s.compactor.stage.Visible? && s.compactor.plan.merge.Into?
    case RunUnlink(c) => s.compactor.Unlinking? && c in s.compactor.left
    case RunEnd =>
      || (s.compactor.Removing? && s.compactor.left == {} && !s.compactor.plan.merge.Into?)
      || (s.compactor.Unlinking? && s.compactor.left == {})
    case Cleanup(c) => !InUse(s, c)
    case Kill => true
    case Crash(keep, _) => s.durable <= keep < |s.history|
  }

  function Do(s: State, step: Step): State
    requires Shaped(s) && Enabled(s, step)
  {
    var now := Now(s);
    match step
    case WriterCreate(c, segment) => Issue(s, Create(now, c)).(writer := Committing(c, segment, Created))
    case WriterFill => Change(s, Fill(now, s.writer.c, s.writer.segment)).(writer := s.writer.(stage := Filled))
    case WriterSync => Change(s, SyncFile(now, s.writer.c)).(writer := s.writer.(stage := Synced))
    case WriterRename => Issue(s, Rename(now, s.writer.c)).(writer := s.writer.(stage := Visible))
    case WriterSyncDir => SyncDir(s).(writer := Quiet)
    case RunBegin(listed, unreadable) =>
      var run := RunOver(now, listed, unreadable);
      s.(compactor := Removing(run, run.Plan(), run.Plan().doomed))
    case RunRemove(c) =>
      Issue(s, Unlink(now, c)).(compactor := Removing(s.compactor.run, s.compactor.plan, s.compactor.left - {c}))
    case RunCreate =>
      Issue(s, Create(now, s.compactor.plan.merge.name)).(compactor := Merging(s.compactor.run, s.compactor.plan, Created))
    case RunFill =>
      var merge := s.compactor.plan.merge;
      Change(s, Fill(now, merge.name, Written(merge.rows))).(compactor := s.compactor.(stage := Filled))
    case RunSync => Change(s, SyncFile(now, s.compactor.plan.merge.name)).(compactor := s.compactor.(stage := Synced))
    case RunSame =>
      Issue(s, Discard(now, s.compactor.plan.merge.name)).(
        compactor := Unlinking(s.compactor.run, s.compactor.plan, Originals(s.compactor.plan)))
    case RunRename => Issue(s, Rename(now, s.compactor.plan.merge.name)).(compactor := s.compactor.(stage := Visible))
    case RunSyncDir => SyncDir(s).(compactor := Unlinking(s.compactor.run, s.compactor.plan, Originals(s.compactor.plan)))
    case RunUnlink(c) =>
      Issue(s, Unlink(now, c)).(compactor := Unlinking(s.compactor.run, s.compactor.plan, s.compactor.left - {c}))
    case RunEnd => s.(compactor := Resting)
    case Cleanup(c) => Issue(s, Discard(now, c))
    case Kill => s.(writer := Quiet, compactor := Resting)
    case Crash(keep, torn) => State([Torn(s.history[keep], torn)], 0, Quiet, Resting)
  }

  // ---- what every step keeps ---------------------------------------------------------

  ghost predicate Grows(a: Disk, b: Disk) {
    forall r :: Holds(View(a), r) ==> Holds(View(b), r)
  }

  predicate AllSynced(d: Disk) {
    forall c :: c in d.segments ==> d.segments[c].synced
  }

  /** Nothing a crash may come back to is partly written, and none holds less than an earlier one. */
  ghost predicate HistoryHolds(s: State) {
    && Shaped(s)
    && (forall i :: 0 <= i < |s.history| ==> AllSynced(s.history[i]))
    && (forall i, j :: s.durable <= i <= j < |s.history| ==> Grows(s.history[i], s.history[j]))
  }

  predicate TempHolds(d: Disk, c: Cursor, segment: Segment, stage: Stage) {
    && (stage.Filled? || stage.Synced? ==> c in d.temps && d.temps[c].segment == segment)
    && (stage.Synced? ==> d.temps[c].synced)
  }

  ghost predicate WriterHolds(s: State)
    requires Shaped(s)
  {
    s.writer.Committing? ==>
      && (!s.writer.stage.Visible? ==> s.writer.c !in Now(s).segments)
      && TempHolds(Now(s), s.writer.c, s.writer.segment, s.writer.stage)
      && (!s.compactor.Resting? ==> Flushed(s.writer.c))
      && (s.writer.stage.Visible? ==> HoldsAll(Now(s), s.writer.segment))
  }

  ghost predicate HoldsAll(d: Disk, segment: Segment) {
    forall r :: r in RowsOf(segment) ==> Holds(View(d), r)
  }

  ghost predicate SoundRun(run: Run, plan: Plan) {
    && OneKind(run.listed) && (forall c :: c in run.listed ==> c in run.found)
    && ReadsFrom(run.reading, run.found) && SoundPlan(plan, run.listed, run.reading)
  }

  /** The listed segments are as found, but for those removed. */
  ghost predicate AsFound(d: Disk, run: Run, gone: set<Cursor>) {
    forall c :: c in run.listed && c !in gone ==> c in d.segments && c in run.found && d.segments[c].segment == run.found[c]
  }

  predicate NameIsFree(d: Disk, run: Run, plan: Plan, gone: set<Cursor>) {
    plan.merge.Into? && plan.merge.name in d.segments ==> plan.merge.name in run.listed && plan.merge.name !in gone
  }

  predicate Replacement(d: Disk, plan: Plan) {
    && plan.merge.Into? && plan.merge.name in d.segments
    && d.segments[plan.merge.name].segment == Written(plan.merge.rows)
  }

  ghost predicate CompactorHolds(now: Disk, compactor: Compactor) {
    match compactor
    case Resting => true
    case Removing(run, plan, left) =>
      && SoundRun(run, plan) && left <= plan.doomed
      && NameIsFree(now, run, plan, plan.doomed - left) && AsFound(now, run, plan.doomed - left)
    case Merging(run, plan, stage) =>
      && SoundRun(run, plan) && plan.merge.Into?
      && TempHolds(now, plan.merge.name, Written(plan.merge.rows), stage)
      && (if stage.Visible? then Replacement(now, plan) && AsFound(now, run, plan.doomed + {plan.merge.name})
          else NameIsFree(now, run, plan, plan.doomed) && AsFound(now, run, plan.doomed))
    case Unlinking(run, plan, left) =>
      && SoundRun(run, plan) && plan.merge.Into? && left <= Originals(plan)
      && Replacement(now, plan) && AsFound(now, run, plan.doomed + {plan.merge.name} + (Originals(plan) - left))
  }

  ghost predicate Inv(s: State) {
    HistoryHolds(s) && WriterHolds(s) && CompactorHolds(Now(s), s.compactor)
  }

  // ---- each kind of step, on the history --------------------------------------------------

  lemma IssueKeeps(s: State, d: Disk)
    requires HistoryHolds(s) && Grows(Now(s), d) && AllSynced(d)
    ensures HistoryHolds(Issue(s, d))
  {
    var t := Issue(s, d);
    forall i, j | t.durable <= i <= j < |t.history| ensures Grows(t.history[i], t.history[j]) {
      if j == |s.history| && i < j { assert Grows(s.history[i], s.history[j - 1]); }
    }
  }

  lemma ChangeKeeps(s: State, d: Disk)
    requires HistoryHolds(s) && d.segments == Now(s).segments
    ensures HistoryHolds(Change(s, d))
  {
    var t := Change(s, d);
    assert View(d) == View(Now(s));
    forall i, j | t.durable <= i <= j < |t.history| ensures Grows(t.history[i], t.history[j]) {
      assert Grows(s.history[i], s.history[j]);
      assert View(t.history[i]) == View(s.history[i]) && View(t.history[j]) == View(s.history[j]);
    }
  }

  lemma SameSegmentsGrow(a: Disk, b: Disk)
    requires b.segments == a.segments
    ensures Grows(a, b)
  {
    assert View(a) == View(b);
  }

  /** A committed file is whole whatever a crash tears. */
  lemma TearingSparesSegments(d: Disk, torn: Directory)
    requires AllSynced(d)
    ensures View(Torn(d, torn)) == View(d) && AllSynced(Torn(d, torn))
  {
  }

  /** A crash may make anything at all of a file that was not synced, whatever its name, and nothing of one that was. */
  lemma CrashTearsTheUnsynced(d: Disk, c: Cursor, torn: Directory)
    ensures c in d.temps && c in torn ==> Torn(d, torn).temps[c].segment == (if d.temps[c].synced then d.temps[c].segment else torn[c])
    ensures c in d.segments && c in torn ==>
              Torn(d, torn).segments[c].segment == (if d.segments[c].synced then d.segments[c].segment else torn[c])
    ensures (c in d.temps <==> c in Torn(d, torn).temps) && (c in d.segments <==> c in Torn(d, torn).segments)
  {
  }

  /** A new name only adds rows; over an old name, the old rows must be in the new file. */
  lemma RenameGrows(d: Disk, c: Cursor)
    requires c in d.temps
    requires c in d.segments ==> forall r :: r in RowsOf(d.segments[c].segment) ==> r in RowsOf(d.temps[c].segment)
    ensures Grows(d, Rename(d, c))
  {
    forall r | Holds(View(d), r) ensures Holds(View(Rename(d, c)), r) {
      var k :| k in View(d) && r in RowsOf(View(d)[k]);
      assert k in View(Rename(d, c));
    }
  }

  /** Removing a file whose rows another file holds removes no row. */
  lemma UnlinkGrows(d: Disk, c: Cursor, w: Cursor)
    requires c in d.segments && w in d.segments && c != w
    requires forall r :: r in RowsOf(d.segments[c].segment) ==> r in RowsOf(d.segments[w].segment)
    ensures Grows(d, Unlink(d, c))
  {
    forall r | Holds(View(d), r) ensures Holds(View(Unlink(d, c)), r) {
      var k :| k in View(d) && r in RowsOf(View(d)[k]);
      assert if k == c then w in View(Unlink(d, c)) else k in View(Unlink(d, c));
    }
  }

  // ---- what a run may rely on ------------------------------------------------------------

  lemma NameIsNoFlush(run: Run, plan: Plan)
    requires SoundRun(run, plan) && plan.merge.Into?
    ensures !Flushed(plan.merge.name)
  {
  }

  lemma RunIsSound(d: Disk, listed: seq<Cursor>, unreadable: Unread)
    requires OneKind(listed) && forall c :: c in listed ==> c in d.segments
    ensures var run := RunOver(d, listed, unreadable); SoundRun(run, run.Plan())
  {
    PlansAreSound(listed, RunOver(d, listed, unreadable).reading);
  }

  /** A condemned segment still on disk has its holder beside it. */
  lemma DoomedHasHolder(d: Disk, run: Run, plan: Plan, left: set<Cursor>, c: Cursor) returns (w: Cursor)
    requires SoundRun(run, plan) && left <= plan.doomed && AsFound(d, run, plan.doomed - left) && c in left
    ensures c in d.segments && w in d.segments && c != w && w !in plan.doomed
    ensures forall r :: r in RowsOf(d.segments[c].segment) ==> r in RowsOf(d.segments[w].segment)
  {
    w :| CoversIn(run.listed, plan.doomed, run.reading.proof, c, w);
    assert run.found[c] == run.reading.proof[c] && run.found[w] == run.reading.proof[w];
    forall r | r in RowsOf(d.segments[c].segment) ensures r in RowsOf(d.segments[w].segment) {
      assert r in multiset(RowsOf(run.reading.proof[c]));
      assert r in multiset(RowsOf(run.reading.proof[w]));
    }
  }

  lemma OriginalIsMerged(run: Run, plan: Plan, c: Cursor)
    requires SoundRun(run, plan) && plan.merge.Into? && c in plan.existing
    ensures c in run.found && forall r :: r in RowsOf(run.found[c]) ==> r in RowsOf(Written(plan.merge.rows))
  {
    MergedRowsHold(plan.existing, run.reading.inputs);
    WrittenReadsBack(plan.merge.rows);
  }

  // ---- each process's steps ------------------------------------------------------------------

  lemma SyncDirKeeps(s: State)
    requires HistoryHolds(s)
    ensures HistoryHolds(SyncDir(s))
  {
  }

  /** The compactor's view of the disk is untouched by a name it neither lists nor takes. */
  lemma OtherFilesDoNotMatter(now: Disk, d: Disk, compactor: Compactor, c: Cursor)
    requires CompactorHolds(now, compactor) && (!compactor.Resting? ==> Flushed(c))
    requires c !in now.segments && d.segments - {c} == now.segments && d.temps - {c} == now.temps - {c}
    ensures CompactorHolds(d, compactor)
  {
    if !compactor.Resting? && compactor.plan.merge.Into? { NameIsNoFlush(compactor.run, compactor.plan); }
    assert forall k :: k != c ==> (k in d.segments <==> k in now.segments);
    assert forall k :: k in now.segments ==> d.segments[k] == (d.segments - {c})[k];
    assert forall k :: k != c && k in now.temps ==> k in now.temps - {c};
    assert forall k :: k != c && k in now.temps ==> k in d.temps && d.temps[k] == (d.temps - {c})[k] == now.temps[k];
  }

  lemma WriterCreateKeeps(s: State, c: Cursor, segment: Segment)
    requires Inv(s) && Enabled(s, WriterCreate(c, segment))
    ensures Inv(Do(s, WriterCreate(c, segment)))
  {
    var d := Create(Now(s), c);
    OtherFilesDoNotMatter(Now(s), d, s.compactor, c);
    SameSegmentsGrow(Now(s), d);
    IssueKeeps(s, d);
  }

  lemma WriterFileStepKeeps(s: State, step: Step)
    requires Inv(s) && Enabled(s, step) && (step.WriterFill? || step.WriterSync?)
    ensures Inv(Do(s, step))
  {
    var c := s.writer.c;
    var d := if step.WriterFill? then Fill(Now(s), c, s.writer.segment) else SyncFile(Now(s), c);
    OtherFilesDoNotMatter(Now(s), d, s.compactor, c);
    ChangeKeeps(s, d);
  }

  lemma WriterRenameKeeps(s: State)
    requires Inv(s) && Enabled(s, WriterRename)
    ensures Inv(Do(s, WriterRename))
  {
    var c := s.writer.c;
    var d := Rename(Now(s), c);
    OtherFilesDoNotMatter(Now(s), d, s.compactor, c);
    RenameGrows(Now(s), c);
    IssueKeeps(s, d);
    assert c in View(d);
  }

  lemma SameHistoryHolds(s: State, t: State)
    requires HistoryHolds(s) && t.history == s.history && (t.durable == s.durable || t.durable == |s.history| - 1)
    ensures HistoryHolds(t)
  {
    SyncDirKeeps(s);
  }

  lemma WriterStays(s: State, t: State)
    requires Shaped(s) && Shaped(t) && Now(t) == Now(s) && WriterHolds(s)
    requires (t.writer == s.writer || t.writer == Quiet) && (t.compactor == s.compactor || t.compactor == Resting)
    ensures WriterHolds(t)
  {
  }

  lemma SameDiskHolds(s: State, t: State)
    requires Inv(s) && t.history == s.history && (t.durable == s.durable || t.durable == |s.history| - 1)
    requires t.writer == s.writer || t.writer == Quiet
    requires t.compactor == s.compactor || t.compactor == Resting
    ensures Inv(t)
  {
    SameHistoryHolds(s, t);
    assert Now(t) == Now(s);
    WriterStays(s, t);
    SameCompactor(Now(s), s.compactor, t.compactor);
  }

  lemma SameCompactor(now: Disk, before: Compactor, after: Compactor)
    requires CompactorHolds(now, before) && (after == before || after == Resting)
    ensures CompactorHolds(now, after)
  {
  }

  lemma AcknowledgeKeeps(s: State, step: Step)
    requires Inv(s) && Enabled(s, step) && (step.WriterSyncDir? || step.RunEnd? || step.Kill?)
    ensures Inv(Do(s, step))
  {
    SameDiskHolds(s, Do(s, step));
  }

  /** A change of the disk that leaves the writer's own file alone. */
  predicate SparesWriter(s: State, d: Disk)
    requires Shaped(s)
  {
    s.writer.Committing? ==>
      && (s.writer.c in d.segments ==> s.writer.c in Now(s).segments)
      && (s.writer.c in Now(s).temps ==> s.writer.c in d.temps && d.temps[s.writer.c] == Now(s).temps[s.writer.c])
  }

  lemma CompactorIssues(s: State, d: Disk, compactor: Compactor)
    requires Inv(s) && Grows(Now(s), d) && AllSynced(d) && SparesWriter(s, d)
    requires !s.compactor.Resting? && CompactorHolds(d, compactor)
    ensures Inv(Issue(s, d).(compactor := compactor))
  {
    IssueKeeps(s, d);
    assert Now(Issue(s, d)) == d;
  }

  lemma CompactorChanges(s: State, d: Disk, compactor: Compactor)
    requires Inv(s) && d.segments == Now(s).segments && SparesWriter(s, d)
    requires !s.compactor.Resting? && CompactorHolds(d, compactor)
    ensures Inv(Change(s, d).(compactor := compactor))
  {
    ChangeKeeps(s, d);
    SameSegmentsGrow(Now(s), d);
    assert Now(Change(s, d)) == d;
  }

  lemma BegunRunHolds(now: Disk, run: Run, plan: Plan, listed: seq<Cursor>, unreadable: Unread)
    requires forall c :: c in listed ==> c in now.segments
    requires run == RunOver(now, listed, unreadable) && SoundRun(run, plan) && NoStray(View(now), listed, plan)
    ensures CompactorHolds(now, Removing(run, plan, plan.doomed))
  {
    assert plan.doomed - plan.doomed == {};
  }

  lemma BeginStepKeeps(s: State, listed: seq<Cursor>, unreadable: Unread)
    requires Inv(s) && Enabled(s, RunBegin(listed, unreadable))
    ensures Inv(Do(s, RunBegin(listed, unreadable)))
  {
    RunIsSound(Now(s), listed, unreadable);
    var run := RunOver(Now(s), listed, unreadable);
    BegunRunHolds(Now(s), run, run.Plan(), listed, unreadable);
  }

  lemma RemovedHolds(now: Disk, run: Run, plan: Plan, left: set<Cursor>, c: Cursor)
    requires CompactorHolds(now, Removing(run, plan, left)) && c in left
    ensures CompactorHolds(Unlink(now, c), Removing(run, plan, left - {c}))
  {
    assert plan.doomed - (left - {c}) == (plan.doomed - left) + {c};
  }

  lemma RemoveStepKeeps(s: State, c: Cursor)
    requires Inv(s) && Enabled(s, RunRemove(c))
    ensures Inv(Do(s, RunRemove(c)))
  {
    var now, run, plan, left := Now(s), s.compactor.run, s.compactor.plan, s.compactor.left;
    var w := DoomedHasHolder(now, run, plan, left, c);
    UnlinkGrows(now, c, w);
    RemovedHolds(now, run, plan, left, c);
    CompactorIssues(s, Unlink(now, c), Removing(run, plan, left - {c}));
  }

  lemma CreatedHolds(now: Disk, run: Run, plan: Plan)
    requires CompactorHolds(now, Removing(run, plan, {})) && plan.merge.Into?
    ensures CompactorHolds(Create(now, plan.merge.name), Merging(run, plan, Created))
  {
    assert plan.doomed - {} == plan.doomed;
  }

  lemma CreateStepKeeps(s: State)
    requires Inv(s) && Enabled(s, RunCreate)
    ensures Inv(Do(s, RunCreate))
  {
    var now, run, plan := Now(s), s.compactor.run, s.compactor.plan;
    NameIsNoFlush(run, plan);
    CreatedHolds(now, run, plan);
    SameSegmentsGrow(now, Create(now, plan.merge.name));
    CompactorIssues(s, Create(now, plan.merge.name), Merging(run, plan, Created));
  }

  lemma FillStepKeeps(s: State)
    requires Inv(s) && Enabled(s, RunFill)
    ensures Inv(Do(s, RunFill))
  {
    var run, plan := s.compactor.run, s.compactor.plan;
    NameIsNoFlush(run, plan);
    CompactorChanges(s, Fill(Now(s), plan.merge.name, Written(plan.merge.rows)), Merging(run, plan, Filled));
  }

  lemma SyncStepKeeps(s: State)
    requires Inv(s) && Enabled(s, RunSync)
    ensures Inv(Do(s, RunSync))
  {
    var run, plan := s.compactor.run, s.compactor.plan;
    NameIsNoFlush(run, plan);
    CompactorChanges(s, SyncFile(Now(s), plan.merge.name), Merging(run, plan, Synced));
  }

  lemma VisibleMergeMayUnlink(now: Disk, run: Run, plan: Plan)
    requires CompactorHolds(now, Merging(run, plan, Visible))
    ensures CompactorHolds(now, Unlinking(run, plan, Originals(plan)))
  {
    assert plan.doomed + {plan.merge.name} + (Originals(plan) - Originals(plan)) == plan.doomed + {plan.merge.name};
  }

  lemma SyncDirStepKeeps(s: State)
    requires Inv(s) && Enabled(s, RunSyncDir)
    ensures Inv(Do(s, RunSyncDir))
  {
    VisibleMergeMayUnlink(Now(s), s.compactor.run, s.compactor.plan);
    SyncedCompactor(s, Unlinking(s.compactor.run, s.compactor.plan, Originals(s.compactor.plan)));
  }

  lemma SyncedCompactor(s: State, compactor: Compactor)
    requires Inv(s) && !s.compactor.Resting? && CompactorHolds(Now(s), compactor)
    ensures Inv(SyncDir(s).(compactor := compactor))
  {
    SyncDirKeeps(s);
    SyncKeepsWriter(s);
    OtherCompactor(SyncDir(s), compactor);
  }

  lemma SyncKeepsWriter(s: State)
    requires Shaped(s) && WriterHolds(s)
    ensures Shaped(SyncDir(s)) && Now(SyncDir(s)) == Now(s) && WriterHolds(SyncDir(s))
  {
  }

  lemma OtherCompactor(s: State, compactor: Compactor)
    requires HistoryHolds(s) && WriterHolds(s) && !s.compactor.Resting? && CompactorHolds(Now(s), compactor)
    ensures Inv(s.(compactor := compactor))
  {
    var t := s.(compactor := compactor);
    assert Now(t) == Now(s);
    assert HistoryHolds(t);
  }

  lemma SameStepKeeps(s: State)
    requires Inv(s) && Enabled(s, RunSame)
    ensures Inv(Do(s, RunSame))
  {
    var now, run, plan := Now(s), s.compactor.run, s.compactor.plan;
    NameIsNoFlush(run, plan);
    var d := Discard(now, plan.merge.name);
    SameSegmentsGrow(now, d);
    VisibleMergeMayUnlink(d, run, plan);
    CompactorIssues(s, d, Unlinking(run, plan, Originals(plan)));
  }

  lemma RenameStepKeeps(s: State)
    requires Inv(s) && Enabled(s, RunRename)
    ensures Inv(Do(s, RunRename))
  {
    var now, run, plan := Now(s), s.compactor.run, s.compactor.plan;
    var name := plan.merge.name;
    NameIsNoFlush(run, plan);
    if name in now.segments { OriginalIsMerged(run, plan, name); }
    RenameGrows(now, name);
    CompactorIssues(s, Rename(now, name), Merging(run, plan, Visible));
  }

  lemma UnlinkedHolds(now: Disk, run: Run, plan: Plan, left: set<Cursor>, c: Cursor)
    requires CompactorHolds(now, Unlinking(run, plan, left)) && c in left
    ensures CompactorHolds(Unlink(now, c), Unlinking(run, plan, left - {c}))
  {
    assert Originals(plan) - (left - {c}) == (Originals(plan) - left) + {c};
  }

  lemma UnlinkStepKeeps(s: State, c: Cursor)
    requires Inv(s) && Enabled(s, RunUnlink(c))
    ensures Inv(Do(s, RunUnlink(c)))
  {
    var now, run, plan, left := Now(s), s.compactor.run, s.compactor.plan, s.compactor.left;
    OriginalIsMerged(run, plan, c);
    UnlinkGrows(now, c, plan.merge.name);
    UnlinkedHolds(now, run, plan, left, c);
    CompactorIssues(s, Unlink(now, c), Unlinking(run, plan, left - {c}));
  }

  lemma StopStepKeeps(s: State, step: Step)
    requires Inv(s) && Enabled(s, step) && (step.Cleanup? || step.Crash?)
    ensures Inv(Do(s, step))
  {
    match step {
      case Cleanup(c) =>
        SameSegmentsGrow(Now(s), Discard(Now(s), c));
        IssueKeeps(s, Discard(Now(s), c));
      case Crash(keep, torn) => TearingSparesSegments(s.history[keep], torn);
    }
  }

  lemma StepKeeps(s: State, step: Step)
    requires Inv(s) && Enabled(s, step)
    ensures Inv(Do(s, step))
  {
    match step {
      case RunBegin(listed, unreadable) => BeginStepKeeps(s, listed, unreadable);
      case RunRemove(c) => RemoveStepKeeps(s, c);
      case RunCreate => CreateStepKeeps(s);
      case RunEnd => AcknowledgeKeeps(s, step);
      case RunFill => FillStepKeeps(s);
      case RunSync => SyncStepKeeps(s);
      case RunSame => SameStepKeeps(s);
      case RunRename => RenameStepKeeps(s);
      case RunSyncDir => SyncDirStepKeeps(s);
      case RunUnlink(c) => UnlinkStepKeeps(s, c);
      case Cleanup(_) => StopStepKeeps(s, step);
      case Kill => AcknowledgeKeeps(s, step);
      case Crash(_, _) => StopStepKeeps(s, step);
      case WriterCreate(c, segment) => WriterCreateKeeps(s, c, segment);
      case WriterFill => WriterFileStepKeeps(s, step);
      case WriterSync => WriterFileStepKeeps(s, step);
      case WriterRename => WriterRenameKeeps(s);
      case WriterSyncDir => AcknowledgeKeeps(s, step);
    }
  }

  // ---- whole executions --------------------------------------------------------------------------

  /** A row is durable once every state a crash may come back to holds it. */
  ghost predicate Durable(s: State, r: Row) {
    Shaped(s) && forall k :: s.durable <= k < |s.history| ==> Holds(View(s.history[k]), r)
  }

  ghost predicate Listable(s: State, r: Row) {
    Shaped(s) && Holds(View(Now(s)), r)
  }

  ghost predicate Execution(states: seq<State>, steps: seq<Step>) {
    && |states| == |steps| + 1
    && Inv(states[0])
    && forall i :: 0 <= i < |steps| ==> Shaped(states[i]) && Enabled(states[i], steps[i]) && states[i + 1] == Do(states[i], steps[i])
  }

  /** An empty directory is where every execution may begin. */
  lemma EmptyDirectoryHolds()
    ensures Inv(State([Disk(map[], map[])], 0, Quiet, Resting))
  {
  }

  lemma StepKeepsRow(s: State, step: Step, r: Row)
    requires Inv(s) && Enabled(s, step)
    ensures Durable(s, r) ==> Durable(Do(s, step), r)
    ensures Listable(s, r) && !step.Crash? ==> Listable(Do(s, step), r)
  {
    StepKeeps(s, step);
    if step.Crash? {
      TearingSparesSegments(s.history[step.keep], step.torn);
    } else {
      HistoryAfter(s, step);
      DurableAfter(s, step);
      GrownKeepsRow(s, Do(s, step), r);
    }
  }

  lemma DurableAfter(s: State, step: Step)
    requires Shaped(s) && Enabled(s, step) && !step.Crash?
    ensures Do(s, step).durable >= s.durable
    ensures forall k :: 0 <= k < |s.history| - 1 && k < |Do(s, step).history| ==> Do(s, step).history[k] == s.history[k]
  {
  }

  lemma GrownKeepsRow(s: State, t: State, r: Row)
    requires Shaped(s) && HistoryHolds(t) && t.durable >= s.durable && |t.history| >= |s.history|
    requires forall k :: 0 <= k < |s.history| - 1 ==> t.history[k] == s.history[k]
    requires || t.history == s.history
             || (|t.history| == |s.history| + 1 && t.history[|s.history| - 1] == Now(s) && t.durable <= |s.history| - 1)
             || (|t.history| == |s.history| && View(Now(t)) == View(Now(s)))
    ensures Durable(s, r) ==> Durable(t, r)
    ensures Listable(s, r) ==> Listable(t, r)
  {
    forall k | t.durable <= k < |t.history| ensures Durable(s, r) ==> Holds(View(t.history[k]), r) {
      if k >= |s.history| - 1 { NowGrows(s, t, k); }
    }
    NowGrows(s, t, |t.history| - 1);
  }

  /** No step but a crash forgets a state the directory has been in, nor moves what is durable past the present one. */
  lemma HistoryAfter(s: State, step: Step)
    requires Shaped(s) && Enabled(s, step) && !step.Crash?
    ensures var t := Do(s, step);
            || t.history == s.history
            || (|t.history| == |s.history| + 1 && t.history[|s.history| - 1] == Now(s) && t.durable <= |s.history| - 1)
            || (|t.history| == |s.history| && t.history[..|s.history| - 1] == s.history[..|s.history| - 1] && View(Now(t)) == View(Now(s)))
  {
  }

  lemma NowGrows(s: State, t: State, k: nat)
    requires Shaped(s) && HistoryHolds(t) && |s.history| - 1 <= k < |t.history|
    requires || t.history == s.history
             || (|t.history| == |s.history| + 1 && t.history[|s.history| - 1] == Now(s) && t.durable <= |s.history| - 1)
             || (|t.history| == |s.history| && View(Now(t)) == View(Now(s)))
    ensures Grows(Now(s), t.history[k])
  {
    if |t.history| > |s.history| { assert Grows(t.history[|s.history| - 1], t.history[k]); }
  }

  lemma {:induction false} ExecutionKeepsInvariant(states: seq<State>, steps: seq<Step>, i: nat)
    requires Execution(states, steps) && i < |states|
    ensures Inv(states[i])
    decreases i
  {
    if i > 0 {
      ExecutionKeepsInvariant(states, steps, i - 1);
      StepKeeps(states[i - 1], steps[i - 1]);
    }
  }

  lemma OneStepKeepsRow(states: seq<State>, steps: seq<Step>, i: nat, r: Row)
    requires Execution(states, steps) && i < |steps|
    ensures Durable(states[i], r) ==> Durable(states[i + 1], r)
    ensures Listable(states[i], r) && !steps[i].Crash? ==> Listable(states[i + 1], r)
  {
    ExecutionKeepsInvariant(states, steps, i);
    StepKeepsRow(states[i], steps[i], r);
  }

  lemma DurableIsListable(s: State, r: Row)
    requires Durable(s, r)
    ensures Listable(s, r)
  {
  }

  lemma {:induction false} Persists(p: nat -> bool, i: nat, j: nat)
    requires i <= j && forall k :: i <= k < j && p(k) ==> p(k + 1)
    ensures p(i) ==> p(j)
    decreases j - i
  {
    if i < j { Persists(p, i, j - 1); }
  }

  /**
    No row is ever lost: through any interleaving of flushes, runs, kills and crashes, a row once
    durable is durable for good, and a row once listed stays listed until a crash.
   */
  lemma NoRowIsLost(states: seq<State>, steps: seq<Step>, i: nat, j: nat, r: Row)
    requires Execution(states, steps) && i <= j < |states|
    ensures Durable(states[i], r) ==> Durable(states[j], r) && Listable(states[j], r)
    ensures Listable(states[i], r) && (forall k :: i <= k < j ==> !steps[k].Crash?) ==> Listable(states[j], r)
  {
    forall k | i <= k < j
      ensures Durable(states[k], r) ==> Durable(states[k + 1], r)
      ensures Listable(states[k], r) && !steps[k].Crash? ==> Listable(states[k + 1], r)
    {
      OneStepKeepsRow(states, steps, k, r);
    }
    Persists((k: nat) => k < |states| && Durable(states[k], r), i, j);
    if forall k :: i <= k < j ==> !steps[k].Crash? {
      Persists((k: nat) => k < |states| && Listable(states[k], r), i, j);
    }
    if Durable(states[j], r) { DurableIsListable(states[j], r); }
  }

  /**
    No file under a segment's name is ever partly written: through any execution each is synced in every state a crash may
    come back to, so that a crash, whatever it makes of files not synced, leaves precisely one of those states listed.
   */
  lemma NoSegmentIsEverTorn(states: seq<State>, steps: seq<Step>, i: nat)
    requires Execution(states, steps) && i < |states|
    ensures forall k :: 0 <= k < |states[i].history| ==> AllSynced(states[i].history[k])
    ensures i < |steps| && steps[i].Crash? ==> View(Now(states[i + 1])) == View(states[i].history[steps[i].keep])
  {
    ExecutionKeepsInvariant(states, steps, i);
    if i < |steps| && steps[i].Crash? { TearingSparesSegments(states[i].history[steps[i].keep], steps[i].torn); }
  }

  /** What a flush was told is durable, is: its every row, from the step that told it. */
  lemma FlushedRowsAreDurable(states: seq<State>, steps: seq<Step>, i: nat, r: Row)
    requires Execution(states, steps) && i < |steps| && steps[i].WriterSyncDir?
    requires Shaped(states[i]) && Enabled(states[i], WriterSyncDir) && r in RowsOf(states[i].writer.segment)
    ensures Durable(states[i + 1], r)
  {
    ExecutionKeepsInvariant(states, steps, i);
    assert Holds(View(Now(states[i])), r);
  }
}
