/**
  What capture and compaction come to while nothing stops them: a run ends where its plan says, whatever is flushed
  beside it, and whatever is begun can be finished.
 */
module RunsComplete {
  import opened Text
  import opened Cursors
  import opened Segments
  import opened Compaction
  import opened CrashSafety

  // ---- what was asked of the writer, from the steps alone ---------------------------------------

  /** What the writer was last told to write, or was writing when the steps began. */
  function Asked(w: Writer, steps: seq<Step>): Option<(Cursor, Segment)> {
    if steps == [] then if w.Committing? then Some((w.c, w.segment)) else None
    else
      match steps[|steps| - 1]
      case WriterCreate(c, segment) => Some((c, segment))
      case _ => Asked(w, steps[..|steps| - 1])
  }

  /** What has been renamed into place since the steps began. */
  function Committed(w: Writer, steps: seq<Step>): Directory {
    if steps == [] then map[]
    else
      var front := steps[..|steps| - 1];
      var asked := Asked(w, front);
      if steps[|steps| - 1].WriterRename? && asked.Some? then Committed(w, front)[asked.value.0 := asked.value.1]
      else Committed(w, front)
  }

  ghost predicate WritesAsAsked(s: State, asked: Option<(Cursor, Segment)>) {
    s.writer.Committing? ==> asked == Some((s.writer.c, s.writer.segment))
  }

  // ---- what each operation does to the listing ---------------------------------------------------

  lemma RenameShows(d: Disk, c: Cursor)
    requires c in d.temps
    ensures View(Rename(d, c)) == View(d)[c := d.temps[c].segment]
  {
  }

  lemma UnlinkHides(d: Disk, c: Cursor)
    ensures View(Unlink(d, c)) == Sans(View(d), {c})
  {
    assert forall k :: k in Unlink(d, c).segments <==> k in d.segments && k != c;
  }

  lemma OtherwiseSame(a: Disk, b: Disk)
    requires a.segments == b.segments
    ensures View(a) == View(b)
  {
  }

  // ---- a run beside flushes ---------------------------------------------------------------------

  /** Where the run over `start` is, apart from what has been flushed beside it. */
  function Reached(start: Directory, plan: Plan, compactor: Compactor): Directory {
    match compactor
    case Resting => Final(start, plan)
    case Removing(_, _, left) => Sans(start, plan.doomed - left)
    case Merging(_, _, stage) => if stage.Visible? && plan.merge.Into? then Renamed(start, plan) else Sans(start, plan.doomed)
    case Unlinking(_, _, left) => if plan.merge.Into? then Sans(Renamed(start, plan), Originals(plan) - left) else start
  }

  /** What the run has taken away by now. */
  function Gone(plan: Plan, compactor: Compactor): set<Cursor>
    requires !compactor.Resting?
  {
    match compactor
    case Removing(_, _, left) => plan.doomed - left
    case Merging(_, _, _) => plan.doomed
    case Unlinking(_, _, left) => plan.doomed + if plan.merge.Into? then Originals(plan) - left else {}
  }

  /** Nothing flushed beside a run has the name of a segment it still needs, nor of its merge. */
  ghost predicate Apart(run: Run, plan: Plan, gone: set<Cursor>, committed: Directory) {
    && (forall c :: c in committed ==> Flushed(c))
    && (forall c :: c in run.listed && c !in gone ==> c !in committed)
  }

  ghost predicate OnPlan(start: Directory, run: Run, plan: Plan, s: State, committed: Directory)
    requires Shaped(s)
  {
    && View(Now(s)) == Reached(start, plan, s.compactor) + committed
    && (!s.compactor.Resting? ==>
          s.compactor.run == run && s.compactor.plan == plan && Apart(run, plan, Gone(plan, s.compactor), committed))
  }

  /** Neither the beginning of another run, nor a stop. */
  predicate Along(step: Step) {
    !step.RunBegin? && !step.Kill? && !step.Crash?
  }

  lemma FlushedOver(reached: Directory, committed: Directory, c: Cursor, segment: Segment)
    ensures (reached + committed)[c := segment] == reached + committed[c := segment]
  {
  }

  lemma FlushBeside(s: State, start: Directory, run: Run, plan: Plan, committed: Directory)
    requires Inv(s) && Enabled(s, WriterRename) && OnPlan(start, run, plan, s, committed)
    ensures OnPlan(start, run, plan, Do(s, WriterRename), committed[s.writer.c := s.writer.segment])
  {
    var c, segment := s.writer.c, s.writer.segment;
    RenameShows(Now(s), c);
    assert Now(Do(s, WriterRename)) == Rename(Now(s), c);
    FlushedOver(Reached(start, plan, s.compactor), committed, c, segment);
  }

  /** A step that leaves the listing and the compactor alone. */
  lemma LeavesAlone(s: State, t: State, start: Directory, run: Run, plan: Plan, committed: Directory)
    requires Shaped(s) && Shaped(t) && OnPlan(start, run, plan, s, committed)
    requires Now(t).segments == Now(s).segments && t.compactor == s.compactor
    ensures OnPlan(start, run, plan, t, committed)
  {
    OtherwiseSame(Now(s), Now(t));
  }

  lemma SansOver(a: Directory, gone: set<Cursor>, c: Cursor, committed: Directory)
    requires c !in committed
    ensures Sans(Sans(a, gone) + committed, {c}) == Sans(a, gone + {c}) + committed
  {
  }

  lemma OneMoreGone(all: set<Cursor>, left: set<Cursor>, c: Cursor)
    requires c in left && left <= all
    ensures all - (left - {c}) == (all - left) + {c}
  {
  }

  lemma UnlinkShows(d: Disk, reached: Directory, gone: set<Cursor>, committed: Directory, c: Cursor)
    requires View(d) == Sans(reached, gone) + committed && c !in committed
    ensures View(Unlink(d, c)) == Sans(reached, gone + {c}) + committed
  {
    UnlinkHides(d, c);
    SansOver(reached, gone, c, committed);
  }

  lemma LeftToRemove(now: Disk, run: Run, plan: Plan, left: set<Cursor>, c: Cursor)
    requires CompactorHolds(now, Removing(run, plan, left)) && c in left
    ensures left <= plan.doomed && c in run.listed && c !in plan.doomed - left
  {
  }

  lemma TakenApart(run: Run, plan: Plan, gone: set<Cursor>, c: Cursor, committed: Directory)
    requires Apart(run, plan, gone, committed) && c in run.listed && c !in gone
    ensures c !in committed && Apart(run, plan, gone + {c}, committed)
  {
  }

  lemma RemovingOnPlan(s: State, start: Directory, run: Run, plan: Plan, left: set<Cursor>, committed: Directory)
    requires Shaped(s) && s.compactor == Removing(run, plan, left)
    ensures OnPlan(start, run, plan, s, committed) <==>
              View(Now(s)) == Sans(start, plan.doomed - left) + committed && Apart(run, plan, plan.doomed - left, committed)
  {
  }

  lemma RemovalDone(s: State, c: Cursor)
    requires Shaped(s) && Enabled(s, RunRemove(c))
    ensures var t := Do(s, RunRemove(c));
            && Shaped(t) && Now(t) == Unlink(Now(s), c)
            && t.compactor == Removing(s.compactor.run, s.compactor.plan, s.compactor.left - {c})
  {
  }

  lemma RemovedBeside(s: State, start: Directory, run: Run, plan: Plan, committed: Directory, c: Cursor)
    requires Inv(s) && Enabled(s, RunRemove(c)) && OnPlan(start, run, plan, s, committed)
    ensures OnPlan(start, run, plan, Do(s, RunRemove(c)), committed)
  {
    var left := s.compactor.left;
    RemovingOnPlan(s, start, run, plan, left, committed);
    LeftToRemove(Now(s), run, plan, left, c);
    TakenApart(run, plan, plan.doomed - left, c, committed);
    OneMoreGone(plan.doomed, left, c);
    UnlinkShows(Now(s), start, plan.doomed - left, committed, c);
    RemovalDone(s, c);
    RemovingOnPlan(Do(s, RunRemove(c)), start, run, plan, left - {c}, committed);
  }

  lemma LeftToUnlink(now: Disk, run: Run, plan: Plan, left: set<Cursor>, c: Cursor)
    requires CompactorHolds(now, Unlinking(run, plan, left)) && c in left
    ensures plan.merge.Into? && left <= Originals(plan) && c in run.listed && c !in plan.doomed + (Originals(plan) - left)
  {
  }

  lemma UnlinkingOnPlan(s: State, start: Directory, run: Run, plan: Plan, left: set<Cursor>, committed: Directory)
    requires Shaped(s) && s.compactor == Unlinking(run, plan, left) && plan.merge.Into?
    ensures OnPlan(start, run, plan, s, committed) <==>
              && View(Now(s)) == Sans(Renamed(start, plan), Originals(plan) - left) + committed
              && Apart(run, plan, plan.doomed + (Originals(plan) - left), committed)
  {
  }

  lemma UnlinkDone(s: State, c: Cursor)
    requires Shaped(s) && Enabled(s, RunUnlink(c))
    ensures var t := Do(s, RunUnlink(c));
            && Shaped(t) && Now(t) == Unlink(Now(s), c)
            && t.compactor == Unlinking(s.compactor.run, s.compactor.plan, s.compactor.left - {c})
  {
  }

  lemma UnlinkedBeside(s: State, start: Directory, run: Run, plan: Plan, committed: Directory, c: Cursor)
    requires Inv(s) && Enabled(s, RunUnlink(c)) && OnPlan(start, run, plan, s, committed)
    ensures OnPlan(start, run, plan, Do(s, RunUnlink(c)), committed)
  {
    var left := s.compactor.left;
    LeftToUnlink(Now(s), run, plan, left, c);
    UnlinkingOnPlan(s, start, run, plan, left, committed);
    var gone := Originals(plan) - left;
    TakenApart(run, plan, plan.doomed + gone, c, committed);
    OneMoreGone(Originals(plan), left, c);
    assert plan.doomed + (gone + {c}) == (plan.doomed + gone) + {c};
    UnlinkShows(Now(s), Renamed(start, plan), gone, committed, c);
    UnlinkDone(s, c);
    UnlinkingOnPlan(Do(s, RunUnlink(c)), start, run, plan, left - {c}, committed);
  }

  lemma RenamedOver(start: Directory, plan: Plan, committed: Directory)
    requires plan.merge.Into? && plan.merge.name !in committed
    ensures (Sans(start, plan.doomed) + committed)[plan.merge.name := Written(plan.merge.rows)] == Renamed(start, plan) + committed
  {
  }

  lemma RenamedBeside(s: State, start: Directory, run: Run, plan: Plan, committed: Directory)
    requires Inv(s) && Enabled(s, RunRename) && OnPlan(start, run, plan, s, committed)
    ensures OnPlan(start, run, plan, Do(s, RunRename), committed)
  {
    var name, merged := plan.merge.name, Written(plan.merge.rows);
    assert Now(Do(s, RunRename)) == Rename(Now(s), name);
    RenameShows(Now(s), name);
    NameIsNoFlush(run, plan);
    assert name !in committed;
    RenamedOver(start, plan, committed);
    assert Now(s).temps[name].segment == merged;
  }

  /** Nothing has been unlinked yet. */
  lemma BeforeUnlinking(start: Directory, run: Run, plan: Plan, stage: Stage)
    requires plan.merge.Into?
    ensures Reached(start, plan, Unlinking(run, plan, Originals(plan))) == Renamed(start, plan)
    ensures Gone(plan, Unlinking(run, plan, Originals(plan))) == Gone(plan, Merging(run, plan, stage))
  {
    assert Originals(plan) - Originals(plan) == {};
    assert Sans(Renamed(start, plan), {}) == Renamed(start, plan);
  }

  lemma SameBeside(s: State, start: Directory, run: Run, plan: Plan, committed: Directory)
    requires Inv(s) && Enabled(s, RunSame) && OnPlan(start, run, plan, s, committed)
    ensures OnPlan(start, run, plan, Do(s, RunSame), committed)
  {
    var name, merged, t := plan.merge.name, Written(plan.merge.rows), Do(s, RunSame);
    assert Now(t) == Discard(Now(s), name);
    OtherwiseSame(Now(s), Now(t));
    NameIsNoFlush(run, plan);
    assert name !in committed && name in View(Now(s)) && View(Now(s))[name] == merged;
    assert Renamed(start, plan) == Sans(start, plan.doomed);
    BeforeUnlinking(start, run, plan, s.compactor.stage);
  }

  lemma SyncedBeside(s: State, start: Directory, run: Run, plan: Plan, committed: Directory)
    requires Inv(s) && Enabled(s, RunSyncDir) && OnPlan(start, run, plan, s, committed)
    ensures OnPlan(start, run, plan, Do(s, RunSyncDir), committed)
  {
    assert Now(Do(s, RunSyncDir)) == Now(s);
    BeforeUnlinking(start, run, plan, Visible);
  }

  lemma EndedBeside(s: State, start: Directory, run: Run, plan: Plan, committed: Directory)
    requires Inv(s) && Enabled(s, RunEnd) && OnPlan(start, run, plan, s, committed)
    ensures OnPlan(start, run, plan, Do(s, RunEnd), committed)
  {
    assert Now(Do(s, RunEnd)) == Now(s);
    assert plan.doomed - {} == plan.doomed;
    if s.compactor.Unlinking? { assert Originals(plan) - {} == Originals(plan); }
  }

  lemma MergeStepBeside(s: State, start: Directory, run: Run, plan: Plan, committed: Directory, step: Step)
    requires Inv(s) && Enabled(s, step) && OnPlan(start, run, plan, s, committed)
    requires step.RunCreate? || step.RunFill? || step.RunSync?
    ensures OnPlan(start, run, plan, Do(s, step), committed)
  {
    OtherwiseSame(Now(s), Now(Do(s, step)));
    assert plan.doomed - {} == plan.doomed;
  }

  /** Every step there is beside a run, or of it, leaves the listing where the plan says, and what was flushed beside it. */
  lemma StepBeside(s: State, step: Step, start: Directory, run: Run, plan: Plan, committed: Directory)
    requires Inv(s) && Enabled(s, step) && Along(step) && OnPlan(start, run, plan, s, committed)
    ensures OnPlan(start, run, plan, Do(s, step), if step.WriterRename? then committed[s.writer.c := s.writer.segment] else committed)
  {
    match step {
      case WriterRename => FlushBeside(s, start, run, plan, committed);
      case RunRemove(c) => RemovedBeside(s, start, run, plan, committed, c);
      case RunCreate => MergeStepBeside(s, start, run, plan, committed, step);
      case RunFill => MergeStepBeside(s, start, run, plan, committed, step);
      case RunSync => MergeStepBeside(s, start, run, plan, committed, step);
      case RunSame => SameBeside(s, start, run, plan, committed);
      case RunRename => RenamedBeside(s, start, run, plan, committed);
      case RunSyncDir => SyncedBeside(s, start, run, plan, committed);
      case RunUnlink(c) => UnlinkedBeside(s, start, run, plan, committed, c);
      case RunEnd => EndedBeside(s, start, run, plan, committed);
      case WriterCreate(_, _) => LeavesAlone(s, Do(s, step), start, run, plan, committed);
      case WriterFill => LeavesAlone(s, Do(s, step), start, run, plan, committed);
      case WriterSync => LeavesAlone(s, Do(s, step), start, run, plan, committed);
      case WriterSyncDir => LeavesAlone(s, Do(s, step), start, run, plan, committed);
      case Cleanup(_) => LeavesAlone(s, Do(s, step), start, run, plan, committed);
    }
  }

  lemma WriterStep(s: State, step: Step, asked: Option<(Cursor, Segment)>)
    requires Inv(s) && Enabled(s, step) && WritesAsAsked(s, asked)
    ensures WritesAsAsked(Do(s, step), match step case WriterCreate(c, segment) => Some((c, segment)) case _ => asked)
  {
  }

  lemma BegunOnPlan(s: State, listed: seq<Cursor>, unreadable: Unread)
    requires Inv(s) && Enabled(s, RunBegin(listed, unreadable))
    ensures var run := RunOver(Now(s), listed, unreadable);
            && run.Plan() == PlanOf(listed, Reading(View(Now(s)), unreadable))
            && OnPlan(View(Now(s)), run, run.Plan(), Do(s, RunBegin(listed, unreadable)), map[])
  {
    var run := RunOver(Now(s), listed, unreadable);
    var plan := run.Plan();
    assert plan.doomed - plan.doomed == {};
    assert Sans(View(Now(s)), {}) == View(Now(s));
  }

  ghost predicate StillOnPlan(start: Directory, run: Run, s: State, w: Writer, steps: seq<Step>)
    requires OneKind(run.listed)
  {
    Inv(s) && WritesAsAsked(s, Asked(w, steps)) && OnPlan(start, run, run.Plan(), s, Committed(w, steps))
  }

  /** One step more of a run and of what is flushed beside it. */
  lemma OneStepMore(s: State, step: Step, start: Directory, run: Run, w: Writer, front: seq<Step>)
    requires OneKind(run.listed) && StillOnPlan(start, run, s, w, front) && Enabled(s, step) && Along(step)
    ensures StillOnPlan(start, run, Do(s, step), w, front + [step])
  {
    assert (front + [step])[..|front|] == front;
    StepKeeps(s, step);
    WriterStep(s, step, Asked(w, front));
    StepBeside(s, step, start, run, run.Plan(), Committed(w, front));
  }

  lemma StepOf(states: seq<State>, steps: seq<Step>, k: nat)
    requires Execution(states, steps) && k < |steps|
    ensures Shaped(states[k]) && Enabled(states[k], steps[k]) && states[k + 1] == Do(states[k], steps[k])
  {
  }

  /** One step of an execution, beside a run or of it. */
  predicate StepAlong(states: seq<State>, steps: seq<Step>, k: nat) {
    && k + 1 < |states| && k < |steps| && Along(steps[k])
    && Shaped(states[k]) && Enabled(states[k], steps[k]) && states[k + 1] == Do(states[k], steps[k])
  }

  ghost predicate StillAt(states: seq<State>, steps: seq<Step>, from: nat, k: nat, start: Directory, run: Run, w: Writer)
  {
    from <= k < |states| && k <= |steps| && OneKind(run.listed) && StillOnPlan(start, run, states[k], w, steps[from..k])
  }

  lemma CarriedOnce(states: seq<State>, steps: seq<Step>, from: nat, k: nat, start: Directory, run: Run, w: Writer)
    requires StillAt(states, steps, from, k, start, run, w) && StepAlong(states, steps, k)
    ensures StillAt(states, steps, from, k + 1, start, run, w)
  {
    assert steps[from..k + 1] == steps[from..k] + [steps[k]];
    OneStepMore(states[k], steps[k], start, run, w, steps[from..k]);
  }

  lemma CarriedOn(states: seq<State>, steps: seq<Step>, from: nat, j: nat, start: Directory, run: Run, w: Writer)
    requires from <= j && StillAt(states, steps, from, from, start, run, w)
    requires forall k {:trigger StepAlong(states, steps, k)} :: from <= k < j ==> StepAlong(states, steps, k)
    ensures StillAt(states, steps, from, j, start, run, w)
  {
    forall k: nat | from <= k < j && StillAt(states, steps, from, k, start, run, w)
      ensures StillAt(states, steps, from, k + 1, start, run, w)
    {
      assert StepAlong(states, steps, k);
      CarriedOnce(states, steps, from, k, start, run, w);
    }
    Persists((k: nat) => StillAt(states, steps, from, k, start, run, w), from, j);
  }

  lemma CarriedThrough(states: seq<State>, steps: seq<Step>, from: nat, j: nat, start: Directory, run: Run, w: Writer)
    requires Execution(states, steps) && from <= j < |states| && forall k :: from <= k < j ==> Along(steps[k])
    requires OneKind(run.listed) && StillOnPlan(start, run, states[from], w, [])
    ensures StillOnPlan(start, run, states[j], w, steps[from..j])
  {
    assert steps[from..from] == [];
    assert forall k :: from <= k < j ==> StepAlong(states, steps, k);
    CarriedOn(states, steps, from, j, start, run, w);
  }

  lemma BegunStill(s: State, listed: seq<Cursor>, unreadable: Unread)
    requires Inv(s) && Enabled(s, RunBegin(listed, unreadable))
    ensures StillOnPlan(View(Now(s)), RunOver(Now(s), listed, unreadable), Do(s, RunBegin(listed, unreadable)), s.writer, [])
  {
    StepKeeps(s, RunBegin(listed, unreadable));
    BegunOnPlan(s, listed, unreadable);
  }

  /** Where the run is on its way, the directory it was begun over has been carried just so far through its plan. */
  lemma ReachedIsRunState(start: Directory, plan: Plan, compactor: Compactor)
    requires match compactor
             case Resting => true
             case Removing(_, _, left) => left <= plan.doomed
             case Merging(_, _, _) => plan.merge.Into?
             case Unlinking(_, _, left) => plan.merge.Into? && left <= Originals(plan)
    ensures RunState(start, plan, Reached(start, plan, compactor))
  {
    if plan.merge.Into? { assert Sans(Renamed(start, plan), {}) == Renamed(start, plan); }
    match compactor {
      case Resting =>
        if plan.merge.Into? { assert RemovingOriginals(start, plan, Final(start, plan)); }
        else { assert RemovingDoomed(start, plan, Final(start, plan)); }
      case Removing(_, _, left) => assert plan.doomed - left <= plan.doomed;
      case Merging(_, _, stage) =>
        if stage.Visible? { assert RemovingOriginals(start, plan, Renamed(start, plan)); }
        else { assert RemovingDoomed(start, plan, Sans(start, plan.doomed)); }
      case Unlinking(_, _, left) => assert Originals(plan) - left <= Originals(plan);
    }
  }

  lemma OnPlanIsRunState(start: Directory, run: Run, plan: Plan, s: State, committed: Directory)
    requires Inv(s) && OnPlan(start, run, plan, s, committed)
    ensures exists d :: RunState(start, plan, d) && View(Now(s)) == d + committed
  {
    ReachedIsRunState(start, plan, s.compactor);
  }

  /** The listing is on the plan of the run begun in `s`. */
  ghost predicate Planned(s: State, listed: seq<Cursor>, unreadable: Unread, t: State, committed: Directory) {
    && Shaped(s) && Shaped(t) && OneKind(listed) && (forall c :: c in listed ==> c in Now(s).segments)
    && OnPlan(View(Now(s)), RunOver(Now(s), listed, unreadable), PlanOf(listed, Reading(View(Now(s)), unreadable)), t, committed)
  }

  lemma BegunPlanned(s: State, listed: seq<Cursor>, unreadable: Unread, t: State, w: Writer, steps: seq<Step>)
    requires Inv(s) && Enabled(s, RunBegin(listed, unreadable))
    requires StillOnPlan(View(Now(s)), RunOver(Now(s), listed, unreadable), t, w, steps)
    ensures Planned(s, listed, unreadable, t, Committed(w, steps))
  {
    BegunOnPlan(s, listed, unreadable);
  }

  lemma StaysOnPlan(states: seq<State>, steps: seq<Step>, i: nat, j: nat)
    requires Execution(states, steps) && i < j < |states| && steps[i].RunBegin? && forall k :: i < k < j ==> Along(steps[k])
    ensures Inv(states[j])
    ensures Planned(states[i], steps[i].listed, steps[i].unreadable, states[j], Committed(states[i].writer, steps[i + 1..j]))
  {
    ExecutionKeepsInvariant(states, steps, i);
    ExecutionKeepsInvariant(states, steps, j);
    StepOf(states, steps, i);
    var (s, listed, unreadable, w) := (states[i], steps[i].listed, steps[i].unreadable, states[i].writer);
    BegunStill(s, listed, unreadable);
    CarriedThrough(states, steps, i + 1, j, View(Now(s)), RunOver(Now(s), listed, unreadable), w);
    BegunPlanned(s, listed, unreadable, states[j], w, steps[i + 1..j]);
  }

  lemma RestingAsPlanned(s: State, listed: seq<Cursor>, unreadable: Unread, t: State, committed: Directory)
    requires Planned(s, listed, unreadable, t, committed) && t.compactor.Resting?
    ensures View(Now(t)) == Final(View(Now(s)), PlanOf(listed, Reading(View(Now(s)), unreadable))) + committed
    ensures committed == map[] ==> View(Now(t)) == Final(View(Now(s)), PlanOf(listed, Reading(View(Now(s)), unreadable)))
  {
    var final := Final(View(Now(s)), PlanOf(listed, Reading(View(Now(s)), unreadable)));
    assert final + map[] == final;
  }

  lemma RunningAsPlanned(s: State, listed: seq<Cursor>, unreadable: Unread, t: State, committed: Directory)
    requires Planned(s, listed, unreadable, t, committed) && Inv(t)
    ensures exists d :: RunState(View(Now(s)), PlanOf(listed, Reading(View(Now(s)), unreadable)), d) && View(Now(t)) == d + committed
  {
    OnPlanIsRunState(View(Now(s)), RunOver(Now(s), listed, unreadable), PlanOf(listed, Reading(View(Now(s)), unreadable)), t, committed);
  }

  /**
    A run goes as planned: from its beginning, and until another begins or something stops it, the listing is one of the
    states a run over what it began with passes through, and beside that what has been flushed since; and once the run rests
    it is the last of them, with every original removed.
   */
  lemma RunGoesAsPlanned(states: seq<State>, steps: seq<Step>, i: nat, j: nat)
    requires Execution(states, steps) && i < j < |states| && steps[i].RunBegin? && forall k :: i < k < j ==> Along(steps[k])
    ensures Shaped(states[i]) && Shaped(states[j]) && OneKind(steps[i].listed)
    ensures var (start, listing) := (View(Now(states[i])), View(Now(states[j])));
            var plan := PlanOf(steps[i].listed, Reading(start, steps[i].unreadable));
            var flushed := Committed(states[i].writer, steps[i + 1..j]);
            && (exists d :: RunState(start, plan, d) && listing == d + flushed)
            && (states[j].compactor.Resting? ==> listing == Final(start, plan) + flushed)
  {
    StaysOnPlan(states, steps, i, j);
    var flushed := Committed(states[i].writer, steps[i + 1..j]);
    RunningAsPlanned(states[i], steps[i].listed, steps[i].unreadable, states[j], flushed);
    if states[j].compactor.Resting? { RestingAsPlanned(states[i], steps[i].listed, steps[i].unreadable, states[j], flushed); }
  }

  // ---- what is begun can be finished ---------------------------------------------------------------

  predicate OfTheRun(step: Step) {
    || step.RunRemove? || step.RunCreate? || step.RunFill? || step.RunSync? || step.RunSame?
    || step.RunRename? || step.RunSyncDir? || step.RunUnlink? || step.RunEnd?
  }

  /** How many steps a run has left at most. */
  function StepsLeft(compactor: Compactor): nat {
    match compactor
    case Resting => 0
    case Removing(_, plan, left) => |left| + 1 + if plan.merge.Into? then |Originals(plan)| + 6 else 0
    case Merging(_, plan, stage) =>
      (if plan.merge.Into? then |Originals(plan)| else 0)
      + (match stage case Created => 6 case Filled => 5 case Synced => 4 case Visible => 3)
    case Unlinking(_, _, left) => |left| + 1
  }

  lemma OneLess(left: set<Cursor>, c: Cursor)
    requires c in left
    ensures |left - {c}| == |left| - 1
  {
  }

  lemma RemovalIsOneLess(s: State, step: Step)
    requires Shaped(s) && Enabled(s, step) && (step.RunRemove? || step.RunUnlink?)
    ensures StepsLeft(Do(s, step).compactor) < StepsLeft(s.compactor)
  {
    OneLess(s.compactor.left, step.c);
  }

  /** No step of a run puts off its end. */
  lemma EachStepIsOneLess(s: State, step: Step)
    requires Shaped(s) && Enabled(s, step) && OfTheRun(step)
    ensures StepsLeft(Do(s, step).compactor) < StepsLeft(s.compactor)
  {
    match step {
      case RunRemove(c) => RemovalIsOneLess(s, step);
      case RunUnlink(c) => RemovalIsOneLess(s, step);
      case RunCreate =>
      case RunFill =>
      case RunSync =>
      case RunSame =>
      case RunRename =>
      case RunSyncDir =>
      case RunEnd =>
    }
  }

  /** A run that has not ended always has a step it can take. */
  lemma SomeStepIsOpen(s: State) returns (step: Step)
    requires Inv(s) && !s.compactor.Resting?
    ensures OfTheRun(step) && Enabled(s, step)
  {
    match s.compactor {
      case Removing(_, plan, left) =>
        if c :| c in left { step := RunRemove(c); }
        else if plan.merge.Into? { step := RunCreate; }
        else { step := RunEnd; }
      case Merging(_, _, stage) =>
        match stage {
          case Created => step := RunFill;
          case Filled => step := RunSync;
          case Synced => step := RunRename;
          case Visible => step := RunSyncDir;
        }
      case Unlinking(_, _, left) =>
        if c :| c in left { step := RunUnlink(c); } else { step := RunEnd; }
    }
  }

  lemma ExecutionFrom(s: State, step: Step, states: seq<State>, steps: seq<Step>)
    requires Inv(s) && Enabled(s, step) && Execution(states, steps) && states[0] == Do(s, step)
    ensures Execution([s] + states, [step] + steps)
  {
    var all, each := [s] + states, [step] + steps;
    forall i | 0 <= i < |each| ensures Shaped(all[i]) && Enabled(all[i], each[i]) && all[i + 1] == Do(all[i], each[i]) {
      if i > 0 { assert all[i] == states[i - 1] && each[i] == steps[i - 1] && all[i + 1] == states[i]; }
    }
  }

  /** An execution by the run's own steps, at whose end it rests. */
  ghost predicate RunsOut(s: State, states: seq<State>, steps: seq<Step>) {
    && Execution(states, steps) && states[0] == s && (forall k :: 0 <= k < |steps| ==> OfTheRun(steps[k]))
    && states[|steps|].compactor.Resting?
  }

  lemma AlreadyOut(s: State)
    requires Inv(s) && s.compactor.Resting?
    ensures RunsOut(s, [s], [])
  {
  }

  lemma RunsOutFrom(s: State, step: Step, states: seq<State>, steps: seq<Step>)
    requires Inv(s) && Enabled(s, step) && OfTheRun(step) && RunsOut(Do(s, step), states, steps)
    ensures RunsOut(s, [s] + states, [step] + steps)
  {
    ExecutionFrom(s, step, states, steps);
  }

  lemma {:induction false} RestOfRun(s: State) returns (states: seq<State>, steps: seq<Step>)
    requires Inv(s)
    ensures RunsOut(s, states, steps)
    decreases StepsLeft(s.compactor)
  {
    if s.compactor.Resting? {
      AlreadyOut(s);
      return [s], [];
    }
    var step := SomeStepIsOpen(s);
    StepKeeps(s, step);
    EachStepIsOneLess(s, step);
    states, steps := RestOfRun(Do(s, step));
    RunsOutFrom(s, step, states, steps);
    states, steps := [s] + states, [step] + steps;
  }

  lemma RunsOutOnPlan(s: State, states: seq<State>, steps: seq<Step>, start: Directory, run: Run, w: Writer)
    requires RunsOut(s, states, steps) && OneKind(run.listed) && StillOnPlan(start, run, s, w, [])
    ensures StillOnPlan(start, run, states[|steps|], w, steps)
  {
    assert steps[0..|steps|] == steps;
    CarriedThrough(states, steps, 0, |steps|, start, run, w);
  }

  lemma LastOf(s: State, rest: seq<State>, step: Step, after: seq<Step>)
    requires |rest| == |after| + 1
    ensures |[step] + after| < |[s] + rest| && ([s] + rest)[|[step] + after|] == rest[|after|]
  {
  }

  /** What a run may be begun over: a listing of one kind, of what is there, none of it being written. */
  predicate MayBegin(s: State, listed: seq<Cursor>, unreadable: Unread)
    requires Shaped(s)
  {
    && s.compactor.Resting? && (s.writer.Committing? ==> s.writer.c.Time? && s.writer.c.flush >= 1)
    && OneKind(listed) && (forall c :: c in listed ==> c in View(Now(s)))
    && NoStray(View(Now(s)), listed, PlanOf(listed, Reading(View(Now(s)), unreadable)))
  }

  lemma {:induction false} NothingFlushed(w: Writer, steps: seq<Step>)
    requires forall k :: 0 <= k < |steps| ==> OfTheRun(steps[k])
    ensures Committed(w, steps) == map[]
    decreases |steps|
  {
    if steps != [] { NothingFlushed(w, steps[..|steps| - 1]); }
  }

  lemma EndsAsPlanned(s: State, listed: seq<Cursor>, unreadable: Unread, t: State, after: seq<Step>)
    requires Inv(s) && Enabled(s, RunBegin(listed, unreadable)) && t.compactor.Resting?
    requires StillOnPlan(View(Now(s)), RunOver(Now(s), listed, unreadable), t, s.writer, after)
    requires forall k :: 0 <= k < |after| ==> OfTheRun(after[k])
    ensures View(Now(t)) == Final(View(Now(s)), PlanOf(listed, Reading(View(Now(s)), unreadable)))
  {
    NothingFlushed(s.writer, after);
    BegunPlanned(s, listed, unreadable, t, s.writer, after);
    RestingAsPlanned(s, listed, unreadable, t, map[]);
  }

  lemma OfTheRunAfter(begin: Step, after: seq<Step>)
    requires forall k :: 0 <= k < |after| ==> OfTheRun(after[k])
    ensures forall k :: 0 < k < |[begin] + after| ==> OfTheRun(([begin] + after)[k])
  {
    forall k | 0 < k < |[begin] + after| ensures OfTheRun(([begin] + after)[k]) { assert ([begin] + after)[k] == after[k - 1]; }
  }

  lemma WhenRunOut(s: State, states: seq<State>, steps: seq<Step>)
    requires RunsOut(s, states, steps)
    ensures Execution(states, steps) && states[0] == s && states[|steps|].compactor.Resting?
    ensures forall k :: 0 <= k < |steps| ==> OfTheRun(steps[k])
  {
  }

  lemma BegunRunsOut(s: State, listed: seq<Cursor>, unreadable: Unread) returns (rest: seq<State>, after: seq<Step>)
    requires Inv(s) && Enabled(s, RunBegin(listed, unreadable))
    ensures RunsOut(Do(s, RunBegin(listed, unreadable)), rest, after) && Inv(rest[|after|])
    ensures View(Now(rest[|after|])) == Final(View(Now(s)), PlanOf(listed, Reading(View(Now(s)), unreadable)))
  {
    BegunStill(s, listed, unreadable);
    var begun := Do(s, RunBegin(listed, unreadable));
    rest, after := RestOfRun(begun);
    RunsOutOnPlan(begun, rest, after, View(Now(s)), RunOver(Now(s), listed, unreadable), s.writer);
    WhenRunOut(begun, rest, after);
    EndsAsPlanned(s, listed, unreadable, rest[|after|], after);
  }

  /** A run begun can be finished by its own steps alone, and then the listing is exactly what one run makes of it. */
  lemma RunCanComplete(s: State, listed: seq<Cursor>, unreadable: Unread) returns (states: seq<State>, steps: seq<Step>)
    requires Inv(s) && MayBegin(s, listed, unreadable)
    ensures Execution(states, steps) && states[0] == s && steps != [] && steps[0] == RunBegin(listed, unreadable)
    ensures forall k :: 0 < k < |steps| ==> OfTheRun(steps[k])
    ensures Shaped(states[|steps|]) && states[|steps|].compactor.Resting?
    ensures View(Now(states[|steps|])) == Final(View(Now(s)), PlanOf(listed, Reading(View(Now(s)), unreadable)))
  {
    var begin := RunBegin(listed, unreadable);
    var rest, after := BegunRunsOut(s, listed, unreadable);
    WhenRunOut(Do(s, begin), rest, after);
    ExecutionFrom(s, begin, rest, after);
    OfTheRunAfter(begin, after);
    LastOf(s, rest, begin, after);
    states, steps := [s] + rest, [begin] + after;
  }

  // ---- flushes ----------------------------------------------------------------------------------

  /** A step that neither begins another flush nor stops the writer. */
  predicate KeepsWriting(step: Step) {
    !step.WriterCreate? && !step.WriterSyncDir? && !step.Kill? && !step.Crash?
  }

  lemma StaysCommitting(s: State, step: Step)
    requires Shaped(s) && Enabled(s, step) && KeepsWriting(step) && s.writer.Committing?
    ensures var w := Do(s, step).writer; w.Committing? && w.c == s.writer.c && w.segment == s.writer.segment
  {
  }

  predicate Writing(w: Writer, c: Cursor, segment: Segment) {
    w.Committing? && w.c == c && w.segment == segment
  }

  lemma BeginsWriting(s: State, c: Cursor, segment: Segment)
    requires Shaped(s) && Enabled(s, WriterCreate(c, segment))
    ensures Writing(Do(s, WriterCreate(c, segment)).writer, c, segment)
  {
  }

  lemma WritesOn(states: seq<State>, steps: seq<Step>, k: nat, c: Cursor, segment: Segment)
    requires Execution(states, steps) && k < |steps| && KeepsWriting(steps[k]) && Writing(states[k].writer, c, segment)
    ensures Writing(states[k + 1].writer, c, segment)
  {
    StepOf(states, steps, k);
    StaysCommitting(states[k], steps[k]);
  }

  lemma WritesFrom(states: seq<State>, steps: seq<Step>, i: nat)
    requires Execution(states, steps) && i < |steps| && steps[i].WriterCreate?
    ensures Writing(states[i + 1].writer, steps[i].c, steps[i].segment)
  {
    StepOf(states, steps, i);
    BeginsWriting(states[i], steps[i].c, steps[i].segment);
  }

  lemma {:induction false} WritesWhatItCreated(states: seq<State>, steps: seq<Step>, i: nat, j: nat, c: Cursor, segment: Segment)
    requires Execution(states, steps) && i < j < |states| && Writing(states[i + 1].writer, c, segment)
    requires forall k :: i < k < j ==> KeepsWriting(steps[k])
    ensures Writing(states[j].writer, c, segment)
    decreases j
  {
    if j > i + 1 {
      WritesWhatItCreated(states, steps, i, j - 1, c, segment);
      WritesOn(states, steps, j - 1, c, segment);
    }
  }

  /**
    A flush commits what it was given, whole and under its own name: the rename shows exactly that and changes no other
    name, and from the sync that ends it every row of it is durable.
   */
  lemma FlushCommits(states: seq<State>, steps: seq<Step>, i: nat, j: nat)
    requires Execution(states, steps) && i < j < |steps| && steps[i].WriterCreate?
    requires forall k :: i < k < j ==> KeepsWriting(steps[k])
    ensures Shaped(states[j]) && Shaped(states[j + 1])
    ensures steps[j].WriterRename? ==> View(Now(states[j + 1])) == View(Now(states[j]))[steps[i].c := steps[i].segment]
    ensures steps[j].WriterSyncDir? ==> forall r :: r in RowsOf(steps[i].segment) ==> Durable(states[j + 1], r)
  {
    ExecutionKeepsInvariant(states, steps, j);
    ExecutionKeepsInvariant(states, steps, j + 1);
    StepOf(states, steps, j);
    WritesFrom(states, steps, i);
    WritesWhatItCreated(states, steps, i, j, steps[i].c, steps[i].segment);
    var s := states[j];
    if steps[j].WriterRename? {
      RenameShows(Now(s), s.writer.c);
      assert Now(Do(s, WriterRename)) == Rename(Now(s), s.writer.c);
    }
    if steps[j].WriterSyncDir? {
      forall r | r in RowsOf(steps[i].segment) ensures Durable(states[j + 1], r) { FlushedRowsAreDurable(states, steps, j, r); }
    }
  }

  /** A merge is durable before anything it replaces is removed: its every row, from the sync that precedes the removals. */
  lemma MergesAreDurable(states: seq<State>, steps: seq<Step>, i: nat, r: Row)
    requires Execution(states, steps) && i < |steps| && steps[i].RunSyncDir?
    requires Shaped(states[i]) && Enabled(states[i], RunSyncDir) && r in states[i].compactor.plan.merge.rows
    ensures states[i + 1].compactor.Unlinking? && Durable(states[i + 1], r)
  {
    ExecutionKeepsInvariant(states, steps, i);
    StepOf(states, steps, i);
    MergeIsShown(Now(states[i]), states[i].compactor.run, states[i].compactor.plan, r);
  }

  lemma MergeIsShown(now: Disk, run: Run, plan: Plan, r: Row)
    requires CompactorHolds(now, Merging(run, plan, Visible)) && r in plan.merge.rows
    ensures Holds(View(now), r)
  {
    WrittenReadsBack(plan.merge.rows);
    assert plan.merge.name in View(now);
  }

  const FLUSH_STEPS := [WriterFill, WriterSync, WriterRename, WriterSyncDir]

  lemma FlushOpens(s: State, c: Cursor, segment: Segment)
    requires Inv(s) && s.writer.Quiet? && c !in View(Now(s)) && RowsOf(segment) != [] && (s.compactor.Resting? || (c.Time? && c.flush >= 1))
    ensures Enabled(s, WriterCreate(c, segment))
    ensures var t := Do(s, WriterCreate(c, segment));
            Inv(t) && t.writer == Committing(c, segment, Created) && View(Now(t)) == View(Now(s))
  {
    StepKeeps(s, WriterCreate(c, segment));
    OtherwiseSame(Now(s), Now(Do(s, WriterCreate(c, segment))));
  }

  lemma FlushFills(s: State, step: Step)
    requires Inv(s) && s.writer.Committing? && step == (if s.writer.stage.Created? then WriterFill else WriterSync)
    requires s.writer.stage.Created? || s.writer.stage.Filled?
    ensures Enabled(s, step)
    ensures var t := Do(s, step);
            && Inv(t) && View(Now(t)) == View(Now(s))
            && t.writer == s.writer.(stage := if s.writer.stage.Created? then Filled else Synced)
  {
    StepKeeps(s, step);
    OtherwiseSame(Now(s), Now(Do(s, step)));
  }

  lemma FlushShows(s: State)
    requires Inv(s) && s.writer.Committing? && s.writer.stage.Synced?
    ensures Enabled(s, WriterRename)
    ensures var t := Do(s, WriterRename);
            && Inv(t) && t.writer == s.writer.(stage := Visible)
            && View(Now(t)) == View(Now(s))[s.writer.c := s.writer.segment]
  {
    StepKeeps(s, WriterRename);
    RenameShows(Now(s), s.writer.c);
  }

  lemma FlushEnds(s: State)
    requires Inv(s) && s.writer.Committing? && s.writer.stage.Visible?
    ensures Enabled(s, WriterSyncDir)
    ensures var t := Do(s, WriterSyncDir); Inv(t) && t.writer.Quiet? && View(Now(t)) == View(Now(s))
  {
    StepKeeps(s, WriterSyncDir);
  }

  lemma LastOfFlush(s: State) returns (states: seq<State>)
    requires Inv(s) && s.writer.Committing? && s.writer.stage.Synced?
    ensures Execution(states, [WriterRename, WriterSyncDir]) && states[0] == s && Shaped(states[2])
    ensures states[2].writer.Quiet? && View(Now(states[2])) == View(Now(s))[s.writer.c := s.writer.segment]
  {
    FlushShows(s);
    var visible := Do(s, WriterRename);
    FlushEnds(visible);
    var ended := Do(visible, WriterSyncDir);
    ExecutionFrom(visible, WriterSyncDir, [ended], []);
    ExecutionFrom(s, WriterRename, [visible] + [ended], [WriterSyncDir] + []);
    states := [s] + ([visible] + [ended]);
    assert [WriterRename] + ([WriterSyncDir] + []) == [WriterRename, WriterSyncDir];
  }

  lemma RestOfFlush(s: State) returns (states: seq<State>)
    requires Inv(s) && s.writer.Committing? && s.writer.stage.Created?
    ensures Execution(states, FLUSH_STEPS) && states[0] == s && Shaped(states[4])
    ensures states[4].writer.Quiet? && View(Now(states[4])) == View(Now(s))[s.writer.c := s.writer.segment]
  {
    FlushFills(s, WriterFill);
    var filled := Do(s, WriterFill);
    FlushFills(filled, WriterSync);
    var last := LastOfFlush(Do(filled, WriterSync));
    ExecutionFrom(filled, WriterSync, last, [WriterRename, WriterSyncDir]);
    ExecutionFrom(s, WriterFill, [filled] + last, [WriterSync] + [WriterRename, WriterSyncDir]);
    states := [s] + ([filled] + last);
    assert [WriterFill] + ([WriterSync] + [WriterRename, WriterSyncDir]) == FLUSH_STEPS;
  }

  /** A flush under a name no segment has can be finished by its own steps. */
  lemma FlushCanComplete(s: State, c: Cursor, segment: Segment) returns (states: seq<State>, steps: seq<Step>)
    requires Inv(s) && s.writer.Quiet? && c !in View(Now(s)) && RowsOf(segment) != [] && (s.compactor.Resting? || (c.Time? && c.flush >= 1))
    ensures Execution(states, steps) && states[0] == s && steps == [WriterCreate(c, segment)] + FLUSH_STEPS
    ensures Shaped(states[5]) && states[5].writer.Quiet? && View(Now(states[5])) == View(Now(s))[c := segment]
    ensures forall r :: r in RowsOf(segment) ==> Durable(states[5], r)
  {
    FlushOpens(s, c, segment);
    var rest := RestOfFlush(Do(s, WriterCreate(c, segment)));
    ExecutionFrom(s, WriterCreate(c, segment), rest, FLUSH_STEPS);
    states, steps := [s] + rest, [WriterCreate(c, segment)] + FLUSH_STEPS;
    FlushCommits(states, steps, 0, 4);
  }

  /** What is being written is under a temporary name from its creation, and no temporary outlives the rename or the removal. */
  lemma TemporariesComeAndGo(s: State, step: Step)
    requires Shaped(s) && Enabled(s, step) && !step.Crash?
    ensures Shaped(Do(s, step))
    ensures var temps := Now(Do(s, step)).temps;
            match step
            case WriterCreate(c, _) => c in temps && !temps[c].synced
            case RunCreate => s.compactor.plan.merge.name in temps && !temps[s.compactor.plan.merge.name].synced
            case WriterRename => s.writer.c !in temps
            case RunRename => s.compactor.plan.merge.name !in temps
            case RunSame => s.compactor.plan.merge.name !in temps
            case Cleanup(c) => c !in temps && forall k :: k in Now(s).temps && k != c ==> k in temps && temps[k] == Now(s).temps[k]
            case _ => true
  {
  }

  /** A temporary may be cleared away exactly where neither a flush nor a merge is writing it. */
  lemma DeadTemporariesMayGo(s: State, c: Cursor)
    requires Shaped(s)
    ensures Enabled(s, Cleanup(c)) <==>
              && !(s.writer.Committing? && s.writer.c == c)
              && !(s.compactor.Merging? && s.compactor.plan.merge.Into? && s.compactor.plan.merge.name == c)
  {
  }

  /** A stop leaves neither process in the middle of anything, and a kill leaves every file as it is. */
  lemma StopsLeaveNothingRunning(s: State, step: Step)
    requires Shaped(s) && Enabled(s, step) && (step.Kill? || step.Crash?)
    ensures Do(s, step).writer.Quiet? && Do(s, step).compactor.Resting?
    ensures step.Kill? ==> Do(s, step).history == s.history && Do(s, step).durable == s.durable
    ensures step.Crash? ==> Do(s, step).history == [Torn(s.history[step.keep], step.torn)]
  {
  }

  /** A merge already there under its own name, row group for row group, need not be renamed over itself. */
  lemma SameMergeMayStay(s: State)
    requires Inv(s) && s.compactor.Merging? && s.compactor.stage.Filled?
    requires var merge := s.compactor.plan.merge;
             merge.Into? && merge.name in View(Now(s)) && View(Now(s))[merge.name] == Written(merge.rows)
    ensures Enabled(s, RunSame) && View(Now(Do(s, RunSame))) == View(Now(s)) && Do(s, RunSame).compactor.Unlinking?
  {
    OtherwiseSame(Now(s), Now(Do(s, RunSame)));
  }

  lemma FilesStay(s: State, step: Step)
    requires Shaped(s) && Enabled(s, step) && !step.Crash?
    requires !step.WriterRename? && !step.RunRemove? && !step.RunRename? && !step.RunUnlink?
    ensures Shaped(Do(s, step)) && Now(Do(s, step)).segments == Now(s).segments
  {
  }

  /** Whatever else is done, a listing changes by flushes and runs alone. */
  lemma OnlyFlushesAndRunsMoveFiles(s: State, step: Step)
    requires Shaped(s) && Enabled(s, step) && !step.Crash?
    requires !step.WriterRename? && !step.RunRemove? && !step.RunRename? && !step.RunUnlink?
    ensures Shaped(Do(s, step)) && View(Now(Do(s, step))) == View(Now(s))
  {
    FilesStay(s, step);
    OtherwiseSame(Now(s), Now(Do(s, step)));
  }
}
