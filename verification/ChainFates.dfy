/** What became of each fetch the record holds, and which of those that stand are of the chain the cursor follows. */
module ChainFates {
  import opened Text
  import opened Trail
  import opened ChainCapture
  import opened ChainRecord
  import opened ChainFidelity
  import Standing

  /** A fetch is of a step accepted, of one that found a fork, or of one whose handing on failed after it was recorded. */
  datatype Fate = Accepted | Aborted | Unacknowledged | Reorganisation

  ghost function StepFates(s: State, depth: nat, step: Step, w: Answers): seq<Fate> {
    match w.logs
    case TooBig => []
    case Unread => []
    case Read(_, taking) =>
      if taking.Refused? then (if taking.recorded then [Unacknowledged] else [])
      else if Stepped(s, depth, step, w).1.Forked? then [Aborted] + if w.reorgRecorded then [Reorganisation] else []
      else [Accepted]
  }

  ghost function PassFates(s: State, depth: nat, steps: seq<Step>, world: nat -> Answers, i: nat): seq<Fate>
    requires i <= |steps|
    decreases |steps| - i
  {
    if i == |steps| then []
    else
      var (after, verdict) := Stepped(s, depth, steps[i], world(i));
      StepFates(s, depth, steps[i], world(i)) + if verdict == Onward then PassFates(after, depth, steps, world, i + 1) else []
  }

  ghost function TurnFates(s: State, span: nat, config: Config, turn: Turn): seq<Fate> {
    var ready := s.(nextSeq := s.nextSeq + turn.others);
    if !turn.referenceRead || turn.head.None? then []
    else
      var from := FromOf(ready, config, turn.head.value);
      var planned := PlanOf(span, config.earliest, from, turn.head.value);
      if from > turn.head.value || planned.BeforeReach? then []
      else PassFates(SetOut(ready, from), config.depth, planned.steps, turn.world, 0)
  }

  /** One fate for each entry of the record. */
  ghost function Fates(config: Config, firstSeq: nat, turns: seq<Turn>): seq<Fate> {
    if turns == [] then []
    else
      var front := turns[..|turns| - 1];
      var before := Ran(config, firstSeq, front);
      Fates(config, firstSeq, front)
        + if before.Stopped? then [] else TurnFates(before.state, before.span, config, turns[|turns| - 1])
  }

  // ---- an accepted fetch that stands is the latest ------------------------------------------------------------

  ghost predicate Marked(log: seq<Entry>, fates: seq<Fate>) {
    |fates| == |log| && forall k :: 0 <= k < |log| ==> (fates[k].Reorganisation? <==> log[k].Replaced?)
  }

  /** An accepted fetch stands for a block only as the latest fetch of one captured. */
  ghost predicate AcceptedIsLatest(s: State, fates: seq<Fate>)
    requires |fates| == |s.log|
  {
    forall k: nat, b: nat {:trigger FetchStands(s.log, k, b)} :: FetchStands(s.log, k, b) && fates[k].Accepted? ==>
      s.cursor.Some? && b <= s.cursor.value && LatestAt(s.log, k, b)
  }

  ghost predicate LatestWasAccepted(log: seq<Entry>, fates: seq<Fate>, block: nat)
    requires |fates| == |log|
  {
    exists k: nat :: LatestAt(log, k, block) && fates[k].Accepted?
  }

  ghost predicate CapturedWasAccepted(s: State, fates: seq<Fate>)
    requires |fates| == |s.log|
  {
    s.cursor.Some? ==> forall b: nat :: s.start <= b <= s.cursor.value && (b > 0 || NeverFromGenesis(s.log)) ==> LatestWasAccepted(s.log, fates, b)
  }

  ghost predicate Fated(s: State, fates: seq<Fate>) {
    Marked(s.log, fates) && AcceptedIsLatest(s, fates) && CapturedWasAccepted(s, fates)
  }

  lemma StoodBefore(log: seq<Entry>, entry: Entry, k: nat, block: nat)
    requires FetchStands(log + [entry], k, block) && k < |log|
    ensures FetchStands(log, k, block)
    ensures entry.Replaced? ==> !entry.reorg.Contradicts(block, log[k].at)
  {
    var all := log + [entry];
    forall j | 0 <= j < |log| && log[j].Replaced? ensures !log[j].reorg.Contradicts(block, log[k].at) {
      assert all[j] == log[j];
    }
    assert all[|log|] == entry;
  }

  lemma LatestStillAt(log: seq<Entry>, entry: Entry, k: nat, block: nat)
    requires LatestAt(log, k, block) && !Covers(entry, block)
    ensures LatestAt(log + [entry], k, block)
  {
  }

  lemma StillAccepted(log: seq<Entry>, fates: seq<Fate>, entry: Entry, fate: Fate, block: nat)
    requires |fates| == |log| && LatestWasAccepted(log, fates, block) && !Covers(entry, block)
    ensures LatestWasAccepted(log + [entry], fates + [fate], block)
  {
    var k: nat :| LatestAt(log, k, block) && fates[k].Accepted?;
    LatestStillAt(log, entry, k, block);
  }

  lemma NowAccepted(log: seq<Entry>, fates: seq<Fate>, entry: Entry, block: nat)
    requires |fates| == |log| && Covers(entry, block)
    ensures LatestWasAccepted(log + [entry], fates + [Accepted], block)
  {
    assert LatestAt(log + [entry], |log|, block);
  }

  /** A fetch recorded above the cursor and not accepted. */
  lemma UnacceptedKeeps(s: State, fates: seq<Fate>, step: Step, chain: Block, fate: Fate, after: State)
    requires Fated(s, fates) && Follows(s, step) && (fate.Aborted? || fate.Unacknowledged?)
    requires after == s.(nextSeq := s.nextSeq + 1, held := after.held, log := s.log + [Fetched(step, chain, s.nextSeq)])
    ensures Fated(after, fates + [fate])
  {
    var entry, marks := Fetched(step, chain, s.nextSeq), fates + [fate];
    LogGrows(s.log, entry);
    forall k: nat, b: nat | FetchStands(after.log, k, b) && marks[k].Accepted?
      ensures s.cursor.Some? && b <= s.cursor.value && LatestAt(after.log, k, b)
    {
      StoodBefore(s.log, entry, k, b);
      LatestStillAt(s.log, entry, k, b);
    }
    if s.cursor.Some? {
      forall b: nat | s.start <= b <= s.cursor.value && (b > 0 || NeverFromGenesis(s.log)) ensures LatestWasAccepted(after.log, marks, b) {
        StillAccepted(s.log, fates, entry, fate, b);
      }
    }
  }

  lemma AcceptedKeeps(s: State, fates: seq<Fate>, step: Step, chain: Block, after: State)
    requires Fated(s, fates) && Follows(s, step)
    requires after == s.(nextSeq := s.nextSeq + 1, held := after.held, cursor := Some(step.to),
                        log := s.log + [Fetched(step, chain, s.nextSeq)])
    ensures Fated(after, fates + [Accepted])
  {
    var entry, marks := Fetched(step, chain, s.nextSeq), fates + [Accepted];
    LogGrows(s.log, entry);
    forall k: nat, b: nat | FetchStands(after.log, k, b) && marks[k].Accepted?
      ensures b <= step.to && LatestAt(after.log, k, b)
    {
      if k < |s.log| {
        StoodBefore(s.log, entry, k, b);
        LatestStillAt(s.log, entry, k, b);
      }
    }
    forall b: nat | s.start <= b <= step.to && (b > 0 || NeverFromGenesis(s.log)) ensures LatestWasAccepted(after.log, marks, b) {
      if b >= step.from { NowAccepted(s.log, fates, entry, b); } else { StillAccepted(s.log, fates, entry, Accepted, b); }
    }
  }

  /** Going back, with the reorganisation recorded, retires every accepted fetch the cursor goes back below. */
  lemma ReplacedKeeps(s: State, fates: seq<Fate>, from: nat, to: nat, after: State)
    requires Fated(s, fates) && Sequenced(s)
    requires s.cursor.Some? ==> to >= s.cursor.value
    requires s.cursor.None? ==> from <= s.start
    requires after == s.(nextSeq := s.nextSeq + 1, held := after.held, cursor := Some(RewindTo(s.cursor, from)),
                        log := s.log + [Replaced(Standing.Reorganised(from, to, s.nextSeq))])
    ensures Fated(after, fates + [Reorganisation])
  {
    var entry, marks := Replaced(Standing.Reorganised(from, to, s.nextSeq)), fates + [Reorganisation];
    LogGrows(s.log, entry);
    forall k: nat, b: nat | FetchStands(after.log, k, b) && marks[k].Accepted?
      ensures b <= after.cursor.value && LatestAt(after.log, k, b)
    {
      StoodBefore(s.log, entry, k, b);
      assert At(s.log[k]) < s.nextSeq && FetchStands(s.log, k, b);
      LatestStillAt(s.log, entry, k, b);
    }
    if s.cursor.Some? {
      forall b: nat | s.start <= b <= after.cursor.value && (b > 0 || NeverFromGenesis(after.log)) ensures LatestWasAccepted(after.log, marks, b) {
        StillAccepted(s.log, fates, entry, Reorganisation, b);
      }
    }
  }

  lemma ForkReaches(s: State, depth: nat, step: Step, w: Answers)
    requires Follows(s, step) && Numbered(w) && Beginning(s) && w.logs.Read? && w.logs.taking.Taken?
    ensures var reorg := Walked(s.held, depth, HeightsOf(step), w.headers).1;
            reorg.Some? ==>
              && (s.cursor.Some? ==> reorg.value.toBlock >= s.cursor.value)
              && (s.cursor.None? ==> reorg.value.fromBlock == s.start)
  {
    WalkedFrom(s.held, depth, HeightsOf(step), w.headers, s.start);
    if s.cursor.None? { FirstHeadersForkNoLower(depth, step, w.headers); }
  }

  lemma ForkedLog(s: State, depth: nat, step: Step, w: Answers)
    requires Stepped(s, depth, step, w).1.Forked? && w.reorgRecorded
    ensures w.logs.Read? && w.logs.taking.Taken?
    ensures var (held, reorg) := Walked(s.held, depth, HeightsOf(step), w.headers);
            && reorg.Some?
            && var from := ForkFrom(held, w.probes, reorg.value.fromBlock);
               && from <= reorg.value.fromBlock
               && Stepped(s, depth, step, w).0 ==
                    s.(nextSeq := s.nextSeq + 2, held := Below(held, from), cursor := Some(RewindTo(s.cursor, from)),
                       log := s.log + [Fetched(step, w.logs.chain, s.nextSeq)]
                            + [Replaced(Standing.Reorganised(from, reorg.value.toBlock, s.nextSeq + 1))])
  {
    var (held, reorg) := Walked(s.held, depth, HeightsOf(step), w.headers);
    SearchNeverRises(held, w.probes, reorg.value.fromBlock, reorg.value.fromBlock);
  }

  lemma ForkedStepFated(s: State, fates: seq<Fate>, depth: nat, step: Step, w: Answers)
    requires Fated(s, fates) && Sound(s) && Follows(s, step) && Numbered(w)
    requires Stepped(s, depth, step, w).1.Forked? && w.reorgRecorded
    ensures Fated(Stepped(s, depth, step, w).0, fates + [Aborted, Reorganisation])
  {
    ForkedLog(s, depth, step, w);
    ForkReaches(s, depth, step, w);
    var (held, reorg) := Walked(s.held, depth, HeightsOf(step), w.headers);
    var from := ForkFrom(held, w.probes, reorg.value.fromBlock);
    var took := s.(nextSeq := s.nextSeq + 1, log := s.log + [Fetched(step, w.logs.chain, s.nextSeq)]);
    UnacceptedKeeps(s, fates, step, w.logs.chain, Aborted, took);
    Appended(s, Fetched(step, w.logs.chain, s.nextSeq), took);
    ReplacedKeeps(took, fates + [Aborted], from, reorg.value.toBlock, Stepped(s, depth, step, w).0);
    assert fates + [Aborted, Reorganisation] == fates + [Aborted] + [Reorganisation];
  }

  lemma StepFated(s: State, fates: seq<Fate>, depth: nat, step: Step, w: Answers)
    requires Fated(s, fates) && Sound(s) && Follows(s, step) && Numbered(w) && w.reorgRecorded
    ensures Fated(Stepped(s, depth, step, w).0, fates + StepFates(s, depth, step, w))
  {
    var (after, verdict) := Stepped(s, depth, step, w);
    if verdict.Forked? {
      ForkedStepFated(s, fates, depth, step, w);
      assert [Aborted] + [Reorganisation] == [Aborted, Reorganisation];
    } else if w.logs.Read? && w.logs.taking.Taken? {
      AcceptedKeeps(s, fates, step, w.logs.chain, after);
    } else if w.logs.Read? && w.logs.taking.recorded {
      UnacceptedKeeps(s, fates, step, w.logs.chain, Unacknowledged, after);
    } else {
      assert fates + [] == fates;
    }
  }

  // ---- every run -------------------------------------------------------------------------------------------------

  ghost predicate RecordedTurn(turn: Turn) {
    NumberedTurn(turn) && forall i :: turn.world(i).reorgRecorded
  }

  lemma PassFatesStep(s: State, depth: nat, steps: seq<Step>, world: nat -> Answers, i: nat)
    requires i < |steps|
    ensures var (after, verdict) := Stepped(s, depth, steps[i], world(i));
            PassFates(s, depth, steps, world, i) ==
              StepFates(s, depth, steps[i], world(i)) + if verdict == Onward then PassFates(after, depth, steps, world, i + 1) else []
  {
  }

  lemma OneStepFated(s: State, fates: seq<Fate>, depth: nat, steps: seq<Step>, w: Answers, i: nat, from: nat, to: nat, span: nat)
    requires i < |steps| && Covering(steps, from, to, span) && Numbered(w) && w.reorgRecorded
    requires Fated(s, fates) && Sound(s) && Follows(s, steps[i])
    ensures var (after, verdict) := Stepped(s, depth, steps[i], w);
            && Fated(after, fates + StepFates(s, depth, steps[i], w)) && Sound(after)
            && (verdict == Onward && i + 1 < |steps| ==> Follows(after, steps[i + 1]))
  {
    OneStepKeeps(s, depth, steps, w, i, from, to, span);
    StepFated(s, fates, depth, steps[i], w);
  }

  lemma Joined(fates: seq<Fate>, more: seq<Fate>, rest: seq<Fate>)
    ensures (fates + more) + rest == fates + (more + rest)
  {
  }

  lemma {:induction false} PassFated(s: State, fates: seq<Fate>, depth: nat, steps: seq<Step>, world: nat -> Answers, i: nat, pass: Pass,
                                     from: nat, to: nat, span: nat)
    requires i <= |steps| && Covering(steps, from, to, span) && forall k :: Numbered(world(k)) && world(k).reorgRecorded
    requires Fated(s, fates) && Sound(s) && (i < |steps| ==> Follows(s, steps[i]))
    ensures Fated(PassedFrom(s, depth, steps, world, i, pass).0, fates + PassFates(s, depth, steps, world, i))
    decreases |steps| - i
  {
    if i == |steps| {
      assert fates + [] == fates;
    } else {
      var (after, verdict) := Stepped(s, depth, steps[i], world(i));
      var marks := StepFates(s, depth, steps[i], world(i));
      OneStepFated(s, fates, depth, steps, world(i), i, from, to, span);
      PassedOneStep(s, depth, steps, world, i, pass);
      PassFatesStep(s, depth, steps, world, i);
      if verdict == Onward {
        PassFated(after, fates + marks, depth, steps, world, i + 1, pass.(blocks := pass.blocks + steps[i].Blocks()), from, to, span);
        Joined(fates, marks, PassFates(after, depth, steps, world, i + 1));
      } else {
        assert marks + [] == marks;
      }
    }
  }

  lemma SettingOutFated(s: State, fates: seq<Fate>, seqNo: nat, from: nat)
    requires Fated(s, fates) && Sound(s) && seqNo >= s.nextSeq
    ensures var ready := s.(nextSeq := seqNo); Fated(ready, fates) && Sound(ready)
    ensures Fated(SetOut(s, from), fates) && Sound(SetOut(s, from))
  {
  }

  /** The steps a turn works, if it works any, and where it works them from. */
  ghost predicate Works(s: State, span: nat, config: Config, turn: Turn, out: State, steps: seq<Step>, from: nat, to: nat) {
    && turn.referenceRead && turn.head == Some(to) && from <= to
    && var ready := s.(nextSeq := s.nextSeq + turn.others);
       from == FromOf(ready, config, to) && out == SetOut(ready, from) && PlanOf(span, config.earliest, from, to) == Steps(steps)
  }

  lemma TurnWorks(s: State, span: nat, config: Config, turn: Turn, out: State, steps: seq<Step>, from: nat, to: nat)
    requires Works(s, span, config, turn, out, steps, from, to)
    ensures Turned(s, span, config, turn).state == PassedFrom(out, config.depth, steps, turn.world, 0, NOTHING).0
    ensures TurnFates(s, span, config, turn) == PassFates(out, config.depth, steps, turn.world, 0)
  {
  }

  lemma TurnRests(s: State, span: nat, config: Config, turn: Turn)
    requires forall out, steps, from, to :: !Works(s, span, config, turn, out, steps, from, to)
    ensures Turned(s, span, config, turn).state == s.(nextSeq := s.nextSeq + turn.others) && TurnFates(s, span, config, turn) == []
  {
    var ready := s.(nextSeq := s.nextSeq + turn.others);
    if turn.referenceRead && turn.head.Some? {
      var from := FromOf(ready, config, turn.head.value);
      var planned := PlanOf(span, config.earliest, from, turn.head.value);
      assert planned.Steps? ==> !Works(s, span, config, turn, SetOut(ready, from), planned.steps, from, turn.head.value);
    }
  }

  lemma PlannedFated(s: State, fates: seq<Fate>, config: Config, span: nat, steps: seq<Step>, world: nat -> Answers, from: nat, to: nat)
    requires Fated(s, fates) && Sound(s) && from <= to && PlanOf(span, config.earliest, from, to) == Steps(steps)
    requires from == (if s.cursor.Some? then s.cursor.value + 1 else s.start)
    requires forall k :: Numbered(world(k)) && world(k).reorgRecorded
    ensures Fated(PassedFrom(s, config.depth, steps, world, 0, NOTHING).0, fates + PassFates(s, config.depth, steps, world, 0))
  {
    if steps == [] {
      assert fates + [] == fates;
    } else {
      ChunksCover(from, to, span);
      PassFated(s, fates, config.depth, steps, world, 0, NOTHING, from, to, span);
    }
  }

  lemma WorkingTurnFated(s: State, fates: seq<Fate>, span: nat, config: Config, turn: Turn, out: State, steps: seq<Step>, from: nat, to: nat)
    requires Fated(s, fates) && Sound(s) && RecordedTurn(turn) && Works(s, span, config, turn, out, steps, from, to)
    ensures Fated(Turned(s, span, config, turn).state, fates + TurnFates(s, span, config, turn))
  {
    var ready := s.(nextSeq := s.nextSeq + turn.others);
    TurnWorks(s, span, config, turn, out, steps, from, to);
    SettingOutFated(s, fates, ready.nextSeq, from);
    SettingOutFated(ready, fates, ready.nextSeq, from);
    PlannedFated(out, fates, config, span, steps, turn.world, from, to);
  }

  lemma TurnFated(s: State, fates: seq<Fate>, span: nat, config: Config, turn: Turn)
    requires Fated(s, fates) && Sound(s) && RecordedTurn(turn)
    ensures Fated(Turned(s, span, config, turn).state, fates + TurnFates(s, span, config, turn))
  {
    if out, steps, from, to :| Works(s, span, config, turn, out, steps, from, to) {
      WorkingTurnFated(s, fates, span, config, turn, out, steps, from, to);
    } else {
      TurnRests(s, span, config, turn);
      SettingOutFated(s, fates, s.nextSeq + turn.others, 0);
      assert fates + [] == fates;
    }
  }

  lemma {:induction false} RunFated(config: Config, firstSeq: nat, turns: seq<Turn>)
    requires forall i :: 0 <= i < |turns| ==> RecordedTurn(turns[i])
    ensures Fated(Ran(config, firstSeq, turns).state, Fates(config, firstSeq, turns))
    decreases |turns|
  {
    if turns != [] {
      var front := turns[..|turns| - 1];
      RunFated(config, firstSeq, front);
      RunKeeps(config, firstSeq, front);
      var before, fates := Ran(config, firstSeq, front), Fates(config, firstSeq, front);
      assert fates + [] == fates;
      if before.Running? { TurnFated(before.state, fates, before.span, config, turns[|turns| - 1]); }
    }
  }

  lemma StandingMeansNotLost(s: State, block: nat)
    requires Sequenced(s) && (NeverFromGenesis(s.log) || GenesisLost(s)) && Stood(s.log, block)
    ensures block > 0 || NeverFromGenesis(s.log)
  {
    if !NeverFromGenesis(s.log) { LostGenesisNeverStands(s); }
  }

  lemma OnlyTheLatestAccepted(s: State, fates: seq<Fate>, k: nat, block: nat)
    requires Marked(s.log, fates) && AcceptedIsLatest(s, fates) && CapturedWasAccepted(s, fates)
    requires s.cursor.Some? && s.start <= block <= s.cursor.value && (block > 0 || NeverFromGenesis(s.log)) && FetchStands(s.log, k, block)
    ensures LatestAt(s.log, k, block) ==> fates[k].Accepted?
    ensures !LatestAt(s.log, k, block) ==> fates[k].Aborted? || fates[k].Unacknowledged?
  {
    assert LatestWasAccepted(s.log, fates, block);
    var j: nat :| LatestAt(s.log, j, block) && fates[j].Accepted?;
    assert !(j < k) && (LatestAt(s.log, k, block) ==> !(k < j));
  }

  /**
    Over every run whose reorganisations are all recorded: of the fetches of a captured block that stand, the latest was
    accepted, and every other is one that found a fork itself or whose handing on failed.
   */
  lemma OnlyTheLatestStandingWasAccepted(config: Config, firstSeq: nat, turns: seq<Turn>, k: nat, block: nat)
    requires forall i :: 0 <= i < |turns| ==> RecordedTurn(turns[i])
    requires var s := Ran(config, firstSeq, turns).state;
             s.cursor.Some? && s.start <= block <= s.cursor.value && FetchStands(s.log, k, block)
    ensures var (log, fates) := (Ran(config, firstSeq, turns).state.log, Fates(config, firstSeq, turns));
            && |fates| == |log|
            && (LatestAt(log, k, block) ==> fates[k].Accepted?)
            && (!LatestAt(log, k, block) ==> fates[k].Aborted? || fates[k].Unacknowledged?)
  {
    RunFated(config, firstSeq, turns);
    RunKeeps(config, firstSeq, turns);
    var s, fates := Ran(config, firstSeq, turns).state, Fates(config, firstSeq, turns);
    StandingMeansNotLost(s, block);
    OnlyTheLatestAccepted(s, fates, k, block);
  }

  /** Two fetches are of chains that agree at the block. */
  predicate AgreeAt(log: seq<Entry>, j: nat, k: nat, block: nat) {
    && j < |log| && k < |log| && log[j].Fetched? && log[k].Fetched?
    && block <= Height(log[j].chain) && block <= Height(log[k].chain)
    && AncestorAt(log[j].chain, block) == AncestorAt(log[k].chain, block)
  }

  /** Everything that stands for the block is of chains that agree at it. */
  ghost predicate StandAlike(log: seq<Entry>, block: nat) {
    forall j: nat, k: nat :: FetchStands(log, j, block) && FetchStands(log, k, block) ==> AgreeAt(log, j, k, block)
  }

  lemma AlikeExactly(log: seq<Entry>, fates: seq<Fate>, latest: nat, block: nat)
    requires |fates| == |log| && FetchStands(log, latest, block) && AgreeAt(log, latest, latest, block)
    requires forall k: nat :: FetchStands(log, k, block) && fates[k].Accepted? ==> k == latest
    ensures StandAlike(log, block) <==>
              forall k: nat :: FetchStands(log, k, block) && !fates[k].Accepted? ==> AgreeAt(log, k, latest, block)
  {
    if forall k: nat :: FetchStands(log, k, block) && !fates[k].Accepted? ==> AgreeAt(log, k, latest, block) {
      forall k: nat | FetchStands(log, k, block) ensures AgreeAt(log, k, latest, block) {
        assert fates[k].Accepted? ==> k == latest;
      }
    }
  }

  lemma LatestIsOfTop(s: State, top: Block, latest: nat, block: nat)
    requires FaithfulTo(s, top) && s.start <= block <= Height(top) && LatestAt(s.log, latest, block)
    ensures block <= Height(s.log[latest].chain) && AncestorAt(s.log[latest].chain, block) == AncestorAt(top, block)
  {
    assert LatestIs(s.log, block, AncestorAt(top, block));
    var j: nat :| LatestAt(s.log, j, block) && block <= Height(s.log[j].chain) && AncestorAt(s.log[j].chain, block) == AncestorAt(top, block);
    assert !(j < latest) && !(latest < j);
  }

  /**
    The latest fetch of a captured block is of the chain the record follows, and all that stands for the block agrees with it,
    and with one another, if and only if each fetch that was aborted or never acknowledged and still stands agrees with it.
   */
  lemma AllStandingFollowExactly(config: Config, firstSeq: nat, turns: seq<Turn>, latest: nat, block: nat)
    requires HonestRun(config, firstSeq, turns) && forall i :: 0 <= i < |turns| ==> RecordedTurn(turns[i])
    requires var s := Ran(config, firstSeq, turns).state;
             s.cursor.Some? && s.start <= block <= s.cursor.value && LatestAt(s.log, latest, block)
    ensures var (s, fates) := (Ran(config, firstSeq, turns).state, Fates(config, firstSeq, turns));
            && |fates| == |s.log| && (Represented(s.log, block) ==> FetchStands(s.log, latest, block))
            && (forall top :: FaithfulTo(s, top) ==>
                  block <= Height(s.log[latest].chain) && AncestorAt(s.log[latest].chain, block) == AncestorAt(top, block))
            && (StandAlike(s.log, block) <==>
                  forall k: nat :: FetchStands(s.log, k, block) && !fates[k].Accepted? ==> AgreeAt(s.log, k, latest, block))
  {
    RunFated(config, firstSeq, turns);
    RunKeeps(config, firstSeq, turns);
    RunStaysFaithful(config, firstSeq, turns);
    var s, fates := Ran(config, firstSeq, turns).state, Fates(config, firstSeq, turns);
    RepresentedMeansStood(s.log, block);
    if Stood(s.log, block) { LatestFetchStands(s, latest, block); }
    forall top | FaithfulTo(s, top)
      ensures block <= Height(s.log[latest].chain) && AncestorAt(s.log[latest].chain, block) == AncestorAt(top, block)
    {
      LatestIsOfTop(s, top, latest, block);
    }
    forall k: nat | FetchStands(s.log, k, block) && fates[k].Accepted? ensures k == latest {
      assert LatestAt(s.log, k, block) && !(k < latest) && !(latest < k);
    }
    if Stood(s.log, block) { AlikeExactly(s.log, fates, latest, block); }
  }

  // ---- what the join does not retire --------------------------------------------------------------------------

  lemma StandsAbove(log: seq<Entry>, replaced: Entry, k: nat, block: nat)
    requires FetchStands(log, k, block) && replaced.Replaced? && replaced.reorg.toBlock < block
    ensures FetchStands(log + [replaced], k, block)
  {
  }

  /**
    The step that found a fork was itself recorded first, and lies above the range the reorganisation names:
    its rows stand, although the cursor has gone back below them and they will be read again.
   */
  lemma AbortedStepStaysStanding(s: State, depth: nat, step: Step, w: Answers, top: Block, block: nat)
    requires Sequenced(s) && FaithfulTo(s, top) && Follows(s, step) && step.from <= block <= step.to
    requires w.logs.Read? && w.logs.taking.Taken? && HonestHeaders(w.headers, w.logs.chain, step)
    requires Checked(s, step, w.headers) && AncestorAt(w.logs.chain, Height(top)) != top
    ensures var after := Stepped(s, depth, step, w).0;
            && after.cursor.Some? && after.cursor.value < block
            && FetchStands(after.log, |s.log|, block) && after.log[|s.log|] == Fetched(step, w.logs.chain, s.nextSeq)
  {
    ForkedState(s, depth, step, w, top);
    NewFetchStands(s, step, w.logs.chain, block);
    var took := s.log + [Fetched(step, w.logs.chain, s.nextSeq)];
    var after := Stepped(s, depth, step, w).0;
    if w.reorgRecorded { StandsAbove(took, after.log[|took|], |s.log|, block); }
  }
}
