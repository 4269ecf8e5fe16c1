/** What the record of a captured chain is worth, over every run of the cursor. */
module ChainRecord {
  import opened Text
  import opened Trail
  import opened ChainCapture
  import Standing

  // ---- standing fetches -------------------------------------------------------------------------

  function At(e: Entry): nat {
    match e
    case Fetched(_, _, at) => at
    case Replaced(r) => r.streamSeq
  }

  predicate Covers(e: Entry, block: nat) {
    e.Fetched? && e.step.from <= block <= e.step.to
  }

  function ReorgsOf(log: seq<Entry>): seq<Standing.Reorganised> {
    if log == [] then []
    else ReorgsOf(log[..|log| - 1]) + if log[|log| - 1].Replaced? then [log[|log| - 1].reorg] else []
  }

  predicate NotContradicted(log: seq<Entry>, block: nat, at: nat) {
    forall j :: 0 <= j < |log| && log[j].Replaced? ==> !log[j].reorg.Contradicts(block, at)
  }

  /** The join of the record with its own reorganisations. */
  lemma {:induction false} StandsInTheLog(log: seq<Entry>, block: nat, at: nat)
    ensures NotContradicted(log, block, at) <==> Standing.Stands(ReorgsOf(log), block, at)
    decreases |log|
  {
    if log != [] {
      var front, last := log[..|log| - 1], log[|log| - 1];
      StandsInTheLog(front, block, at);
      var reorgs := ReorgsOf(log);
      assert forall j :: 0 <= j < |front| ==> front[j] == log[j];
      if last.Replaced? {
        assert reorgs == ReorgsOf(front) + [last.reorg];
        assert NotContradicted(log, block, at) <==> NotContradicted(front, block, at) && !last.reorg.Contradicts(block, at);
        assert forall i :: 0 <= i < |ReorgsOf(front)| ==> reorgs[i] == ReorgsOf(front)[i];
        assert reorgs[|reorgs| - 1] == last.reorg;
      } else {
        assert reorgs == ReorgsOf(front);
      }
    }
  }

  predicate FetchStands(log: seq<Entry>, k: nat, block: nat) {
    k < |log| && Covers(log[k], block) && NotContradicted(log, block, log[k].at)
  }

  ghost predicate Stood(log: seq<Entry>, block: nat) {
    exists k :: FetchStands(log, k, block)
  }

  /** Sequences rise through the record, and the next is above them all. */
  predicate Sequenced(s: State) {
    && (forall i, j :: 0 <= i < j < |s.log| ==> At(s.log[i]) < At(s.log[j]))
    && (forall i :: 0 <= i < |s.log| ==> At(s.log[i]) < s.nextSeq)
  }

  /** Every block captured so far, from `least` on, has a fetch no reorganisation since contradicts. */
  ghost predicate CoveredFrom(s: State, least: nat) {
    s.cursor.Some? ==> forall b: nat :: s.start <= b <= s.cursor.value && least <= b ==> Stood(s.log, b)
  }

  ghost predicate Covered(s: State) {
    CoveredFrom(s, 0)
  }

  predicate NeverFromGenesis(log: seq<Entry>) {
    forall j :: 0 <= j < |log| && log[j].Replaced? ==> log[j].reorg.fromBlock >= 1
  }

  /** A reorganisation has reached the first block of the chain, which no fetch since has covered. */
  ghost predicate GenesisLost(s: State) {
    && s.cursor.Some?
    && exists j :: 0 <= j < |s.log| && s.log[j].Replaced? && s.log[j].reorg.fromBlock == 0
                   && forall k :: j < k < |s.log| ==> !Covers(s.log[k], 0)
  }

  ghost predicate Kept(s: State) {
    && Sequenced(s) && CoveredFrom(s, 1)
    && if NeverFromGenesis(s.log) then Covered(s) else GenesisLost(s)
  }

  predicate HeldFrom(held: Held, floor: nat) {
    forall h :: h in held ==> h >= floor
  }

  predicate ReplacedFrom(log: seq<Entry>, floor: nat) {
    forall j :: 0 <= j < |log| && log[j].Replaced? ==> log[j].reorg.fromBlock >= floor
  }

  /** Nothing held or replaced lies before where the run set out; before it sets out there is nothing of either. */
  predicate Beginning(s: State) {
    && HeldFrom(s.held, s.start) && ReplacedFrom(s.log, s.start)
    && (s.cursor.Some? ==> s.cursor.value + 1 >= s.start)
    && (s.cursor.None? ==> s.held == map[] && forall j :: 0 <= j < |s.log| ==> s.log[j].Fetched?)
  }

  /** A step asks for what follows the cursor, or for where the run sets out. */
  predicate Follows(s: State, step: Step) {
    step.from <= step.to && step.from == if s.cursor.Some? then s.cursor.value + 1 else s.start
  }

  // ---- one step keeps them ------------------------------------------------------------------------

  lemma StoodAfterFetch(log: seq<Entry>, fetch: Entry, block: nat)
    requires fetch.Fetched? && Stood(log, block)
    ensures Stood(log + [fetch], block)
  {
    var k: nat :| FetchStands(log, k, block);
    assert FetchStands(log + [fetch], k, block);
  }

  lemma StoodAfterReplacement(log: seq<Entry>, replaced: Entry, block: nat)
    requires replaced.Replaced? && block < replaced.reorg.fromBlock && Stood(log, block)
    ensures Stood(log + [replaced], block)
  {
    var k: nat :| FetchStands(log, k, block);
    assert FetchStands(log + [replaced], k, block);
  }

  lemma NewFetchStands(s: State, step: Step, chain: Block, block: nat)
    requires Sequenced(s) && step.from <= block <= step.to
    ensures FetchStands(s.log + [Fetched(step, chain, s.nextSeq)], |s.log|, block)
  {
    var log := s.log + [Fetched(step, chain, s.nextSeq)];
    forall j | 0 <= j < |log| && log[j].Replaced? ensures !log[j].reorg.Contradicts(block, s.nextSeq) {
      assert log[j] == s.log[j] && At(s.log[j]) < s.nextSeq;
    }
  }

  lemma Appended(s: State, entry: Entry, after: State)
    requires Sequenced(s) && At(entry) == s.nextSeq < after.nextSeq && after.log == s.log + [entry]
    ensures Sequenced(after)
  {
    forall i, j | 0 <= i < j < |after.log| ensures At(after.log[i]) < At(after.log[j]) {
      if j < |s.log| { assert after.log[i] == s.log[i] && after.log[j] == s.log[j]; }
    }
  }

  lemma TakingKeeps(s: State, step: Step, chain: Block, taking: Taking)
    requires Sequenced(s)
    ensures Sequenced(TookLogs(s, step, chain, taking)) && s.log <= TookLogs(s, step, chain, taking).log
    ensures forall b :: Stood(s.log, b) ==> Stood(TookLogs(s, step, chain, taking).log, b)
  {
    var after := TookLogs(s, step, chain, taking);
    if taking.Taken? || taking.recorded {
      var entry := Fetched(step, chain, s.nextSeq);
      Appended(s, entry, after);
      forall b | Stood(s.log, b) ensures Stood(after.log, b) { StoodAfterFetch(s.log, entry, b); }
    }
  }

  /**
    Going back keeps every block up to the new cursor covered, exactly unless the reorganisation recorded
    reaches the first block of the chain: no cursor names the block before that one, so it is not read again.
   */
  lemma GoingBackCoversExactly(s: State, reorg: Reorg, w: Answers)
    requires Sequenced(s) && Covered(s) && s.cursor.Some?
    ensures var after := WentBack(s, reorg, w);
            && Sequenced(after)
            && (Covered(after) <==> !(w.reorgRecorded && ForkFrom(s.held, w.probes, reorg.fromBlock) == 0 && s.start == 0))
  {
    var after, from := WentBack(s, reorg, w), ForkFrom(s.held, w.probes, reorg.fromBlock);
    var entry := Replaced(Standing.Reorganised(from, reorg.toBlock, s.nextSeq));
    if w.reorgRecorded {
      Appended(s, entry, after);
      if from == 0 && s.start == 0 {
        assert after.log[|s.log|] == entry;
        assert !Stood(after.log, 0);
        assert after.cursor.value == 0 && !Covered(after);
      } else {
        forall b: nat | after.start <= b <= after.cursor.value ensures Stood(after.log, b) { StoodAfterReplacement(s.log, entry, b); }
      }
    }
  }

  lemma GoingBackCoversTheRest(s: State, reorg: Reorg, w: Answers)
    requires Sequenced(s) && CoveredFrom(s, 1) && s.cursor.Some?
    ensures CoveredFrom(WentBack(s, reorg, w), 1)
  {
    var after, from := WentBack(s, reorg, w), ForkFrom(s.held, w.probes, reorg.fromBlock);
    if w.reorgRecorded {
      var entry := Replaced(Standing.Reorganised(from, reorg.toBlock, s.nextSeq));
      forall b: nat | after.start <= b <= after.cursor.value && 1 <= b ensures Stood(after.log, b) { StoodAfterReplacement(s.log, entry, b); }
    }
  }

  lemma GoingBackBeforeSettingOut(s: State, reorg: Reorg, w: Answers)
    requires Sequenced(s) && s.cursor.None? && Stood(s.log, s.start) && NeverFromGenesis(s.log)
    requires ForkFrom(s.held, w.probes, reorg.fromBlock) <= s.start
    ensures Kept(WentBack(s, reorg, w))
  {
    var after, from := WentBack(s, reorg, w), ForkFrom(s.held, w.probes, reorg.fromBlock);
    if w.reorgRecorded {
      var entry := Replaced(Standing.Reorganised(from, reorg.toBlock, s.nextSeq));
      Appended(s, entry, after);
      assert after.log[|s.log|] == entry;
    }
  }

  /** Each header answers for the height that was asked for. */
  predicate Numbered(w: Answers) {
    forall h :: h in w.headers ==> w.headers[h].number == h
  }

  lemma OneHeader(held: Held, depth: nat, height: nat, headers: map<nat, Header>)
    requires forall h :: h in headers ==> headers[h].number == h
    ensures var reorg := Walked(held, depth, [height], headers).1;
            reorg.Some? ==> 1 <= height && height - 1 in held && reorg.value.fromBlock == height - 1
  {
    assert [height][1..] == [];
  }

  lemma FirstHeadersForkNoLower(depth: nat, step: Step, headers: map<nat, Header>)
    requires step.from <= step.to && forall h :: h in headers ==> headers[h].number == h
    ensures var reorg := Walked(map[], depth, HeightsOf(step), headers).1;
            reorg.Some? ==> reorg.value.fromBlock == step.from
  {
    if step.to == step.from {
      OneHeader(map[], depth, step.from, headers);
    } else {
      assert HeightsOf(step)[1..] == [step.to];
      var held := if step.from in headers then HeldAfter(map[], depth, headers[step.from]) else map[];
      assert forall h :: h in held ==> h == step.from;
      assert Walked(map[], depth, HeightsOf(step), headers) == Walked(held, depth, [step.to], headers);
      OneHeader(held, depth, step.to, headers);
    }
  }

  lemma HeldAfterFrom(held: Held, depth: nat, header: Header, floor: nat)
    requires HeldFrom(held, floor) && header.number >= floor
    ensures HeldFrom(HeldAfter(held, depth, header), floor)
    ensures LinkOf(held, header).Reorganised? ==>
              var reorg := LinkOf(held, header).reorg;
              reorg.fromBlock >= floor && reorg.fromBlock + 1 == header.number && reorg.toBlock >= reorg.fromBlock
  {
  }

  /** A walk holds nothing below its heights, and a fork it shows is at the height before one of them. */
  lemma {:induction false} WalkedFrom(held: Held, depth: nat, heights: seq<nat>, headers: map<nat, Header>, floor: nat)
    requires HeldFrom(held, floor) && (forall i :: 0 <= i < |heights| ==> heights[i] >= floor)
    requires forall h :: h in headers ==> headers[h].number == h
    ensures var (after, reorg) := Walked(held, depth, heights, headers);
            && HeldFrom(after, floor)
            && (reorg.Some? ==> reorg.value.fromBlock >= floor && reorg.value.fromBlock + 1 in heights
                                && reorg.value.toBlock >= reorg.value.fromBlock)
    decreases |heights|
  {
    if heights != [] {
      if heights[0] !in headers {
        WalkedFrom(held, depth, heights[1..], headers, floor);
      } else {
        HeldAfterFrom(held, depth, headers[heights[0]], floor);
        WalkedFrom(HeldAfter(held, depth, headers[heights[0]]), depth, heights[1..], headers, floor);
      }
    }
  }

  lemma {:induction false} SearchStaysFrom(held: Held, probes: map<nat, Block>, height: nat, lowest: nat, floor: nat)
    requires HeldFrom(held, floor) && lowest >= floor
    ensures ForkSearch(HeldBelow(held, height), probes, lowest) >= floor
    decreases height
  {
    if height > 0 {
      var below := HeldBelow(held, height - 1);
      if height - 1 !in held {
        assert HeldBelow(held, height) == below;
        SearchStaysFrom(held, probes, height - 1, lowest, floor);
      } else {
        var found := HeldBelow(held, height);
        assert found[0] == (height - 1, held[height - 1]) && found[1..] == below;
        SearchStaysFrom(held, probes, height - 1, height - 1, floor);
      }
    }
  }

  /** What holds of a run between steps. */
  ghost predicate Sound(s: State) {
    Kept(s) && Beginning(s)
  }

  lemma AcceptingCovers(s: State, step: Step, chain: Block, held: Held, least: nat)
    requires Sequenced(s) && CoveredFrom(s, least) && Follows(s, step)
    ensures var took := TookLogs(s, step, chain, Taken); CoveredFrom(took.(held := held, cursor := Some(step.to)), least)
  {
    TakingKeeps(s, step, chain, Taken);
    var took := TookLogs(s, step, chain, Taken);
    forall b: nat | s.start <= b <= step.to && least <= b ensures Stood(took.log, b) {
      if b >= step.from { NewFetchStands(s, step, chain, b); }
    }
  }

  lemma LostStaysLost(s: State, entry: Entry, after: State)
    requires GenesisLost(s) && after.cursor.Some? && after.log == s.log + [entry] && !Covers(entry, 0)
    ensures GenesisLost(after)
  {
    var j :| 0 <= j < |s.log| && s.log[j].Replaced? && s.log[j].reorg.fromBlock == 0
             && forall k :: j < k < |s.log| ==> !Covers(s.log[k], 0);
    assert after.log[j] == s.log[j];
  }

  lemma JustLost(s: State, entry: Entry, after: State)
    requires after.cursor.Some? && after.log == s.log + [entry] && entry.Replaced? && entry.reorg.fromBlock == 0
    ensures GenesisLost(after)
  {
    assert after.log[|s.log|] == entry;
  }

  lemma LogGrows(before: seq<Entry>, entry: Entry)
    ensures NeverFromGenesis(before + [entry]) <==> NeverFromGenesis(before) && !(entry.Replaced? && entry.reorg.fromBlock == 0)
  {
    var after := before + [entry];
    assert after[|before|] == entry && forall j :: 0 <= j < |before| ==> after[j] == before[j];
  }

  /** A fetch recorded above the cursor changes nothing below it, whatever comes of it. */
  lemma FetchKeeps(s: State, step: Step, chain: Block, after: State)
    requires Kept(s) && Follows(s, step)
    requires after == s.(nextSeq := s.nextSeq + 1, log := s.log + [Fetched(step, chain, s.nextSeq)])
    ensures Kept(after)
  {
    var entry := Fetched(step, chain, s.nextSeq);
    Appended(s, entry, after);
    LogGrows(s.log, entry);
    forall b | Stood(s.log, b) ensures Stood(after.log, b) { StoodAfterFetch(s.log, entry, b); }
    if !NeverFromGenesis(s.log) { LostStaysLost(s, entry, after); }
  }

  lemma GoingBackOnward(s: State, reorg: Reorg, w: Answers)
    requires Kept(s) && s.cursor.Some?
    ensures Kept(WentBack(s, reorg, w))
  {
    var after, from := WentBack(s, reorg, w), ForkFrom(s.held, w.probes, reorg.fromBlock);
    var entry := Replaced(Standing.Reorganised(from, reorg.toBlock, s.nextSeq));
    GoingBackCoversTheRest(s, reorg, w);
    if w.reorgRecorded {
      Appended(s, entry, after);
      LogGrows(s.log, entry);
      if !NeverFromGenesis(s.log) {
        LostStaysLost(s, entry, after);
      } else if from == 0 {
        JustLost(s, entry, after);
      } else {
        GoingBackCoversExactly(s, reorg, w);
      }
    } else if NeverFromGenesis(s.log) {
      GoingBackCoversExactly(s, reorg, w);
    }
  }

  lemma GoingBackKeeps(s: State, step: Step, chain: Block, held: Held, reorg: Reorg, w: Answers)
    requires Sound(s) && Follows(s, step) && (s.cursor.None? ==> reorg.fromBlock == step.from)
    ensures Kept(WentBack(TookLogs(s, step, chain, Taken).(held := held), reorg, w))
  {
    var took := TookLogs(s, step, chain, Taken).(held := held);
    FetchKeeps(s, step, chain, TookLogs(s, step, chain, Taken));
    if s.cursor.Some? {
      GoingBackOnward(took, reorg, w);
    } else {
      NewFetchStands(s, step, chain, s.start);
      SearchNeverRises(held, w.probes, reorg.fromBlock, reorg.fromBlock);
      LogGrows(s.log, Fetched(step, chain, s.nextSeq));
      GoingBackBeforeSettingOut(took, reorg, w);
    }
  }

  lemma GoingBackBegins(s: State, reorg: Reorg, w: Answers)
    requires HeldFrom(s.held, s.start) && ReplacedFrom(s.log, s.start) && reorg.fromBlock >= s.start
    requires s.cursor.Some? ==> s.cursor.value + 1 >= s.start
    ensures Beginning(WentBack(s, reorg, w))
  {
    SearchStaysFrom(s.held, w.probes, reorg.fromBlock, reorg.fromBlock, s.start);
    var after := WentBack(s, reorg, w);
    forall j | 0 <= j < |after.log| && after.log[j].Replaced? ensures after.log[j].reorg.fromBlock >= s.start {
      if j < |s.log| { assert after.log[j] == s.log[j]; }
    }
  }

  lemma StepBegins(s: State, depth: nat, step: Step, w: Answers)
    requires Beginning(s) && Follows(s, step) && Numbered(w)
    ensures Beginning(Stepped(s, depth, step, w).0)
  {
    if w.logs.Read? && w.logs.taking.Taken? {
      var took := TookLogs(s, step, w.logs.chain, Taken);
      WalkedFrom(s.held, depth, HeightsOf(step), w.headers, s.start);
      var (held, reorg) := Walked(took.held, depth, HeightsOf(step), w.headers);
      assert ReplacedFrom(took.log, s.start);
      if reorg.Some? { GoingBackBegins(took.(held := held), reorg.value, w); }
    }
  }

  lemma AcceptingKeeps(s: State, step: Step, chain: Block, held: Held)
    requires Kept(s) && Follows(s, step)
    ensures Kept(TookLogs(s, step, chain, Taken).(held := held, cursor := Some(step.to)))
  {
    FetchKeeps(s, step, chain, TookLogs(s, step, chain, Taken));
    LogGrows(s.log, Fetched(step, chain, s.nextSeq));
    AcceptingCovers(s, step, chain, held, 1);
    if NeverFromGenesis(s.log) { AcceptingCovers(s, step, chain, held, 0); }
  }

  lemma TakenStepKept(s: State, depth: nat, step: Step, w: Answers)
    requires Sound(s) && Follows(s, step) && Numbered(w) && w.logs.Read? && w.logs.taking.Taken?
    ensures Kept(Stepped(s, depth, step, w).0)
  {
    var chain := w.logs.chain;
    var (held, reorg) := Walked(s.held, depth, HeightsOf(step), w.headers);
    if reorg.Some? {
      if s.cursor.None? { FirstHeadersForkNoLower(depth, step, w.headers); }
      GoingBackKeeps(s, step, chain, held, reorg.value, w);
    } else {
      AcceptingKeeps(s, step, chain, held);
    }
  }

  lemma StepKeeps(s: State, depth: nat, step: Step, w: Answers)
    requires Sound(s) && Follows(s, step) && Numbered(w)
    ensures var (after, verdict) := Stepped(s, depth, step, w);
            && Sound(after) && s.log <= after.log
            && (verdict == Onward ==> after.cursor == Some(step.to))
  {
    StepBegins(s, depth, step, w);
    if w.logs.Read? {
      if w.logs.taking.Taken? {
        TakenStepKept(s, depth, step, w);
      } else if w.logs.taking.recorded {
        FetchKeeps(s, step, w.logs.chain, TookLogs(s, step, w.logs.chain, w.logs.taking));
      }
    }
  }

  // ---- every run --------------------------------------------------------------------------------------

  ghost predicate NumberedTurn(turn: Turn) {
    forall i :: Numbered(turn.world(i))
  }

  lemma PassedOneStep(s: State, depth: nat, steps: seq<Step>, world: nat -> Answers, i: nat, pass: Pass)
    requires i < |steps|
    ensures var (after, verdict) := Stepped(s, depth, steps[i], world(i));
            PassedFrom(s, depth, steps, world, i, pass).0 ==
              if verdict == Onward
              then PassedFrom(after, depth, steps, world, i + 1, pass.(blocks := pass.blocks + steps[i].Blocks())).0
              else after
  {
  }

  lemma OneStepKeeps(s: State, depth: nat, steps: seq<Step>, w: Answers, i: nat, from: nat, to: nat, span: nat)
    requires i < |steps| && Covering(steps, from, to, span) && Numbered(w) && Sound(s) && Follows(s, steps[i])
    ensures var (after, verdict) := Stepped(s, depth, steps[i], w);
            Sound(after) && (verdict == Onward && i + 1 < |steps| ==> Follows(after, steps[i + 1]))
  {
    StepKeeps(s, depth, steps[i], w);
  }

  lemma {:induction false} PassKeeps(s: State, depth: nat, steps: seq<Step>, world: nat -> Answers, i: nat, pass: Pass,
                                     from: nat, to: nat, span: nat)
    requires i <= |steps| && Covering(steps, from, to, span) && (forall k :: Numbered(world(k)))
    requires Sound(s) && (i < |steps| ==> Follows(s, steps[i]))
    ensures Sound(PassedFrom(s, depth, steps, world, i, pass).0)
    decreases |steps| - i
  {
    if i < |steps| {
      OneStepKeeps(s, depth, steps, world(i), i, from, to, span);
      PassedOneStep(s, depth, steps, world, i, pass);
      var (after, verdict) := Stepped(s, depth, steps[i], world(i));
      if verdict == Onward {
        PassKeeps(after, depth, steps, world, i + 1, pass.(blocks := pass.blocks + steps[i].Blocks()), from, to, span);
      }
    }
  }

  lemma WholePassKeeps(s: State, config: Config, span: nat, head: Option<nat>, world: nat -> Answers)
    requires Sound(s) && (forall k :: Numbered(world(k)))
    ensures Sound(Passed(s, config, span, head, world).0)
  {
    if head.Some? {
      var from := FromOf(s, config, head.value);
      var planned := PlanOf(span, config.earliest, from, head.value);
      if from <= head.value && planned.Steps? {
        var out := SetOut(s, from);
        if planned.steps == [] {
          assert Passed(s, config, span, head, world).0 == out;
        } else {
          ChunksCover(from, head.value, span);
          PassKeeps(out, config.depth, planned.steps, world, 0, NOTHING, from, head.value, span);
        }
      }
    }
  }

  lemma TurnState(s: State, span: nat, config: Config, turn: Turn)
    ensures var ready := s.(nextSeq := s.nextSeq + turn.others);
            Turned(s, span, config, turn).state == if turn.referenceRead then Passed(ready, config, span, turn.head, turn.world).0 else ready
  {
  }

  lemma TurnKeeps(s: State, span: nat, config: Config, turn: Turn)
    requires Sound(s) && NumberedTurn(turn)
    ensures Sound(Turned(s, span, config, turn).state)
  {
    var ready := s.(nextSeq := s.nextSeq + turn.others);
    TurnState(s, span, config, turn);
    assert Sound(ready);
    WholePassKeeps(ready, config, span, turn.head, turn.world);
  }

  lemma {:induction false} RunKeeps(config: Config, firstSeq: nat, turns: seq<Turn>)
    requires forall i :: 0 <= i < |turns| ==> NumberedTurn(turns[i])
    ensures Sound(Ran(config, firstSeq, turns).state)
    decreases |turns|
  {
    if turns != [] {
      RunKeeps(config, firstSeq, turns[..|turns| - 1]);
      var before := Ran(config, firstSeq, turns[..|turns| - 1]);
      if before.Running? { TurnKeeps(before.state, before.span, config, turns[|turns| - 1]); }
    }
  }

  /** A fetch of the block is recorded, and its rows are uncontradicted. */
  ghost predicate Represented(log: seq<Entry>, block: nat) {
    exists k :: 0 <= k < |log| && Covers(log[k], block)
      && Standing.StandingOf(ReorgsOf(log), Standing.Row(block, log[k].at)) == Standing.Uncontradicted
  }

  lemma RepresentedMeansStood(log: seq<Entry>, block: nat)
    ensures Represented(log, block) <==> Stood(log, block)
  {
    forall k | 0 <= k < |log| && Covers(log[k], block)
      ensures Standing.StandingOf(ReorgsOf(log), Standing.Row(block, log[k].at)) == Standing.Uncontradicted
          <==> FetchStands(log, k, block)
    {
      StandsInTheLog(log, block, log[k].at);
      Standing.StandingNamesTheLatest(ReorgsOf(log), Standing.Row(block, log[k].at));
    }
    if Represented(log, block) {
      var k :| 0 <= k < |log| && Covers(log[k], block)
        && Standing.StandingOf(ReorgsOf(log), Standing.Row(block, log[k].at)) == Standing.Uncontradicted;
      assert FetchStands(log, k, block);
    }
  }

  lemma LostGenesisNeverStands(s: State)
    requires Sequenced(s) && GenesisLost(s)
    ensures !Stood(s.log, 0)
  {
    var j :| 0 <= j < |s.log| && s.log[j].Replaced? && s.log[j].reorg.fromBlock == 0
             && forall k :: j < k < |s.log| ==> !Covers(s.log[k], 0);
    forall k: nat | k < |s.log| && Covers(s.log[k], 0) ensures !FetchStands(s.log, k, 0) {
      assert k < j && At(s.log[k]) < At(s.log[j]);
      assert s.log[j].reorg.Contradicts(0, s.log[k].at);
    }
  }

  lemma SoundStands(s: State, block: nat)
    requires Sound(s) && s.cursor.Some? && s.start <= block <= s.cursor.value
    ensures Represented(s.log, block) <==> block > 0 || NeverFromGenesis(s.log)
    ensures s.start >= 1 ==> NeverFromGenesis(s.log)
  {
    RepresentedMeansStood(s.log, block);
    if !NeverFromGenesis(s.log) { LostGenesisNeverStands(s); }
  }

  /**
    Whatever fails, forks or is refused: a block from the start to the cursor has a fetch recorded after every
    reorganisation covering it, so that its rows stand, unless it is the first of the chain and a reorganisation reached
    it, and not then; in a run that set out above that block none does.
   */
  lemma EveryCapturedBlockStands(config: Config, firstSeq: nat, turns: seq<Turn>, block: nat)
    requires forall i :: 0 <= i < |turns| ==> NumberedTurn(turns[i])
    requires var s := Ran(config, firstSeq, turns).state; s.cursor.Some? && s.start <= block <= s.cursor.value
    ensures var s := Ran(config, firstSeq, turns).state;
            && (Represented(s.log, block) <==> block > 0 || NeverFromGenesis(s.log))
            && (s.start >= 1 ==> NeverFromGenesis(s.log))
  {
    RunKeeps(config, firstSeq, turns);
    SoundStands(Ran(config, firstSeq, turns).state, block);
  }

  /** And nothing older stands beside it: a row of a block that stands was recorded after every reorganisation of that block. */
  lemma StandingRowsAreNewer(config: Config, firstSeq: nat, turns: seq<Turn>, k: nat, j: nat, block: nat)
    requires forall i :: 0 <= i < |turns| ==> NumberedTurn(turns[i])
    requires var log := Ran(config, firstSeq, turns).state.log;
             && k < |log| && Covers(log[k], block)
             && j < |log| && log[j].Replaced? && log[j].reorg.fromBlock <= block <= log[j].reorg.toBlock
    ensures var log := Ran(config, firstSeq, turns).state.log;
            Standing.StandingOf(ReorgsOf(log), Standing.Row(block, log[k].at)) == Standing.Uncontradicted ==> j < k
  {
    RunKeeps(config, firstSeq, turns);
    var s := Ran(config, firstSeq, turns).state;
    StandsInTheLog(s.log, block, s.log[k].at);
    Standing.StandingNamesTheLatest(ReorgsOf(s.log), Standing.Row(block, s.log[k].at));
    if k < j { assert At(s.log[k]) < At(s.log[j]); }
  }

  // ---- a turn of one step ----------------------------------------------------------------------------

  /** A head near enough behind which everything left to ask for fits one step. */
  predicate AsksOnce(s: State, span: nat, config: Config, turn: Turn, step: Step) {
    && turn.referenceRead && turn.head == Some(step.to) && step.from == FromOf(s, config, step.to)
    && step.from <= step.to && step.to - step.from < span && (config.earliest.Some? ==> step.from >= config.earliest.value)
  }

  lemma PassOfOneStep(s: State, span: nat, config: Config, turn: Turn, step: Step)
    requires AsksOnce(s, span, config, turn, step)
    ensures var ready := s.(nextSeq := s.nextSeq + turn.others);
            Passed(ready, config, span, turn.head, turn.world) ==
              PassedFrom(SetOut(ready, step.from), config.depth, [step], turn.world, 0, NOTHING)
  {
    assert Chunks(step.from, step.to, span) == [step];
  }

  lemma TurnOfOneStep(s: State, span: nat, config: Config, turn: Turn, step: Step)
    requires AsksOnce(s, span, config, turn, step) && turn.flushed && span >= config.maxSpan
    ensures var out := SetOut(s.(nextSeq := s.nextSeq + turn.others), step.from);
            var (after, verdict) := Stepped(out, config.depth, step, turn.world(0));
            verdict == Onward || verdict.Forked? ==> Turned(s, span, config, turn) == Running(after, span)
  {
    PassOfOneStep(s, span, config, turn, step);
  }

  lemma RanOneMore(config: Config, firstSeq: nat, front: seq<Turn>, turn: Turn)
    ensures Ran(config, firstSeq, front + [turn]) ==
      var before := Ran(config, firstSeq, front);
      if before.Stopped? then before else Turned(before.state, before.span, config, turn)
  {
    assert (front + [turn])[..|front|] == front;
  }
}
