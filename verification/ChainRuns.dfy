/** Runs of the cursor, block by block, in which the record keeps rows of chains that were replaced. */
module ChainRuns {
  import opened Text
  import opened Trail
  import opened ChainCapture
  import opened ChainRecord
  import opened ChainFidelity
  import Standing

  const GENESIS := Genesis(0)

  /** Three chains that share their first block alone. */
  function Grown(height: nat, id: nat): Block {
    if height == 0 then GENESIS else Child(Grown(height - 1, id), id)
  }

  lemma {:induction false} GrownHeight(height: nat, id: nat)
    ensures Height(Grown(height, id)) == height
    decreases height
  {
    if height > 0 { GrownHeight(height - 1, id); }
  }

  lemma {:induction false} GrownAncestor(height: nat, id: nat, lower: nat)
    requires lower <= height
    ensures lower <= Height(Grown(height, id)) && AncestorAt(Grown(height, id), lower) == Grown(lower, id)
    decreases height
  {
    GrownHeight(height, id);
    if lower < height { GrownAncestor(height - 1, id, lower); }
  }

  /** Everything the node says of one step, the headers at both ends read. */
  function Told(chain: Block, step: Step, probes: map<nat, Block>): nat -> Answers
    requires step.from <= step.to <= Height(chain)
  {
    var headers := map[step.from := HeaderOf(chain, step.from), step.to := HeaderOf(chain, step.to)];
    i => Answers(Read(chain, Taken), headers, probes, true, true)
  }

  function Telling(chain: Block, step: Step, probes: map<nat, Block>): Turn
    requires step.from <= step.to <= Height(chain)
  {
    Turn(0, true, Some(step.to), Told(chain, step, probes), true)
  }

  lemma ToldIsHonest(chain: Block, step: Step, probes: map<nat, Block>)
    requires step.from <= step.to <= Height(chain)
    ensures var w := Told(chain, step, probes)(0);
            && w.logs == Read(chain, Taken) && HonestHeaders(w.headers, chain, step) && w.probes == probes && w.reorgRecorded && w.flushed
            && step.from in w.headers && step.to in w.headers
  {
  }

  lemma ToldStep(s: State, depth: nat, step: Step, chain: Block, probes: map<nat, Block>)
    requires step.from <= step.to <= Height(chain)
    ensures var verdict := Stepped(s, depth, step, Told(chain, step, probes)(0)).1; verdict == Onward || verdict.Forked?
  {
  }

  /** A turn of one step told by one chain leaves what the step leaves, at the span declared. */
  lemma ToldTurn(config: Config, front: seq<Turn>, s: State, chain: Block, step: Step, probes: map<nat, Block>)
    requires config.maxSpan >= 1 && config.earliest.None? && step.from <= step.to <= Height(chain)
    requires Ran(config, 0, front) == Running(s, config.maxSpan)
    requires step.from == FromOf(s, config, step.to) && step.to - step.from < config.maxSpan
    ensures Ran(config, 0, front + [Telling(chain, step, probes)])
         == Running(Stepped(SetOut(s, step.from), config.depth, step, Told(chain, step, probes)(0)).0, config.maxSpan)
  {
    var turn := Telling(chain, step, probes);
    RanOneMore(config, 0, front, turn);
    ToldStep(SetOut(s, step.from), config.depth, step, chain, probes);
    assert s.(nextSeq := s.nextSeq + turn.others) == s;
    TurnOfOneStep(s, config.maxSpan, config, turn, step);
  }

  /** A step whose chain goes on from the one captured. */
  lemma ToldOnward(s: State, depth: nat, chain: Block, step: Step, probes: map<nat, Block>, after: State)
    requires Follows(s, step) && step.to <= Height(chain) && Holds(s.held, chain, step.from)
    requires forall b: nat :: s.start <= b < step.from ==> LatestIs(s.log, b, AncestorAt(chain, b))
    requires after == Stepped(s, depth, step, Told(chain, step, probes)(0)).0
    ensures after.start == s.start && after.log == s.log + [Fetched(step, chain, s.nextSeq)] && after.nextSeq == s.nextSeq + 1
    ensures FaithfulTo(after, AncestorAt(chain, step.to)) && step.to in after.held
  {
    var w := Told(chain, step, probes)(0);
    ToldIsHonest(chain, step, probes);
    AcceptedFollows(s, depth, step, w);
    AcceptedLog(s, depth, step, w);
  }

  /** A step whose chain has parted from the one captured. */
  lemma ToldBack(s: State, depth: nat, top: Block, chain: Block, step: Step, probes: map<nat, Block>, after: State)
    requires FaithfulTo(s, top) && Height(top) in s.held && Follows(s, step) && step.to <= Height(chain)
    requires AncestorAt(chain, Height(top)) != top
    requires after == Stepped(s, depth, step, Told(chain, step, probes)(0)).0
    ensures var held := HeldAfter(s.held, depth, HeaderOf(chain, step.from));
            var lowest := ForkFrom(held, probes, Height(top));
            && lowest <= Height(top) && after.cursor == Some(Back(lowest, 1)) && after.start == s.start && after.held == Below(held, lowest)
            && after.nextSeq == s.nextSeq + 2 && FaithfulTo(after, AncestorAt(top, Back(lowest, 1)))
            && after.log == s.log + [Fetched(step, chain, s.nextSeq)] + [Replaced(Standing.Reorganised(lowest, Height(top), s.nextSeq + 1))]
  {
    var w := Told(chain, step, probes)(0);
    ToldIsHonest(chain, step, probes);
    ForkedState(s, depth, step, w, top);
    ForkedStaysFaithful(s, depth, step, w, top);
  }

  lemma SecondKeepsFirst(once: Held, depth: nat, step: Step, chain: Block)
    requires step.from < step.to <= Height(chain) && step.to - step.from <= depth && forall h :: h in once ==> h <= step.from
    requires step.from in once && once[step.from] == AncestorAt(chain, step.from)
    ensures !LinkOf(once, HeaderOf(chain, step.to)).Reorganised? && step.from in HeldAfter(once, depth, HeaderOf(chain, step.to))
  {
    SecondHeaderLinks(once, depth, step, chain);
    assert step.to - 1 in once ==> step.to - 1 == step.from;
    LinkAgrees(once, depth, step.to, AncestorAt(chain, step.to), AncestorAt(chain, step.to - 1));
    NewestStays(once[step.to := AncestorAt(chain, step.to)], step.to, depth);
  }

  lemma BothHeld(depth: nat, chain: Block, step: Step, s: State)
    requires step.from < step.to <= Height(chain) && step.to - step.from <= depth && s.held == map[]
    ensures step.from in Stepped(s, depth, step, Told(chain, step, map[])(0)).0.held
  {
    var headers := Told(chain, step, map[])(0).headers;
    var once := HeldAfter(map[], depth, headers[step.from]);
    FirstHeaderLinks(map[], depth, chain, step.from);
    SecondKeepsFirst(once, depth, step, chain);
    WalkedAfterFirst(map[], once, depth, step, headers);
    WalkOfLast(once, depth, step.to, headers);
  }

  /** The first turn of a run: one step, all of it one chain's. */
  lemma FirstTurn(config: Config, chain: Block, step: Step) returns (s: State)
    requires config.maxSpan >= 1 && config.earliest.None? && step.from <= step.to <= Height(chain)
    requires step.from == Back(step.to, config.backfill) && step.to - step.from < config.maxSpan
    ensures Ran(config, 0, [Telling(chain, step, map[])]) == Running(s, config.maxSpan)
    ensures s.start == step.from && s.nextSeq == 1 && s.log == [Fetched(step, chain, 0)]
    ensures FaithfulTo(s, AncestorAt(chain, step.to)) && step.to in s.held
    ensures step.from < step.to <= step.from + config.depth ==> step.from in s.held
  {
    var opening := Opening(config, 0);
    assert [Telling(chain, step, map[])] == [] + [Telling(chain, step, map[])];
    ToldTurn(config, [], opening.state, chain, step, map[]);
    var out := SetOut(opening.state, step.from);
    s := Stepped(out, config.depth, step, Told(chain, step, map[])(0)).0;
    ToldOnward(out, config.depth, chain, step, map[], s);
    if step.from < step.to <= step.from + config.depth { BothHeld(config.depth, chain, step, out); }
  }

  /** A later turn of one step, its chain gone on from the one captured. */
  lemma TurnOnward(config: Config, front: seq<Turn>, s: State, top: Block, chain: Block, step: Step, probes: map<nat, Block>)
    returns (after: State)
    requires config.maxSpan >= 1 && config.earliest.None? && step.from <= step.to <= Height(chain)
    requires Ran(config, 0, front) == Running(s, config.maxSpan) && FaithfulTo(s, top)
    requires step.from == Height(top) + 1 && step.to - step.from < config.maxSpan && AncestorAt(chain, Height(top)) == top
    ensures Ran(config, 0, front + [Telling(chain, step, probes)]) == Running(after, config.maxSpan)
    ensures after.start == s.start && after.log == s.log + [Fetched(step, chain, s.nextSeq)]
    ensures FaithfulTo(after, AncestorAt(chain, step.to))
  {
    ToldTurn(config, front, s, chain, step, probes);
    after := Stepped(s, config.depth, step, Told(chain, step, probes)(0)).0;
    FaithfulToLonger(s, top, chain);
    ToldOnward(s, config.depth, chain, step, probes, after);
  }

  /** A later turn of one step, its chain parted from the one captured; `held` is what the search went back through. */
  lemma TurnBack(config: Config, front: seq<Turn>, s: State, top: Block, chain: Block, step: Step, probes: map<nat, Block>)
    returns (after: State, held: Held)
    requires config.maxSpan >= 1 && config.earliest.None? && step.from <= step.to <= Height(chain)
    requires Ran(config, 0, front) == Running(s, config.maxSpan) && FaithfulTo(s, top) && Height(top) in s.held
    requires step.from == Height(top) + 1 && step.to - step.from < config.maxSpan && AncestorAt(chain, Height(top)) != top
    ensures Ran(config, 0, front + [Telling(chain, step, probes)]) == Running(after, config.maxSpan)
    ensures held == HeldAfter(s.held, config.depth, HeaderOf(chain, step.from))
    ensures var lowest := ForkFrom(held, probes, Height(top));
            && lowest <= Height(top) && after.cursor == Some(Back(lowest, 1)) && after.start == s.start && after.held == Below(held, lowest)
            && after.nextSeq == s.nextSeq + 2 && FaithfulTo(after, AncestorAt(top, Back(lowest, 1)))
            && after.log == s.log + [Fetched(step, chain, s.nextSeq)] + [Replaced(Standing.Reorganised(lowest, Height(top), s.nextSeq + 1))]
  {
    ToldTurn(config, front, s, chain, step, probes);
    after := Stepped(s, config.depth, step, Told(chain, step, probes)(0)).0;
    held := HeldAfter(s.held, config.depth, HeaderOf(chain, step.from));
    ToldBack(s, config.depth, top, chain, step, probes, after);
  }

  // ---- a fork below the trail -------------------------------------------------------------------------------------

  const SHALLOW := Config(2, None, 1, 1)

  function ShallowTurns(): seq<Turn> {
    GrownHeight(2, 1);
    GrownHeight(3, 2);
    [Telling(Grown(2, 1), Step(1, 2), map[]), Telling(Grown(3, 2), Step(3, 3), map[1 := Grown(1, 2)])]
  }

  lemma {:induction false} NothingHeldBelow(held: Held, height: nat)
    requires forall h :: h in held ==> h >= height
    ensures HeldBelow(held, height) == []
    decreases height
  {
    if height > 0 { NothingHeldBelow(held, height - 1); }
  }

  lemma ForkTrims(held: Held, top: Block, header: Header)
    requires Holds(held, top, Height(top) + 1) && Height(top) in held && header.number == Height(top) + 1 && header.parentHash != top
    ensures forall h :: h in HeldAfter(held, 1, header) ==> h >= Height(top)
  {
    ForkIsSeen(held, top, header);
    NewestStays(Below(held, Height(top))[header.number := header.hash], header.number, 1);
  }

  /** A trail one block deep is trimmed to the fork before the search begins, and the search goes no lower. */
  lemma ShallowTurnBack(config: Config, front: seq<Turn>, s: State, top: Block, chain: Block, step: Step, probes: map<nat, Block>)
    returns (after: State)
    requires config.maxSpan >= 1 && config.earliest.None? && config.depth == 1 && step.from <= step.to <= Height(chain)
    requires Ran(config, 0, front) == Running(s, config.maxSpan) && FaithfulTo(s, top) && Height(top) in s.held
    requires step.from == Height(top) + 1 && step.to - step.from < config.maxSpan && AncestorAt(chain, Height(top)) != top
    ensures Ran(config, 0, front + [Telling(chain, step, probes)]) == Running(after, config.maxSpan)
    ensures after.cursor == Some(Back(Height(top), 1)) && after.start == s.start
    ensures after.log == s.log + [Fetched(step, chain, s.nextSeq)] + [Replaced(Standing.Reorganised(Height(top), Height(top), s.nextSeq + 1))]
  {
    var held;
    after, held := TurnBack(config, front, s, top, chain, step, probes);
    ForkTrims(s.held, top, HeaderOf(chain, step.from));
    NothingHeldBelow(held, Height(top));
  }

  lemma ShallowRun(before: Block, after: Block, probes: map<nat, Block>) returns (s: State)
    requires Height(before) == 2 && Height(after) == 3 && AncestorAt(after, 2) != before
    ensures Ran(SHALLOW, 0, [Telling(before, Step(1, 2), map[])] + [Telling(after, Step(3, 3), probes)]) == Running(s, 2)
    ensures s.start == 1 && s.cursor == Some(1)
    ensures s.log == [Fetched(Step(1, 2), before, 0)] + [Fetched(Step(3, 3), after, 1)] + [Replaced(Standing.Reorganised(2, 2, 2))]
  {
    var first := FirstTurn(SHALLOW, before, Step(1, 2));
    s := ShallowTurnBack(SHALLOW, [Telling(before, Step(1, 2), map[])], first, before, after, Step(3, 3), probes);
  }

  /**
    Two turns of a cursor that trails by one block: blocks 1 and 2 are captured of one chain, and then the node follows
    another that parted before block 1. The height the search returns is above block 1, which was replaced: its row
    stands as captured, and the cursor goes on from it.
   */
  lemma ForkBelowTheTrailIsMissed()
    ensures var s := Ran(SHALLOW, 0, ShallowTurns()).state;
            && s.start == 1 && s.cursor == Some(1)
            && |s.log| == 3 && s.log[0] == Fetched(Step(1, 2), Grown(2, 1), 0) && s.log[1] == Fetched(Step(3, 3), Grown(3, 2), 1)
            && s.log[2] == Replaced(Standing.Reorganised(2, 2, 2))
            && FetchStands(s.log, 0, 1) && LatestAt(s.log, 0, 1)
    ensures 1 <= Height(Grown(2, 1)) && 1 <= Height(Grown(3, 2)) && AncestorAt(Grown(2, 1), 1) != AncestorAt(Grown(3, 2), 1)
  {
    GrownHeight(2, 1);
    GrownHeight(3, 2);
    GrownAncestor(2, 1, 1);
    GrownAncestor(3, 2, 1);
    GrownAncestor(3, 2, 2);
    assert Grown(1, 1) == Child(GENESIS, 1) && Grown(1, 2) == Child(GENESIS, 2);
    var s := ShallowRun(Grown(2, 1), Grown(3, 2), map[1 := Grown(1, 2)]);
    assert ShallowTurns() == [ShallowTurns()[0]] + [ShallowTurns()[1]];
    MissedStands(s.log, Grown(2, 1), Grown(3, 2));
  }

  lemma MissedStands(log: seq<Entry>, a: Block, b: Block)
    requires log == [Fetched(Step(1, 2), a, 0)] + [Fetched(Step(3, 3), b, 1)] + [Replaced(Standing.Reorganised(2, 2, 2))]
    ensures |log| == 3 && log[0] == Fetched(Step(1, 2), a, 0) && log[1] == Fetched(Step(3, 3), b, 1)
    ensures log[2] == Replaced(Standing.Reorganised(2, 2, 2))
    ensures FetchStands(log, 0, 1) && LatestAt(log, 0, 1)
  {
  }

  // ---- two chains standing for one block ---------------------------------------------------------------------------

  const DEEP := Config(3, None, 9, 1)

  /** The chain is replaced after block 1 is captured, and again after the step that found that. */
  function TwiceReplaced(): seq<Turn> {
    GrownHeight(1, 1);
    GrownHeight(3, 2);
    GrownHeight(3, 3);
    [Telling(Grown(1, 1), Step(0, 1), map[]), Telling(Grown(3, 2), Step(2, 3), map[0 := GENESIS]),
     Telling(Grown(3, 3), Step(1, 3), map[])]
  }

  lemma AgreedOnFirst(held: Held, depth: nat, top: Block, header: Header, chain: Block, probes: map<nat, Block>)
    requires Holds(held, top, Height(top) + 1) && Height(top) in held && header.number == Height(top) + 1 && header.parentHash != top
    requires Height(top) == 1 && 0 in held && depth >= 2 && AncestorAt(top, 0) == AncestorAt(chain, 0)
    requires probes == map[0 := AncestorAt(chain, 0)]
    ensures ForkFrom(HeldAfter(held, depth, header), probes, 1) == 1
  {
    ForkKeepsBelow(held, depth, top, header);
    var after := HeldAfter(held, depth, header);
    SearchSettles(after, probes, chain, 1, 0, ForkFrom(after, probes, 1));
  }

  /** The first fork of the run: the search ends on the first block, which the chains share. */
  lemma FirstReplaced(a: Block, b: Block, probes: map<nat, Block>) returns (s: State)
    requires Height(a) == 1 && Height(b) == 3 && AncestorAt(a, 0) == AncestorAt(b, 0) && AncestorAt(b, 1) != a
    requires probes == map[0 := AncestorAt(b, 0)]
    ensures Ran(DEEP, 0, [Telling(a, Step(0, 1), map[])] + [Telling(b, Step(2, 3), probes)]) == Running(s, 3)
    ensures s.start == 0 && s.nextSeq == 3 && FaithfulTo(s, AncestorAt(a, 0))
    ensures s.log == [Fetched(Step(0, 1), a, 0)] + [Fetched(Step(2, 3), b, 1)] + [Replaced(Standing.Reorganised(1, 1, 2))]
  {
    var first := FirstTurn(DEEP, a, Step(0, 1));
    var held;
    s, held := TurnBack(DEEP, [Telling(a, Step(0, 1), map[])], first, a, b, Step(2, 3), probes);
    AgreedOnFirst(first.held, 9, a, HeaderOf(b, 2), b, probes);
  }

  lemma TwiceReplacedRun(a: Block, b: Block, c: Block, probes: map<nat, Block>) returns (s: State)
    requires Height(a) == 1 && Height(b) == 3 && Height(c) == 3 && AncestorAt(a, 0) == AncestorAt(b, 0) == AncestorAt(c, 0)
    requires AncestorAt(b, 1) != a && probes == map[0 := AncestorAt(b, 0)]
    ensures Ran(DEEP, 0, [Telling(a, Step(0, 1), map[])] + [Telling(b, Step(2, 3), probes)] + [Telling(c, Step(1, 3), map[])]) == Running(s, 3)
    ensures s.start == 0 && FaithfulTo(s, c)
    ensures s.log == [Fetched(Step(0, 1), a, 0)] + [Fetched(Step(2, 3), b, 1)] + [Replaced(Standing.Reorganised(1, 1, 2))]
                   + [Fetched(Step(1, 3), c, 3)]
  {
    var second := FirstReplaced(a, b, probes);
    var front := [Telling(a, Step(0, 1), map[])] + [Telling(b, Step(2, 3), probes)];
    s := TurnOnward(DEEP, front, second, AncestorAt(a, 0), c, Step(1, 3), map[]);
  }

  /**
    Three turns, everything read and recorded: the chain is replaced after block 1 is captured, and again after the step
    that found it. Block 2 is captured at the end, of the chain the record follows, and a fetch of the chain between,
    which holds another block 2, stands beside it.
   */
  lemma TwoChainsStand()
    ensures var s := Ran(DEEP, 0, TwiceReplaced()).state;
            && s.start == 0 && FaithfulTo(s, Grown(3, 3)) && Height(Grown(3, 3)) == 3
            && |s.log| == 4 && s.log[1] == Fetched(Step(2, 3), Grown(3, 2), 1) && s.log[3] == Fetched(Step(1, 3), Grown(3, 3), 3)
            && FetchStands(s.log, 1, 2) && FetchStands(s.log, 3, 2)
    ensures 2 <= Height(Grown(3, 2)) && 2 <= Height(Grown(3, 3)) && AncestorAt(Grown(3, 2), 2) != AncestorAt(Grown(3, 3), 2)
  {
    var (a, b, c) := (Grown(1, 1), Grown(3, 2), Grown(3, 3));
    GrownHeight(1, 1);
    GrownHeight(3, 2);
    GrownHeight(3, 3);
    GrownAncestor(1, 1, 0);
    GrownAncestor(3, 2, 0);
    GrownAncestor(3, 3, 0);
    GrownAncestor(3, 2, 1);
    GrownAncestor(3, 2, 2);
    GrownAncestor(3, 3, 2);
    assert Grown(1, 1) == Child(GENESIS, 1) && Grown(1, 2) == Child(GENESIS, 2);
    assert Grown(2, 2) == Child(Grown(1, 2), 2) && Grown(2, 3) == Child(Grown(1, 3), 3);
    var s := TwiceReplacedRun(a, b, c, map[0 := GENESIS]);
    TwoStand(s.log, a, b, c);
    assert TwiceReplaced() == [TwiceReplaced()[0]] + [TwiceReplaced()[1]] + [TwiceReplaced()[2]];
  }

  lemma TwoStand(log: seq<Entry>, a: Block, b: Block, c: Block)
    requires log == [Fetched(Step(0, 1), a, 0)] + [Fetched(Step(2, 3), b, 1)] + [Replaced(Standing.Reorganised(1, 1, 2))]
                  + [Fetched(Step(1, 3), c, 3)]
    ensures |log| == 4 && log[1] == Fetched(Step(2, 3), b, 1) && log[3] == Fetched(Step(1, 3), c, 3)
    ensures FetchStands(log, 1, 2) && FetchStands(log, 3, 2)
  {
  }
}
