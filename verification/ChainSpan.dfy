/** How many blocks a pass asks for at once, and what a refusal for size does to it. */
module ChainSpan {
  import opened Text
  import opened Trail
  import opened ChainCapture
  import opened ChainRecord
  import opened ChainRuns

  /** The first step a pass asks for, if it asks for anything. */
  function Ask(s: State, span: nat, config: Config, head: Option<nat>): Option<Step> {
    if head.None? then None
    else
      match PlanOf(span, config.earliest, FromOf(s, config, head.value), head.value)
      case BeforeReach(_, _) => None
      case Steps(steps) => if steps == [] then None else Some(steps[0])
  }

  /** The step a pass ends at because the node would not answer it for its size. */
  ghost function RefusedFrom(s: State, depth: nat, steps: seq<Step>, world: nat -> Answers, i: nat): Option<Step>
    requires i <= |steps|
    decreases |steps| - i
  {
    if i == |steps| then None
    else
      var (after, verdict) := Stepped(s, depth, steps[i], world(i));
      if verdict == TooMany then Some(steps[i])
      else if verdict == Onward then RefusedFrom(after, depth, steps, world, i + 1)
      else None
  }

  ghost function Refused(s: State, span: nat, config: Config, turn: Turn): Option<Step> {
    var ready := s.(nextSeq := s.nextSeq + turn.others);
    if !turn.referenceRead || turn.head.None? then None
    else
      var from := FromOf(ready, config, turn.head.value);
      match PlanOf(span, config.earliest, from, turn.head.value)
      case BeforeReach(_, _) => None
      case Steps(steps) => RefusedFrom(SetOut(ready, from), config.depth, steps, turn.world, 0)
  }

  // ---- what a refusal leaves -----------------------------------------------------------------------------------

  lemma {:induction false} RefusedPass(s: State, depth: nat, steps: seq<Step>, world: nat -> Answers, i: nat, pass: Pass,
                                       from: nat, to: nat, span: nat)
    requires i <= |steps| && Covering(steps, from, to, span) && pass.narrowTo.None? && (i < |steps| ==> Follows(s, steps[i]))
    ensures var (after, end) := PassedFrom(s, depth, steps, world, i, pass);
            match RefusedFrom(s, depth, steps, world, i)
            case None => end.Completed? ==> end.pass.narrowTo.None?
            case Some(step) =>
              && end.Completed? && end.pass.narrowTo == Some(Narrowed(step.Blocks())) && step.Blocks() <= span
              && from <= step.from <= step.to <= to && Follows(after, step)
    decreases |steps| - i
  {
    if i < |steps| {
      var (after, verdict) := Stepped(s, depth, steps[i], world(i));
      if verdict == Onward {
        assert after.cursor == Some(steps[i].to);
        RefusedPass(after, depth, steps, world, i + 1, pass.(blocks := pass.blocks + steps[i].Blocks()), from, to, span);
      }
      WithinCovering(steps, from, to, span, i);
    }
  }

  lemma {:induction false} WithinCovering(steps: seq<Step>, from: nat, to: nat, span: nat, i: nat)
    requires i < |steps| && Covering(steps, from, to, span)
    ensures from <= steps[i].from <= steps[i].to <= to
  {
    CoveringRises(steps, from, to, span, 0, i);
    CoveringRises(steps, from, to, span, i, |steps| - 1);
  }

  lemma {:induction false} CoveringRises(steps: seq<Step>, from: nat, to: nat, span: nat, i: nat, j: nat)
    requires i <= j < |steps| && Covering(steps, from, to, span)
    ensures steps[i].from <= steps[j].from && steps[i].to <= steps[j].to
    decreases j - i
  {
    if i < j { CoveringRises(steps, from, to, span, i + 1, j); }
  }

  lemma RefusedWhole(s: State, span: nat, config: Config, turn: Turn)
    requires span >= 1 && turn.referenceRead
    ensures var (after, end) := Passed(s.(nextSeq := s.nextSeq + turn.others), config, span, turn.head, turn.world);
            match Refused(s, span, config, turn)
            case None => end.Completed? ==> end.pass.narrowTo.None?
            case Some(step) =>
              && end.Completed? && end.pass.narrowTo == Some(Narrowed(step.Blocks())) && step.Blocks() <= span
              && step.from <= step.to && Follows(after, step) && (config.earliest.Some? ==> step.from >= config.earliest.value)
  {
    var ready := s.(nextSeq := s.nextSeq + turn.others);
    if turn.head.Some? {
      var from := FromOf(ready, config, turn.head.value);
      if from <= turn.head.value && PlanOf(span, config.earliest, from, turn.head.value).Steps? {
        ChunksCover(from, turn.head.value, span);
        RefusedPass(SetOut(ready, from), config.depth, Chunks(from, turn.head.value, span), turn.world, 0, NOTHING,
                    from, turn.head.value, span);
      }
    }
  }

  /** What a refusal leaves: the next ask begins where the refused step did, and the span is half of it. */
  lemma RefusedTurn(s: State, span: nat, config: Config, turn: Turn, step: Step)
    requires span >= 1 && Refused(s, span, config, turn) == Some(step)
    ensures var next := Turned(s, span, config, turn);
            && step.from <= step.to && step.Blocks() <= span && (config.earliest.Some? ==> step.from >= config.earliest.value)
            && (next.Running? <==> span > 1 && turn.flushed)
            && (next.Running? ==> next.span == Narrowed(step.Blocks()) && Follows(next.state, step))
  {
    RefusedWhole(s, span, config, turn);
  }

  /** The span never leaves what was declared, and never reaches nothing. */
  lemma {:induction false} SpanStaysWithinTheDeclared(config: Config, firstSeq: nat, turns: seq<Turn>)
    ensures Ran(config, firstSeq, turns).Running? ==>
              1 <= Ran(config, firstSeq, turns).span <= if config.maxSpan > 1 then config.maxSpan else 1
    ensures Ran(config, firstSeq, []).Running? && Ran(config, firstSeq, []).span == if config.maxSpan > 1 then config.maxSpan else 1
    decreases |turns|
  {
    if turns != [] {
      var front, turn := turns[..|turns| - 1], turns[|turns| - 1];
      SpanStaysWithinTheDeclared(config, firstSeq, front);
      var before := Ran(config, firstSeq, front);
      if before.Running? { SpanStays(before.state, before.span, config, turn); }
    }
  }

  lemma SpanStays(s: State, span: nat, config: Config, turn: Turn)
    requires 1 <= span <= if config.maxSpan > 1 then config.maxSpan else 1
    ensures var next := Turned(s, span, config, turn);
            next.Running? ==> 1 <= next.span <= if config.maxSpan > 1 then config.maxSpan else 1
  {
    if turn.referenceRead { RefusedWhole(s, span, config, turn); }
  }

  // ---- when a refused range is asked for again --------------------------------------------------------------------

  /** The head is behind what follows the cursor: the pass asks for nothing, and counts as one that went well. */
  predicate Idle(s: State, config: Config, turn: Turn) {
    turn.head.Some? && FromOf(s, config, turn.head.value) > turn.head.value
  }

  /** A turn that asks for nothing: its head did not read, or it is idle. */
  predicate Quiet(s: State, config: Config, turn: Turn) {
    turn.head.None? || Idle(s, config, turn)
  }

  function Idles(turns: seq<Turn>): nat {
    if turns == [] then 0 else Idles(turns[..|turns| - 1]) + if turns[|turns| - 1].head.Some? then 1 else 0
  }

  function WidenedTimes(span: nat, declared: nat, times: nat): nat {
    if times == 0 then span
    else
      var before := WidenedTimes(span, declared, times - 1);
      if before < declared then Widened(before, declared) else before
  }

  lemma QuietTurn(s: State, span: nat, config: Config, turn: Turn)
    requires Quiet(s, config, turn)
    ensures var next := Turned(s, span, config, turn);
            && next.state.cursor == s.cursor && next.state.start == s.start
            && (next.Running? ==> next.span == WidenedTimes(span, config.maxSpan, if turn.head.Some? then 1 else 0))
  {
    assert WidenedTimes(span, config.maxSpan, 0) == span;
  }

  lemma {:induction false} WidenedOnceMore(span: nat, declared: nat, times: nat)
    ensures WidenedTimes(WidenedTimes(span, declared, times), declared, 1) == WidenedTimes(span, declared, times + 1)
  {
    assert WidenedTimes(WidenedTimes(span, declared, times), declared, 0) == WidenedTimes(span, declared, times);
  }

  lemma {:induction false} QuietRun(config: Config, firstSeq: nat, front: seq<Turn>, quiet: seq<Turn>)
    requires Ran(config, firstSeq, front).Running? && Ran(config, firstSeq, front + quiet).Running?
    requires forall i :: 0 <= i < |quiet| ==> Quiet(Ran(config, firstSeq, front).state, config, quiet[i])
    ensures var (before, after) := (Ran(config, firstSeq, front), Ran(config, firstSeq, front + quiet));
            && after.state.cursor == before.state.cursor && after.state.start == before.state.start
            && after.span == WidenedTimes(before.span, config.maxSpan, Idles(quiet))
    decreases |quiet|
  {
    if quiet == [] {
      assert front + quiet == front;
    } else {
      var fewer, last := quiet[..|quiet| - 1], quiet[|quiet| - 1];
      assert front + quiet == (front + fewer) + [last];
      RanOneMore(config, firstSeq, front + fewer, last);
      QuietRun(config, firstSeq, front, fewer);
      var run, between := Ran(config, firstSeq, front), Ran(config, firstSeq, front + fewer);
      assert Quiet(run.state, config, last);
      QuietTurn(between.state, between.span, config, last);
      WidenedOnceMore(run.span, config.maxSpan, Idles(fewer));
    }
  }

  lemma AskedFrom(s: State, span: nat, config: Config, head: Option<nat>, step: Step)
    requires span >= 1 && step.from <= step.to && (config.earliest.Some? ==> step.from >= config.earliest.value)
    ensures Ask(s, span, config, head) == Some(step) <==>
              && head.Some? && FromOf(s, config, head.value) == step.from && head.value >= step.to
              && if head.value == step.to then span >= step.Blocks() else span == step.Blocks()
  {
    if head.Some? {
      var from := FromOf(s, config, head.value);
      if from <= head.value && !(config.earliest.Some? && from < config.earliest.value) {
        assert Chunks(from, head.value, span)[0] == Step(from, if from + (span - 1) >= head.value then head.value else from + (span - 1));
      }
    }
  }

  /**
    When a range refused for its size is asked for again unchanged, whatever came between the refusal and the ask without
    asking for anything: if and only if the ask begins where the refused one did and the span, half of what was refused and
    widened once by every pass between whose head was behind the cursor, again comes to the blocks refused, or reaches
    them where the head ends the ask there.
   */
  lemma RefusedAgainExactly(config: Config, firstSeq: nat, front: seq<Turn>, turn: Turn, step: Step, quiet: seq<Turn>, head: Option<nat>)
    requires var before := Ran(config, firstSeq, front);
             before.Running? && Refused(before.state, before.span, config, turn) == Some(step)
    requires Ran(config, firstSeq, front + [turn]).Running? && Ran(config, firstSeq, front + [turn] + quiet).Running?
    requires forall i :: 0 <= i < |quiet| ==> Quiet(Ran(config, firstSeq, front + [turn]).state, config, quiet[i])
    ensures var (run, span) := (Ran(config, firstSeq, front + [turn] + quiet),
                                WidenedTimes(Narrowed(step.Blocks()), config.maxSpan, Idles(quiet)));
            && run.span == span
            && (run.state.cursor.Some? ==> run.state.cursor.value + 1 == step.from)
            && (Ask(run.state, span, config, head) == Some(step) <==>
                  && head.Some? && FromOf(run.state, config, head.value) == step.from && head.value >= step.to
                  && if head.value == step.to then span >= step.Blocks() else span == step.Blocks())
  {
    var before := Ran(config, firstSeq, front);
    RanOneMore(config, firstSeq, front, turn);
    SpanStaysWithinTheDeclared(config, firstSeq, front);
    RefusedTurn(before.state, before.span, config, turn, step);
    QuietRun(config, firstSeq, front + [turn], quiet);
    SpanStaysWithinTheDeclared(config, firstSeq, front + [turn] + quiet);
    var run := Ran(config, firstSeq, front + [turn] + quiet);
    AskedFrom(run.state, run.span, config, head, step);
  }

  /** With no idle pass between, that is the single block alone: every longer range is asked for again shorter. */
  lemma AskedAtOnceIsShorter(config: Config, firstSeq: nat, front: seq<Turn>, turn: Turn, step: Step, quiet: seq<Turn>, head: nat)
    requires var before := Ran(config, firstSeq, front);
             before.Running? && Refused(before.state, before.span, config, turn) == Some(step)
    requires Ran(config, firstSeq, front + [turn]).Running? && Ran(config, firstSeq, front + [turn] + quiet).Running?
    requires forall i :: 0 <= i < |quiet| ==> quiet[i].head.None?
    requires var s := Ran(config, firstSeq, front + [turn] + quiet).state; FromOf(s, config, head) == step.from && head >= step.to
    ensures var run := Ran(config, firstSeq, front + [turn] + quiet);
            Ask(run.state, run.span, config, Some(head)) == Some(step) <==> step.Blocks() == 1
  {
    RefusedAgainExactly(config, firstSeq, front, turn, step, quiet, Some(head));
    NoneIdle(quiet);
  }

  lemma {:induction false} NoneIdle(quiet: seq<Turn>)
    requires forall i :: 0 <= i < |quiet| ==> quiet[i].head.None?
    ensures Idles(quiet) == 0
    decreases |quiet|
  {
    if quiet != [] { NoneIdle(quiet[..|quiet| - 1]); }
  }

  function Doubled(span: nat, times: nat): nat {
    if times == 0 then span else 2 * Doubled(span, times - 1)
  }

  /** Every idle pass doubles the span, as far as what was declared. */
  lemma {:induction false} WidenedTimesDoubles(span: nat, declared: nat, times: nat)
    requires 1 <= span <= declared
    ensures WidenedTimes(span, declared, times) == if Doubled(span, times) < declared then Doubled(span, times) else declared
    decreases times
  {
    if times > 0 { WidenedTimesDoubles(span, declared, times - 1); }
  }

  // ---- refused for ever --------------------------------------------------------------------------------------------

  const FLICKERING := Config(2, None, 1, 0)

  function TooBigAt(head: nat): Turn {
    Turn(0, true, Some(head), i => Answers(TooBig, map[], map[], true, true), true)
  }

  /** Block 9 captured, and then rounds of two turns: the head at 11 and the two blocks before it refused; the head back at 8. */
  function Flickers(rounds: nat): seq<Turn> {
    if rounds == 0 then GrownHeight(9, 1); [Telling(Grown(9, 1), Step(9, 9), map[])]
    else Flickers(rounds - 1) + [TooBigAt(11)] + [TooBigAt(8)]
  }

  lemma FlickerOnce(s: State)
    requires s.cursor == Some(9)
    ensures Refused(s, 2, FLICKERING, TooBigAt(11)) == Some(Step(10, 11))
    ensures Turned(s, 2, FLICKERING, TooBigAt(11)) == Running(s, 1)
    ensures Turned(s, 1, FLICKERING, TooBigAt(8)) == Running(s, 2)
    ensures Ask(s, 2, FLICKERING, Some(11)) == Some(Step(10, 11))
  {
    var turn := TooBigAt(11);
    assert AsksOnce(s, 2, FLICKERING, turn, Step(10, 11));
    assert s.(nextSeq := s.nextSeq + 0) == s;
    PassOfOneStep(s, 2, FLICKERING, turn, Step(10, 11));
    assert Stepped(s, 1, Step(10, 11), turn.world(0)) == (s, TooMany);
    assert Chunks(10, 11, 2) == [Step(10, 11)];
  }

  /**
    A run that asks for the same two blocks after every refusal, however many there are: the pass between, whose head is
    behind the cursor, gives the span back.
   */
  lemma {:induction false} RefusedForEver(rounds: nat)
    ensures var run := Ran(FLICKERING, 0, Flickers(rounds));
            && run.Running? && run.state.cursor == Some(9)
            && Ask(run.state, run.span, FLICKERING, Some(11)) == Some(Step(10, 11))
            && Refused(run.state, run.span, FLICKERING, TooBigAt(11)) == Some(Step(10, 11))
  {
    var s := FlickersLeave(rounds);
    FlickerOnce(s);
  }

  lemma {:induction false} FlickersLeave(rounds: nat) returns (s: State)
    ensures s.cursor == Some(9) && Ran(FLICKERING, 0, Flickers(rounds)) == Running(s, 2)
    decreases rounds
  {
    if rounds == 0 {
      GrownHeight(9, 1);
      s := FirstTurn(FLICKERING, Grown(9, 1), Step(9, 9));
    } else {
      s := FlickersLeave(rounds - 1);
      FlickerOnce(s);
      RanOneMore(FLICKERING, 0, Flickers(rounds - 1), TooBigAt(11));
      RanOneMore(FLICKERING, 0, Flickers(rounds - 1) + [TooBigAt(11)], TooBigAt(8));
    }
  }

  // ---- and when not ---------------------------------------------------------------------------------------------------

  ghost function EndOf(s: State, span: nat, config: Config, turn: Turn): PassEnd {
    Passed(s.(nextSeq := s.nextSeq + turn.others), config, span, turn.head, turn.world).1
  }

  /** The turn is not idle, finds no fork, and leaves the cursor where it was. */
  ghost predicate Stuck(s: State, span: nat, config: Config, turn: Turn) {
    && !Idle(s, config, turn) && Turned(s, span, config, turn).state.cursor == s.cursor
    && (EndOf(s, span, config, turn).Completed? ==> EndOf(s, span, config, turn).pass.reorgs == 0)
  }

  ghost predicate Stalled(config: Config, firstSeq: nat, front: seq<Turn>, turns: seq<Turn>) {
    turns != [] ==>
      var fewer := turns[..|turns| - 1];
      var before := Ran(config, firstSeq, front + fewer);
      Stalled(config, firstSeq, front, fewer) && (before.Running? ==> Stuck(before.state, before.span, config, turns[|turns| - 1]))
  }

  ghost function Refusals(config: Config, firstSeq: nat, front: seq<Turn>, turns: seq<Turn>): nat {
    if turns == [] then 0
    else
      var fewer := turns[..|turns| - 1];
      var before := Ran(config, firstSeq, front + fewer);
      Refusals(config, firstSeq, front, fewer)
        + if before.Running? && Refused(before.state, before.span, config, turns[|turns| - 1]).Some? then 1 else 0
  }

  /** A pass that asks for something, is refused nothing and finds no fork reads to its head. */
  lemma {:induction false} CleanPassReads(s: State, depth: nat, steps: seq<Step>, world: nat -> Answers, i: nat, pass: Pass)
    requires i < |steps| && pass.failed == 0 && pass.reorgs == 0
    ensures var (after, end) := PassedFrom(s, depth, steps, world, i, pass);
            end.Completed? && end.pass.failed == 0 && end.pass.reorgs == 0 ==> after.cursor == Some(steps[|steps| - 1].to)
    decreases |steps| - i
  {
    var (after, verdict) := Stepped(s, depth, steps[i], world(i));
    if verdict == Onward && i + 1 < |steps| {
      CleanPassReads(after, depth, steps, world, i + 1, pass.(blocks := pass.blocks + steps[i].Blocks()));
    }
  }

  lemma StuckIsNotClean(s: State, span: nat, config: Config, turn: Turn)
    requires span >= 1 && turn.referenceRead && Stuck(s, span, config, turn)
    ensures var end := EndOf(s, span, config, turn); end.Completed? ==> end.pass.failed > 0
  {
    if turn.head.Some? {
      var ready, head := s.(nextSeq := s.nextSeq + turn.others), turn.head.value;
      var from := FromOf(ready, config, head);
      if PlanOf(span, config.earliest, from, head).Steps? {
        ChunksCover(from, head, span);
        CleanPassReads(SetOut(ready, from), config.depth, Chunks(from, head, span), turn.world, 0, NOTHING);
      }
    }
  }

  lemma StuckHalves(s: State, span: nat, config: Config, turn: Turn)
    requires span >= 1 && Stuck(s, span, config, turn)
    ensures var next := Turned(s, span, config, turn);
            next.Running? ==> 1 <= next.span && next.span * (if Refused(s, span, config, turn).Some? then 2 else 1) <= span
  {
    if turn.referenceRead {
      StuckIsNotClean(s, span, config, turn);
      RefusedWhole(s, span, config, turn);
    }
  }

  lemma {:induction false} DoublingRises(span: nat, more: nat, times: nat)
    requires span <= more
    ensures Doubled(span, times) <= Doubled(more, times) && Doubled(span, times + 1) == Doubled(2 * span, times)
    decreases times
  {
    if times > 0 { DoublingRises(span, more, times - 1); }
  }

  lemma HalvedOnce(span: nat, refusals: nat, s: State, between: nat, config: Config, turn: Turn)
    requires between >= 1 && Doubled(between, refusals) <= span && Stuck(s, between, config, turn)
    ensures var next := Turned(s, between, config, turn);
            next.Running? ==>
              1 <= next.span && Doubled(next.span, refusals + if Refused(s, between, config, turn).Some? then 1 else 0) <= span
  {
    var next := Turned(s, between, config, turn);
    StuckHalves(s, between, config, turn);
    if next.Running? {
      if Refused(s, between, config, turn).Some? {
        DoublingRises(next.span, next.span, refusals);
        DoublingRises(2 * next.span, between, refusals);
      } else {
        DoublingRises(next.span, between, refusals);
      }
    }
  }

  /** One more turn of a run that has been refused so often. */
  ghost predicate OneMore(config: Config, between: Run, refusals: nat, turn: Turn, after: Run, more: nat) {
    if between.Stopped? then after == between && more == refusals
    else
      && Stuck(between.state, between.span, config, turn) && after == Turned(between.state, between.span, config, turn)
      && more == refusals + if Refused(between.state, between.span, config, turn).Some? then 1 else 0
  }

  lemma OneMoreHalves(config: Config, span: nat, between: Run, refusals: nat, turn: Turn, after: Run, more: nat)
    requires OneMore(config, between, refusals, turn, after, more)
    requires between.Running? ==> 1 <= between.span && Doubled(between.span, refusals) <= span
    ensures after.Running? ==> 1 <= after.span && Doubled(after.span, more) <= span
  {
    if between.Running? { HalvedOnce(span, refusals, between.state, between.span, config, turn); }
  }

  lemma StalledOneMore(config: Config, firstSeq: nat, front: seq<Turn>, fewer: seq<Turn>, last: Turn)
    requires Stalled(config, firstSeq, front, fewer + [last])
    ensures Stalled(config, firstSeq, front, fewer)
    ensures OneMore(config, Ran(config, firstSeq, front + fewer), Refusals(config, firstSeq, front, fewer), last,
                    Ran(config, firstSeq, front + (fewer + [last])), Refusals(config, firstSeq, front, fewer + [last]))
  {
    assert (fewer + [last])[..|fewer|] == fewer && front + (fewer + [last]) == (front + fewer) + [last];
    RanOneMore(config, firstSeq, front + fewer, last);
  }

  /**
    While the head never falls behind the cursor and no fork is found, a cursor held in one place is refused at most as
    often as its span can be halved: every refusal halves it, nothing gives it back, and at one block the run stops.
   */
  lemma {:induction false} RefusalsHalve(config: Config, firstSeq: nat, front: seq<Turn>, turns: seq<Turn>)
    requires Ran(config, firstSeq, front).Running? && Stalled(config, firstSeq, front, turns)
    ensures var (before, after) := (Ran(config, firstSeq, front), Ran(config, firstSeq, front + turns));
            after.Running? ==> 1 <= after.span && Doubled(after.span, Refusals(config, firstSeq, front, turns)) <= before.span
    decreases |turns|, 0
  {
    if turns == [] {
      SpanStaysWithinTheDeclared(config, firstSeq, front);
      assert front + turns == front;
    } else {
      HalvesOneMore(config, firstSeq, front, turns[..|turns| - 1], turns[|turns| - 1], turns);
    }
  }

  lemma {:induction false} HalvesOneMore(config: Config, firstSeq: nat, front: seq<Turn>, fewer: seq<Turn>, last: Turn, turns: seq<Turn>)
    requires turns == fewer + [last]
    requires Ran(config, firstSeq, front).Running? && Stalled(config, firstSeq, front, turns)
    ensures var (before, after) := (Ran(config, firstSeq, front), Ran(config, firstSeq, front + turns));
            after.Running? ==> 1 <= after.span && Doubled(after.span, Refusals(config, firstSeq, front, turns)) <= before.span
    decreases |turns| - 1, 1
  {
    StalledOneMore(config, firstSeq, front, fewer, last);
    RefusalsHalve(config, firstSeq, front, fewer);
    OneMoreHalves(config, Ran(config, firstSeq, front).span, Ran(config, firstSeq, front + fewer), Refusals(config, firstSeq, front, fewer),
                  last, Ran(config, firstSeq, front + turns), Refusals(config, firstSeq, front, turns));
  }
}
