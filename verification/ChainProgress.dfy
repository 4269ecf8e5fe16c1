/** What a turn of the cursor comes to: how far it captures where all goes well, and the span it leaves the next turn. */
module ChainProgress {
  import opened Text
  import opened Trail
  import opened ChainCapture
  import opened ChainRecord
  import opened ChainFidelity

  // ---- how a pass ends --------------------------------------------------------------------------

  /** The verdict a pass stops at: of the first step that does not go on, or of the last. */
  ghost function StopsAt(s: State, depth: nat, steps: seq<Step>, world: nat -> Answers, i: nat): Verdict
    requires i <= |steps|
    decreases |steps| - i
  {
    if i == |steps| then Onward
    else
      var (after, verdict) := Stepped(s, depth, steps[i], world(i));
      if verdict == Onward then StopsAt(after, depth, steps, world, i + 1) else verdict
  }

  /** The step it stops at. */
  ghost function StopsOn(s: State, depth: nat, steps: seq<Step>, world: nat -> Answers, i: nat): nat
    requires i <= |steps|
    decreases |steps| - i
  {
    if i == |steps| || Stepped(s, depth, steps[i], world(i)).1 != Onward then i
    else StopsOn(Stepped(s, depth, steps[i], world(i)).0, depth, steps, world, i + 1)
  }

  /**
    What each verdict means: what does not read moves nothing; what is refused is recorded at most; and a step taken goes on,
    its cursor moved and flushed, unless a header forks it.
   */
  lemma VerdictsMean(s: State, depth: nat, step: Step, w: Answers)
    ensures var (after, verdict) := Stepped(s, depth, step, w);
            match w.logs
            case TooBig => after == s && verdict == TooMany
            case Unread => after == s && verdict == NotServed
            case Read(chain, Refused(recorded)) =>
              && verdict == Errored && after.cursor == s.cursor && after.held == s.held && after.nextSeq == s.nextSeq + 1
              && after.log == s.log + if recorded then [Fetched(step, chain, s.nextSeq)] else []
            case Read(chain, Taken) =>
              && s.log + [Fetched(step, chain, s.nextSeq)] <= after.log
              && (verdict.Forked? || (after.cursor == Some(step.to) && verdict == if w.flushed then Onward else Errored))
              && (verdict.Forked? <==> Walked(s.held, depth, HeightsOf(step), w.headers).1.Some?)
  {
  }

  /** How a turn ends: it could not ask, or asked for these steps. */
  ghost function EndsBy(s: State, span: nat, config: Config, turn: Turn): Verdict {
    if turn.head.None? then Errored
    else
      var ready := s.(nextSeq := s.nextSeq + turn.others);
      var from := FromOf(ready, config, turn.head.value);
      if from > turn.head.value then Onward
      else
        match PlanOf(span, config.earliest, from, turn.head.value)
        case BeforeReach(_, _) => Errored
        case Steps(steps) => StopsAt(SetOut(ready, from), config.depth, steps, turn.world, 0)
  }

  /** Half of something, and never nothing. */
  predicate HalfOf(half: nat, whole: nat) {
    half >= 1 && (whole >= 2 ==> 2 * half <= whole < 2 * half + 2) && (whole < 2 ==> half == 1)
  }

  predicate PassEndsBy(pass: Pass, verdict: Verdict, refused: nat, end: PassEnd) {
    match verdict
    case Errored => end.Broken?
    case TooMany => end.Completed? && end.pass.narrowTo.Some? && HalfOf(end.pass.narrowTo.value, refused)
    case NotServed => end.Completed? && end.pass == pass.(blocks := end.pass.blocks, failed := pass.failed + 1)
    case Onward => end.Completed? && end.pass == pass.(blocks := end.pass.blocks)
    case Forked(at) => end.Completed? && end.pass == pass.(blocks := end.pass.blocks, reorgs := pass.reorgs + 1, rewound := Some(at))
  }

  lemma {:induction false} PassStops(s: State, depth: nat, steps: seq<Step>, world: nat -> Answers, i: nat, pass: Pass)
    requires i <= |steps|
    ensures var stop := StopsOn(s, depth, steps, world, i);
            && i <= stop <= |steps| && (StopsAt(s, depth, steps, world, i) != Onward ==> stop < |steps|)
            && PassEndsBy(pass, StopsAt(s, depth, steps, world, i), if stop < |steps| then steps[stop].Blocks() else 0,
                          PassedFrom(s, depth, steps, world, i, pass).1)
    decreases |steps| - i
  {
    if i < |steps| {
      var (after, verdict) := Stepped(s, depth, steps[i], world(i));
      if verdict == Onward { PassStops(after, depth, steps, world, i + 1, pass.(blocks := pass.blocks + steps[i].Blocks())); }
    }
  }

  lemma NextStepFrom(steps: seq<Step>, from: nat, to: nat, span: nat, i: nat)
    requires i < |steps| && Covering(steps, from, to, span)
    ensures steps[i].from <= steps[i].to && steps[i].Blocks() == steps[i].to + 1 - steps[i].from
    ensures if i + 1 < |steps| then steps[i + 1].from == steps[i].to + 1 else steps[i].to == to
  {
  }

  lemma PassGoesOn(s: State, depth: nat, steps: seq<Step>, world: nat -> Answers, i: nat, pass: Pass)
    requires i < |steps| && Stepped(s, depth, steps[i], world(i)).1 == Onward
    ensures var after := Stepped(s, depth, steps[i], world(i)).0;
            && PassedFrom(s, depth, steps, world, i, pass)
               == PassedFrom(after, depth, steps, world, i + 1, pass.(blocks := pass.blocks + steps[i].Blocks()))
            && StopsOn(s, depth, steps, world, i) == StopsOn(after, depth, steps, world, i + 1)
  {
  }

  lemma PassStopsHere(s: State, depth: nat, steps: seq<Step>, world: nat -> Answers, i: nat, pass: Pass)
    requires i == |steps| || (i < |steps| && Stepped(s, depth, steps[i], world(i)).1 != Onward)
    ensures var end := PassedFrom(s, depth, steps, world, i, pass).1; end.Completed? ==> end.pass.blocks == pass.blocks
    ensures StopsOn(s, depth, steps, world, i) == i
  {
  }

  /** A pass counts the blocks of the steps that went on, from the first up to the one it stopped at. */
  lemma {:induction false} PassCounts(s: State, depth: nat, steps: seq<Step>, world: nat -> Answers, i: nat, pass: Pass,
                                      from: nat, to: nat, span: nat)
    requires i < |steps| && Covering(steps, from, to, span)
    ensures var (stop, end) := (StopsOn(s, depth, steps, world, i), PassedFrom(s, depth, steps, world, i, pass).1);
            && stop <= |steps|
            && (end.Completed? ==>
                  end.pass.blocks + steps[i].from == pass.blocks + if stop < |steps| then steps[stop].from else to + 1)
    decreases |steps| - i
  {
    var (after, verdict) := Stepped(s, depth, steps[i], world(i));
    NextStepFrom(steps, from, to, span, i);
    if verdict == Onward {
      var counted := pass.(blocks := pass.blocks + steps[i].Blocks());
      PassGoesOn(s, depth, steps, world, i, pass);
      if i + 1 < |steps| {
        PassCounts(after, depth, steps, world, i + 1, counted, from, to, span);
      } else {
        PassStopsHere(after, depth, steps, world, i + 1, counted);
      }
    } else {
      PassStopsHere(s, depth, steps, world, i, pass);
    }
  }

  // ---- the span a turn leaves ---------------------------------------------------------------------

  /** Twice a span, as far as what was declared; a span already there stays. */
  function GivenBack(span: nat, declared: nat): nat {
    if span >= declared then span else if 2 * span < declared then 2 * span else declared
  }

  lemma PassEnds(s: State, span: nat, config: Config, turn: Turn) returns (refused: nat)
    requires turn.referenceRead
    ensures PassEndsBy(NOTHING, EndsBy(s, span, config, turn), refused,
                       Passed(s.(nextSeq := s.nextSeq + turn.others), config, span, turn.head, turn.world).1)
  {
    refused := 0;
    if turn.head.Some? {
      var ready := s.(nextSeq := s.nextSeq + turn.others);
      var from := FromOf(ready, config, turn.head.value);
      var planned := PlanOf(span, config.earliest, from, turn.head.value);
      if from <= turn.head.value && planned.Steps? {
        var (out, steps) := (SetOut(ready, from), planned.steps);
        PassStops(out, config.depth, steps, turn.world, 0, NOTHING);
        var stop := StopsOn(out, config.depth, steps, turn.world, 0);
        refused := if stop < |steps| then steps[stop].Blocks() else 0;
      }
    }
  }

  /**
    The span follows how the pass ended: half of what was refused for its size, or the end of the run where a single block
    was; the same where something failed; and given back by every pass that did not fail, whatever it captured.
   */
  lemma SpanFollowsTheEnd(s: State, span: nat, config: Config, turn: Turn) returns (refused: nat)
    requires turn.referenceRead && span >= 1
    ensures var next := Turned(s, span, config, turn);
            match EndsBy(s, span, config, turn)
            case TooMany => (next.Running? <==> span > 1 && turn.flushed) && (next.Running? ==> HalfOf(next.span, refused))
            case Errored => (next.Running? <==> turn.flushed) && (next.Running? ==> next.span == span)
            case NotServed => (next.Running? <==> turn.flushed) && (next.Running? ==> next.span == span)
            case Onward => (next.Running? <==> turn.flushed) && (next.Running? ==> next.span == GivenBack(span, config.maxSpan))
            case Forked(_) => (next.Running? <==> turn.flushed) && (next.Running? ==> next.span == GivenBack(span, config.maxSpan))
  {
    refused := PassEnds(s, span, config, turn);
  }

  // ---- how far a pass captures ----------------------------------------------------------------------

  /** The step reads, is handed on and flushed, and every header that reads is the chain's own. */
  predicate AnsweredFrom(w: Answers, chain: Block) {
    && w.logs == Read(chain, Taken) && w.flushed
    && forall h :: h in w.headers ==> h <= Height(chain) && w.headers[h] == HeaderOf(chain, h)
  }

  lemma HonestStepGoesOn(s: State, depth: nat, step: Step, w: Answers, chain: Block)
    requires AnsweredFrom(w, chain) && step.from <= step.to <= Height(chain) && Holds(s.held, chain, step.from)
    ensures var (after, verdict) := Stepped(s, depth, step, w);
            && verdict == Onward && after.cursor == Some(step.to) && after.start == s.start && after.nextSeq == s.nextSeq + 1
            && after.log == s.log + [Fetched(step, chain, s.nextSeq)] && Holds(after.held, chain, step.to + 1)
  {
    HonestWalk(s.held, depth, step, w.headers, chain);
  }

  /** One fetch after another, of these steps from this chain, under sequences that follow one another. */
  predicate FetchedEach(before: seq<Entry>, after: seq<Entry>, steps: seq<Step>, chain: Block, firstSeq: nat) {
    && |after| == |before| + |steps| && before <= after
    && forall k :: 0 <= k < |steps| ==> after[|before| + k] == Fetched(steps[k], chain, firstSeq + k)
  }

  lemma FetchedFirst(before: seq<Entry>, after: seq<Entry>, steps: seq<Step>, chain: Block, firstSeq: nat)
    requires steps != [] && FetchedEach(before + [Fetched(steps[0], chain, firstSeq)], after, steps[1..], chain, firstSeq + 1)
    ensures FetchedEach(before, after, steps, chain, firstSeq)
  {
    var once := before + [Fetched(steps[0], chain, firstSeq)];
    assert after[..|once|] == once;
    forall k | 0 <= k < |steps| ensures after[|before| + k] == Fetched(steps[k], chain, firstSeq + k) {
      if k == 0 { assert after[|before|] == once[|before|]; } else { assert after[|once| + (k - 1)] == Fetched(steps[1..][k - 1], chain, firstSeq + k); }
    }
    assert before <= once;
  }

  /** Where the pass is after all its steps from `i` on went well. */
  predicate WentOn(s: State, after: State, steps: seq<Step>, chain: Block, to: nat) {
    && after.start == s.start && after.nextSeq == s.nextSeq + |steps| && to <= Height(chain) && Holds(after.held, chain, to + 1)
    && FetchedEach(s.log, after.log, steps, chain, s.nextSeq) && after.cursor == if steps == [] then s.cursor else Some(to)
  }

  lemma WentOnFirst(s: State, once: State, after: State, steps: seq<Step>, chain: Block, to: nat)
    requires steps != [] && WentOn(once, after, steps[1..], chain, to)
    requires once.start == s.start && once.nextSeq == s.nextSeq + 1 && once.log == s.log + [Fetched(steps[0], chain, s.nextSeq)]
    requires |steps| == 1 ==> once.cursor == Some(to)
    ensures WentOn(s, after, steps, chain, to)
  {
    FetchedFirst(s.log, after.log, steps, chain, s.nextSeq);
  }

  lemma HonestStepOf(s: State, depth: nat, steps: seq<Step>, w: Answers, i: nat, chain: Block, from: nat, to: nat, span: nat)
    requires i < |steps| && Covering(steps, from, to, span) && to <= Height(chain) && AnsweredFrom(w, chain)
    requires steps[i].from <= to && Holds(s.held, chain, steps[i].from)
    ensures var (after, verdict) := Stepped(s, depth, steps[i], w);
            && verdict == Onward && after.start == s.start && after.nextSeq == s.nextSeq + 1
            && after.log == s.log + [Fetched(steps[i], chain, s.nextSeq)]
            && (i + 1 < |steps| ==> steps[i + 1].from <= to && Holds(after.held, chain, steps[i + 1].from))
            && (i + 1 == |steps| ==> after.cursor == Some(to) && Holds(after.held, chain, to + 1))
  {
    StepWithin(steps, from, to, span, i);
    NextStepFrom(steps, from, to, span, i);
    HonestStepGoesOn(s, depth, steps[i], w, chain);
    if i + 1 < |steps| { StepWithin(steps, from, to, span, i + 1); }
  }

  lemma {:induction false} HonestPass(s: State, depth: nat, steps: seq<Step>, world: nat -> Answers, i: nat, pass: Pass, chain: Block,
                                      from: nat, to: nat, span: nat)
    requires i <= |steps| && Covering(steps, from, to, span) && to <= Height(chain) && forall k :: AnsweredFrom(world(k), chain)
    requires (i < |steps| ==> steps[i].from <= to) && (i == |steps| ==> s.cursor == Some(to))
    requires Holds(s.held, chain, if i < |steps| then steps[i].from else to + 1)
    ensures WentOn(s, PassedFrom(s, depth, steps, world, i, pass).0, steps[i..], chain, to)
    ensures StopsAt(s, depth, steps, world, i) == Onward
    decreases |steps| - i
  {
    if i < |steps| {
      var step, after := steps[i], Stepped(s, depth, steps[i], world(i)).0;
      HonestStepOf(s, depth, steps, world(i), i, chain, from, to, span);
      HonestPass(after, depth, steps, world, i + 1, pass.(blocks := pass.blocks + step.Blocks()), chain, from, to, span);
      PassedOneStep(s, depth, steps, world, i, pass);
      assert steps[i..][1..] == steps[i + 1..];
      WentOnFirst(s, after, PassedFrom(s, depth, steps, world, i, pass).0, steps[i..], chain, to);
    }
  }

  lemma {:induction false} StepWithin(steps: seq<Step>, from: nat, to: nat, span: nat, i: nat)
    requires i < |steps| && Covering(steps, from, to, span)
    ensures steps[i].from <= steps[i].to <= to && (i + 1 < |steps| ==> steps[i].to < to)
    decreases |steps| - i
  {
    if i + 1 < |steps| { StepWithin(steps, from, to, span, i + 1); }
  }

  /** Where the next pass begins: after the cursor, or on a cold start as far behind the head as the backfill reaches. */
  function NextBlock(s: State, config: Config, head: nat): nat {
    if s.cursor.Some? then s.cursor.value + 1 else if head >= config.backfill then head - config.backfill else 0
  }

  lemma HonestWholePass(s: State, from: nat, span: nat, config: Config, head: nat, world: nat -> Answers, chain: Block)
    requires span >= 1 && from <= head <= Height(chain) && forall k :: AnsweredFrom(world(k), chain)
    requires from == NextBlock(s, config, head) && (config.earliest.Some? ==> from >= config.earliest.value)
    requires Holds(s.held, chain, from)
    ensures Covering(Chunks(from, head, span), from, head, span)
    ensures WentOn(SetOut(s, from), Passed(s, config, span, Some(head), world).0, Chunks(from, head, span), chain, head)
    ensures PlanOf(span, config.earliest, FromOf(s, config, head), head) == Steps(Chunks(from, head, span))
    ensures StopsAt(SetOut(s, from), config.depth, Chunks(from, head, span), world, 0) == Onward
  {
    var steps := Chunks(from, head, span);
    ChunksCover(from, head, span);
    assert steps[0..] == steps;
    HonestPass(SetOut(s, from), config.depth, steps, world, 0, NOTHING, chain, from, head, span);
  }

  /** Everything from a block to the head captured: the cursor there, one fetch for each step, the chain's hashes held. */
  predicate CaughtUp(s: State, after: State, steps: seq<Step>, chain: Block, from: nat, head: nat, firstSeq: nat) {
    && head <= Height(chain) && after.cursor == Some(head) && Holds(after.held, chain, head + 1)
    && FetchedEach(s.log, after.log, steps, chain, firstSeq) && after.nextSeq == firstSeq + |steps|
    && after.start == if s.cursor.Some? then s.start else from
  }

  lemma WentOnCatchesUp(s: State, ready: State, after: State, steps: seq<Step>, chain: Block, from: nat, head: nat)
    requires steps != [] && WentOn(SetOut(ready, from), after, steps, chain, head) && ready == s.(nextSeq := ready.nextSeq)
    ensures CaughtUp(s, after, steps, chain, from, head, ready.nextSeq)
  {
  }

  /** A turn that reads, is flushed, and is answered throughout from a chain that holds what is held, and reaches the head. */
  ghost predicate GoesWell(s: State, config: Config, turn: Turn, chain: Block) {
    && turn.referenceRead && turn.flushed && turn.head.Some? && turn.head.value <= Height(chain)
    && (forall k :: AnsweredFrom(turn.world(k), chain))
    && var from := NextBlock(s, config, turn.head.value);
       from <= turn.head.value && (config.earliest.Some? ==> from >= config.earliest.value) && Holds(s.held, chain, from)
  }

  lemma HonestTurnRuns(s: State, span: nat, config: Config, turn: Turn, chain: Block)
    requires span >= 1 && GoesWell(s, config, turn, chain)
    ensures var next := Turned(s, span, config, turn); next.Running? && next.span == GivenBack(span, config.maxSpan)
  {
    HonestWholePass(s.(nextSeq := s.nextSeq + turn.others), NextBlock(s, config, turn.head.value), span, config, turn.head.value, turn.world, chain);
    assert EndsBy(s, span, config, turn) == Onward;
    var _ := SpanFollowsTheEnd(s, span, config, turn);
  }

  lemma HonestPassCatchesUp(s: State, ready: State, from: nat, span: nat, config: Config, head: nat, world: nat -> Answers, chain: Block)
    requires span >= 1 && from <= head <= Height(chain) && forall k :: AnsweredFrom(world(k), chain)
    requires from == NextBlock(s, config, head) && (config.earliest.Some? ==> from >= config.earliest.value)
    requires Holds(s.held, chain, from) && ready == s.(nextSeq := ready.nextSeq)
    ensures Covering(Chunks(from, head, span), from, head, span)
    ensures CaughtUp(s, Passed(ready, config, span, Some(head), world).0, Chunks(from, head, span), chain, from, head, ready.nextSeq)
  {
    HonestWholePass(ready, from, span, config, head, world, chain);
    WentOnCatchesUp(s, ready, Passed(ready, config, span, Some(head), world).0, Chunks(from, head, span), chain, from, head);
  }

  lemma HonestTurnState(s: State, span: nat, config: Config, turn: Turn, chain: Block)
    requires span >= 1 && GoesWell(s, config, turn, chain)
    ensures var from := NextBlock(s, config, turn.head.value);
            && Covering(Chunks(from, turn.head.value, span), from, turn.head.value, span)
            && CaughtUp(s, Turned(s, span, config, turn).state, Chunks(from, turn.head.value, span), chain, from, turn.head.value,
                        s.nextSeq + turn.others)
  {
    HonestPassCatchesUp(s, s.(nextSeq := s.nextSeq + turn.others), NextBlock(s, config, turn.head.value), span, config,
                        turn.head.value, turn.world, chain);
    TurnState(s, span, config, turn);
  }

  /**
    Where all goes well a turn captures everything up to the head: from the block after the cursor, or the backfill behind
    the head on a cold start, one fetch after another of steps that leave out no block and take none twice; the cursor is
    then the head, what is held is the chain's, and the span is given back.
   */
  lemma TurnReachesTheHead(s: State, span: nat, config: Config, turn: Turn, chain: Block) returns (steps: seq<Step>)
    requires span >= 1 && GoesWell(s, config, turn, chain)
    ensures Covering(steps, NextBlock(s, config, turn.head.value), turn.head.value, span)
    ensures var next := Turned(s, span, config, turn);
            && next.Running? && next.span == GivenBack(span, config.maxSpan)
            && CaughtUp(s, next.state, steps, chain, NextBlock(s, config, turn.head.value), turn.head.value, s.nextSeq + turn.others)
  {
    steps := Chunks(NextBlock(s, config, turn.head.value), turn.head.value, span);
    HonestTurnState(s, span, config, turn, chain);
    HonestTurnRuns(s, span, config, turn, chain);
  }
}
