/** Capturing a chain at a cursor: ask, record, check the trail, and go back where the chain disagrees. */
module ChainCapture {
  import opened Text
  import opened Trail
  import Standing

  // ---- what the record holds, and what a node may answer ------------------------------------

  /** `chain` is the newest block of the chain the node answered from; `at` the record's sequence. */
  datatype Entry =
    | Fetched(step: Step, chain: Block, at: nat)
    | Replaced(reorg: Standing.Reorganised)

  /** What became of handing a payload on: a failure may come before or after it was recorded. */
  datatype Taking = Taken | Refused(recorded: bool)

  datatype Logs = Read(chain: Block, taking: Taking) | TooBig | Unread

  /** Everything the world answers while one step is worked; a header or probe left out did not read. */
  datatype Answers = Answers(logs: Logs, headers: map<nat, Header>, probes: map<nat, Block>, reorgRecorded: bool, flushed: bool)

  /** `start` is the first block the run set out to capture. */
  datatype State = State(cursor: Option<nat>, start: nat, held: Held, log: seq<Entry>, nextSeq: nat)

  datatype Pass = Pass(blocks: nat, failed: nat, reorgs: nat, rewound: Option<nat>, narrowTo: Option<nat>)

  datatype PassEnd = Completed(pass: Pass) | Broken

  datatype Verdict = Onward | TooMany | NotServed | Forked(rewound: nat) | Errored

  const NOTHING := Pass(0, 0, 0, None, None)

  datatype Config = Config(maxSpan: nat, earliest: Option<nat>, depth: nat, backfill: nat)

  function Back(n: nat, less: nat): nat {
    if n > less then n - less else 0
  }

  function RewindTo(cursor: Option<nat>, fromBlock: nat): nat {
    var target := Back(fromBlock, 1);
    if cursor.Some? && cursor.value < target then cursor.value else target
  }

  function Narrowed(span: nat): nat {
    if span / 2 > 1 then span / 2 else 1
  }

  function Widened(span: nat, declared: nat): nat {
    if span * 2 < declared then span * 2 else declared
  }

  // ---- one step ----------------------------------------------------------------------------------

  function HeightsOf(step: Step): seq<nat> {
    if step.to != step.from then [step.from, step.to] else [step.from]
  }

  function TookLogs(s: State, step: Step, chain: Block, taking: Taking): State {
    s.(nextSeq := s.nextSeq + 1,
       log := if taking.Taken? || taking.recorded then s.log + [Fetched(step, chain, s.nextSeq)] else s.log)
  }

  /** Each header in turn, until one shows the chain disagreeing with the trail. */
  ghost function Walked(held: Held, depth: nat, heights: seq<nat>, headers: map<nat, Header>): (Held, Option<Reorg>)
    decreases |heights|
  {
    if heights == [] then (held, None)
    else if heights[0] !in headers then Walked(held, depth, heights[1..], headers)
    else
      var link := LinkOf(held, headers[heights[0]]);
      var after := HeldAfter(held, depth, headers[heights[0]]);
      if link.Reorganised? then (after, Some(link.reorg)) else Walked(after, depth, heights[1..], headers)
  }

  function WentBack(s: State, reorg: Reorg, w: Answers): State {
    var from := ForkFrom(s.held, w.probes, reorg.fromBlock);
    s.(cursor := Some(RewindTo(s.cursor, from)), held := Below(s.held, from), nextSeq := s.nextSeq + 1,
       log := if w.reorgRecorded then s.log + [Replaced(Standing.Reorganised(from, reorg.toBlock, s.nextSeq))] else s.log)
  }

  ghost function Stepped(s: State, depth: nat, step: Step, w: Answers): (State, Verdict) {
    match w.logs
    case TooBig => (s, TooMany)
    case Unread => (s, NotServed)
    case Read(chain, taking) =>
      var took := TookLogs(s, step, chain, taking);
      if taking.Refused? then (took, Errored)
      else
        var (held, reorg) := Walked(took.held, depth, HeightsOf(step), w.headers);
        if reorg.Some? then
          var back := WentBack(took.(held := held), reorg.value, w);
          (back, Forked(back.cursor.value))
        else (took.(held := held, cursor := Some(step.to)), if w.flushed then Onward else Errored)
  }

  // ---- one pass, and the run ----------------------------------------------------------------------

  ghost function PassedFrom(s: State, depth: nat, steps: seq<Step>, world: nat -> Answers, i: nat, pass: Pass): (State, PassEnd)
    requires i <= |steps|
    decreases |steps| - i
  {
    if i == |steps| then (s, Completed(pass))
    else
      var (after, verdict) := Stepped(s, depth, steps[i], world(i));
      match verdict
      case Onward => PassedFrom(after, depth, steps, world, i + 1, pass.(blocks := pass.blocks + steps[i].Blocks()))
      case TooMany => (after, Completed(pass.(failed := pass.failed + 1, narrowTo := Some(Narrowed(steps[i].Blocks())))))
      case NotServed => (after, Completed(pass.(failed := pass.failed + 1)))
      case Forked(rewound) => (after, Completed(pass.(reorgs := pass.reorgs + 1, rewound := Some(rewound))))
      case Errored => (after, Broken)
  }

  function FromOf(s: State, config: Config, head: nat): nat {
    if s.cursor.Some? then s.cursor.value + 1 else Back(head, config.backfill)
  }

  /** A run that has captured nothing yet sets out from where this pass begins. */
  function SetOut(s: State, from: nat): State {
    if s.cursor.None? then s.(start := from) else s
  }

  ghost function Passed(s: State, config: Config, span: nat, head: Option<nat>, world: nat -> Answers): (State, PassEnd) {
    if head.None? then (s, Broken)
    else
      var from := FromOf(s, config, head.value);
      if from > head.value then (s, Completed(NOTHING))
      else
        match PlanOf(span, config.earliest, from, head.value)
        case BeforeReach(_, _) => (s, Broken)
        case Steps(steps) => PassedFrom(SetOut(s, from), config.depth, steps, world, 0, NOTHING)
  }

  /** One turn of the loop: sequences other payloads took, then a pass, then the timer's flush. */
  datatype Turn = Turn(others: nat, referenceRead: bool, head: Option<nat>, world: nat -> Answers, flushed: bool)

  datatype Run = Running(state: State, span: nat) | Stopped(state: State)

  function SpanAfter(span: nat, declared: nat, end: PassEnd): Option<nat> {
    match end
    case Broken => Some(span)
    case Completed(pass) =>
      if pass.narrowTo.Some? then if span <= 1 then None else pass.narrowTo
      else if pass.failed == 0 && span < declared then Some(Widened(span, declared))
      else Some(span)
  }

  ghost function Turned(s: State, span: nat, config: Config, turn: Turn): Run {
    var ready := s.(nextSeq := s.nextSeq + turn.others);
    if !turn.referenceRead then Stopped(ready)
    else
      var (after, end) := Passed(ready, config, span, turn.head, turn.world);
      var next := SpanAfter(span, config.maxSpan, end);
      if next.None? || !turn.flushed then Stopped(after) else Running(after, next.value)
  }

  function Opening(config: Config, firstSeq: nat): Run {
    Running(State(None, 0, map[], [], firstSeq), if config.maxSpan > 1 then config.maxSpan else 1)
  }

  ghost function Ran(config: Config, firstSeq: nat, turns: seq<Turn>): Run {
    if turns == [] then Opening(config, firstSeq)
    else
      var before := Ran(config, firstSeq, turns[..|turns| - 1]);
      if before.Stopped? then before else Turned(before.state, before.span, config, turns[|turns| - 1])
  }

  // ---- the loop as capture runs it -----------------------------------------------------------------

  class Capture {
    var cursor: Option<nat>
    var span: nat
    const trail: BlockTrail
    var log: seq<Entry>
    var nextSeq: nat
    const config: Config
    ghost var start: nat

    ghost function Now(): State
      reads this, trail
    {
      State(cursor, start, trail.seen, log, nextSeq)
    }

    ghost predicate Valid()
      reads this
    {
      trail.depth == config.depth
    }

    constructor (config: Config, firstSeq: nat)
      requires config.depth >= 1
      ensures Valid() && fresh(trail) && this.config == config
      ensures Running(Now(), span) == Opening(config, firstSeq)
    {
      this.config := config;
      trail := new BlockTrail(config.depth);
      cursor, span := None, if config.maxSpan > 1 then config.maxSpan else 1;
      log, nextSeq, start := [], firstSeq, 0;
    }

    method TakePayload(step: Step, chain: Block, taking: Taking)
      modifies this`log, this`nextSeq
      ensures Now() == TookLogs(old(Now()), step, chain, taking)
    {
      if taking.Taken? || taking.recorded { log := log + [Fetched(step, chain, nextSeq)]; }
      nextSeq := nextSeq + 1;
    }

    method CheckHeaders(step: Step, headers: map<nat, Header>) returns (forked: Option<Reorg>)
      requires Valid()
      modifies trail
      ensures (trail.seen, forked) == Walked(old(trail.seen), config.depth, HeightsOf(step), headers)
      ensures trail.depth == config.depth
    {
      var heights := [step.from];
      if step.to != step.from { heights := heights + [step.to]; }
      forked := None;
      var i := 0;
      while i < |heights|
        invariant 0 <= i <= |heights| && trail.depth == config.depth && heights == HeightsOf(step)
        invariant forked.None?
        invariant Walked(trail.seen, config.depth, heights[i..], headers) == Walked(old(trail.seen), config.depth, heights, headers)
      {
        assert heights[i..][1..] == heights[i + 1..];
        if heights[i] in headers {
          var link := trail.Take(headers[heights[i]]);
          if link.Reorganised? {
            forked := Some(link.reorg);
            break;
          }
        }
        i := i + 1;
      }
    }

    method GoBack(reorg: Reorg, w: Answers)
      requires Valid()
      modifies this, trail
      ensures Valid() && span == old(span)
      ensures Now() == WentBack(old(Now()), reorg, w)
    {
      var from := trail.ForkPoint(w.probes, reorg.fromBlock);
      if w.reorgRecorded { log := log + [Replaced(Standing.Reorganised(from, reorg.toBlock, nextSeq))]; }
      nextSeq := nextSeq + 1;
      cursor := Some(RewindTo(cursor, from));
    }

    method WorkStep(step: Step, w: Answers) returns (verdict: Verdict)
      requires Valid()
      modifies this, trail
      ensures Valid() && span == old(span)
      ensures (Now(), verdict) == Stepped(old(Now()), config.depth, step, w)
    {
      match w.logs {
        case TooBig => return TooMany;
        case Unread => return NotServed;
        case Read(chain, taking) =>
          TakePayload(step, chain, taking);
          if taking.Refused? { return Errored; }
          var forked := CheckHeaders(step, w.headers);
          if forked.Some? {
            GoBack(forked.value, w);
            return Forked(cursor.value);
          }
          cursor := Some(step.to);
          return if w.flushed then Onward else Errored;
      }
    }

    method WorkSteps(steps: seq<Step>, world: nat -> Answers) returns (end: PassEnd)
      requires Valid()
      modifies this, trail
      ensures Valid() && span == old(span)
      ensures (Now(), end) == PassedFrom(old(Now()), config.depth, steps, world, 0, NOTHING)
    {
      var pass, i := NOTHING, 0;
      while i < |steps|
        invariant 0 <= i <= |steps| && Valid() && span == old(span)
        invariant PassedFrom(Now(), config.depth, steps, world, i, pass)
               == PassedFrom(old(Now()), config.depth, steps, world, 0, NOTHING)
      {
        var verdict := WorkStep(steps[i], world(i));
        match verdict {
          case Onward => pass := pass.(blocks := pass.blocks + steps[i].Blocks());
          case TooMany =>
            return Completed(pass.(failed := pass.failed + 1, narrowTo := Some(Narrowed(steps[i].Blocks()))));
          case NotServed => return Completed(pass.(failed := pass.failed + 1));
          case Forked(rewound) => return Completed(pass.(reorgs := pass.reorgs + 1, rewound := Some(rewound)));
          case Errored => return Broken;
        }
        i := i + 1;
      }
      return Completed(pass);
    }

    method OnePass(head: Option<nat>, world: nat -> Answers) returns (end: PassEnd)
      requires Valid()
      modifies this, trail
      ensures Valid() && span == old(span)
      ensures (Now(), end) == Passed(old(Now()), config, span, head, world)
    {
      if head.None? { return Broken; }
      var from := if cursor.Some? then cursor.value + 1 else Back(head.value, config.backfill);
      if from > head.value { return Completed(NOTHING); }
      var planned := Plan(span, config.earliest, from, head.value);
      if planned.BeforeReach? { return Broken; }
      if cursor.None? { start := from; }
      end := WorkSteps(planned.steps, world);
    }

    method TakeTurn(turn: Turn) returns (stopped: bool)
      requires Valid()
      modifies this, trail
      ensures Valid()
      ensures Turned(old(Now()), old(span), config, turn) == if stopped then Stopped(Now()) else Running(Now(), span)
    {
      nextSeq := nextSeq + turn.others;
      if !turn.referenceRead { return true; }
      var end := OnePass(turn.head, turn.world);
      stopped := false;
      match end {
        case Completed(pass) =>
          if pass.narrowTo.Some? {
            if span <= 1 { return true; }
            span := pass.narrowTo.value;
          } else if pass.failed == 0 && span < config.maxSpan {
            span := Widened(span, config.maxSpan);
          }
        case Broken =>
      }
      stopped := !turn.flushed;
    }

    /** The loop, for as many turns as the world grants it. */
    method RunCursor(turns: seq<Turn>, ghost firstSeq: nat) returns (stopped: bool)
      requires Valid() && Running(Now(), span) == Opening(config, firstSeq)
      modifies this, trail
      ensures Ran(config, firstSeq, turns) == if stopped then Stopped(Now()) else Running(Now(), span)
    {
      stopped := false;
      var i := 0;
      while i < |turns| && !stopped
        invariant 0 <= i <= |turns| && Valid()
        invariant Ran(config, firstSeq, turns[..i]) == if stopped then Stopped(Now()) else Running(Now(), span)
        decreases |turns| - i
      {
        assert turns[..i + 1][..i] == turns[..i];
        stopped := TakeTurn(turns[i]);
        i := i + 1;
      }
      assert turns[..|turns|] == turns;
      if stopped { StoppedStays(config, firstSeq, turns, i); }
    }
  }

  lemma {:induction false} StoppedStays(config: Config, firstSeq: nat, turns: seq<Turn>, i: nat)
    requires i <= |turns| && Ran(config, firstSeq, turns[..i]).Stopped?
    ensures Ran(config, firstSeq, turns) == Ran(config, firstSeq, turns[..i])
    decreases |turns| - i
  {
    if i < |turns| {
      assert turns[..i + 1][..i] == turns[..i];
      StoppedStays(config, firstSeq, turns, i + 1);
    } else {
      assert turns[..i] == turns;
    }
  }
}
