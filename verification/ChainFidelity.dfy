/** The record of a captured chain against the chain itself. */
module ChainFidelity {
  import opened Text
  import opened Trail
  import opened ChainCapture
  import opened ChainRecord
  import Standing

  // ---- an honest node -----------------------------------------------------------------------------

  /** The chain reaches the end of the step, and the headers that read are its own; either may not read. */
  predicate HonestHeaders(headers: map<nat, Header>, chain: Block, step: Step) {
    && step.from <= step.to <= Height(chain)
    && (step.from in headers ==> headers[step.from] == HeaderOf(chain, step.from))
    && (step.to in headers ==> headers[step.to] == HeaderOf(chain, step.to))
  }

  // ---- the trail holds one chain's hashes ---------------------------------------------------------------

  /** Every hash held is the chain's own, from below a height. */
  predicate Holds(held: Held, chain: Block, below: nat)
    requires below <= Height(chain) + 1
  {
    forall h :: h in held ==> h < below && held[h] == AncestorAt(chain, h)
  }

  lemma HoldsOfAncestor(held: Held, chain: Block, height: nat)
    requires height <= Height(chain)
    ensures Holds(held, AncestorAt(chain, height), height + 1) <==> Holds(held, chain, height + 1)
  {
    forall h | h in held && h <= height ensures AncestorAt(AncestorAt(chain, height), h) == AncestorAt(chain, h) {
      AncestorsOfAncestors(chain, height, h);
    }
  }

  lemma NewestIsTip(held: Held, newest: nat)
    requires newest in held && forall h :: h in held ==> h <= newest
    ensures Tip(held) == Some(newest)
  {
    assert held != map[];
  }

  lemma LinkAgrees(held: Held, depth: nat, height: nat, hash: Block, parentHash: Block)
    requires height >= 1 ==> height - 1 in held ==> held[height - 1] == parentHash
    ensures !LinkOf(held, Header(height, hash, parentHash)).Reorganised?
    ensures HeldAfter(held, depth, Header(height, hash, parentHash)) == Trimmed(held[height := hash], depth)
  {
  }

  lemma NewestStays(held: Held, newest: nat, depth: nat)
    requires newest in held && forall h :: h in held ==> h <= newest
    ensures newest in Trimmed(held, depth) && forall h :: h in Trimmed(held, depth) ==> h + depth >= newest
    ensures forall h :: h in Trimmed(held, depth) ==> h in held && Trimmed(held, depth)[h] == held[h]
    ensures forall h :: h in held && h + depth >= newest ==> h in Trimmed(held, depth)
  {
    NewestIsTip(held, newest);
  }

  /** A chain that holds every hash held links, and what is then held is that chain's too. */
  lemma HonestHeaderExtends(held: Held, depth: nat, chain: Block, height: nat)
    requires height <= Height(chain) && Holds(held, chain, height)
    ensures !LinkOf(held, HeaderOf(chain, height)).Reorganised?
    ensures var after := HeldAfter(held, depth, HeaderOf(chain, height)); Holds(after, chain, height + 1) && height in after
  {
    var hash := AncestorAt(chain, height);
    LinkAgrees(held, depth, height, hash, AncestorAt(chain, if height == 0 then 0 else height - 1));
    NewestStays(held[height := hash], height, depth);
  }

  /** A block on any other parent than the newest held shows a fork, however deep the chains parted. */
  lemma ForkIsSeen(held: Held, top: Block, header: Header)
    requires Holds(held, top, Height(top) + 1) && Height(top) in held && header.number == Height(top) + 1 && header.parentHash != top
    ensures LinkOf(held, header) == Reorganised(Reorg(Height(top), Height(top), top, header.parentHash))
  {
    NewestIsTip(held, Height(top));
  }

  lemma ForkKeepsWhatIsBelow(held: Held, depth: nat, top: Block, header: Header)
    requires Holds(held, top, Height(top) + 1) && Height(top) in held && header.number == Height(top) + 1 && header.parentHash != top
    ensures var after := HeldAfter(held, depth, header);
            && (forall h :: h in after && h < Height(top) ==> h in held && after[h] == held[h])
            && (forall h :: h in held && h < Height(top) && h + depth >= header.number ==> h in after)
  {
    ForkIsSeen(held, top, header);
    NewestStays(Below(held, Height(top))[header.number := header.hash], header.number, depth);
  }

  lemma WalkOfLast(held: Held, depth: nat, height: nat, headers: map<nat, Header>)
    ensures Walked(held, depth, [height], headers) ==
      if height !in headers then (held, None)
      else
        var link := LinkOf(held, headers[height]);
        (HeldAfter(held, depth, headers[height]), if link.Reorganised? then Some(link.reorg) else None)
  {
    assert [height][1..] == [];
    assert Walked(held, depth, [], headers) == (held, None);
    if height in headers {
      var after := HeldAfter(held, depth, headers[height]);
      assert Walked(after, depth, [], headers) == (after, None);
    }
  }

  /** A step's headers, its first having shown no fork. */
  lemma WalkedAfterFirst(held: Held, once: Held, depth: nat, step: Step, headers: map<nat, Header>)
    requires step.from <= step.to
    requires if step.from in headers
             then !LinkOf(held, headers[step.from]).Reorganised? && once == HeldAfter(held, depth, headers[step.from])
             else once == held
    ensures Walked(held, depth, HeightsOf(step), headers) ==
      if step.from == step.to then (once, None) else Walked(once, depth, [step.to], headers)
  {
    if step.from == step.to {
      WalkOfLast(held, depth, step.from, headers);
    } else {
      assert HeightsOf(step)[1..] == [step.to];
    }
  }

  lemma HonestWalk(held: Held, depth: nat, step: Step, headers: map<nat, Header>, chain: Block)
    requires HonestHeaders(headers, chain, step) && Holds(held, chain, step.from)
    ensures var (after, reorg) := Walked(held, depth, HeightsOf(step), headers);
            reorg.None? && Holds(after, chain, step.to + 1) && (step.to in headers ==> step.to in after)
  {
    var once := if step.from in headers then HeldAfter(held, depth, headers[step.from]) else held;
    if step.from in headers { HonestHeaderExtends(held, depth, chain, step.from); }
    WalkedAfterFirst(held, once, depth, step, headers);
    if step.from < step.to {
      WalkOfLast(once, depth, step.to, headers);
      if step.to in headers { HonestHeaderExtends(once, depth, chain, step.to); }
    }
  }

  lemma FirstHeaderLinks(held: Held, depth: nat, chain: Block, from: nat)
    requires from <= Height(chain) && forall h :: h in held ==> h < from
    requires from > 0 && from - 1 in held ==> held[from - 1] == AncestorAt(chain, from - 1)
    ensures !LinkOf(held, HeaderOf(chain, from)).Reorganised?
    ensures var after := HeldAfter(held, depth, HeaderOf(chain, from));
            from in after && after[from] == AncestorAt(chain, from) && forall h :: h in after ==> h <= from
  {
    var hash := AncestorAt(chain, from);
    LinkAgrees(held, depth, from, hash, AncestorAt(chain, if from == 0 then 0 else from - 1));
    NewestStays(held[from := hash], from, depth);
  }

  lemma SecondHeaderLinks(once: Held, depth: nat, step: Step, chain: Block)
    requires step.from < step.to <= Height(chain) && forall h :: h in once ==> h <= step.from
    requires step.from in once ==> once[step.from] == AncestorAt(chain, step.from)
    ensures !LinkOf(once, HeaderOf(chain, step.to)).Reorganised?
  {
    assert step.to - 1 in once ==> step.to - 1 == step.from;
    LinkAgrees(once, depth, step.to, AncestorAt(chain, step.to), AncestorAt(chain, step.to - 1));
  }

  /** Unless the newest hash is held and the first header read, or where they agree, there is nothing to disagree. */
  lemma NoForkWalk(held: Held, depth: nat, step: Step, headers: map<nat, Header>, chain: Block)
    requires HonestHeaders(headers, chain, step) && forall h :: h in held ==> h < step.from
    requires step.from in headers && step.from > 0 && step.from - 1 in held ==> held[step.from - 1] == AncestorAt(chain, step.from - 1)
    ensures Walked(held, depth, HeightsOf(step), headers).1.None?
  {
    var once := if step.from in headers then HeldAfter(held, depth, headers[step.from]) else held;
    if step.from in headers { FirstHeaderLinks(held, depth, chain, step.from); }
    WalkedAfterFirst(held, once, depth, step, headers);
    if step.from < step.to {
      WalkOfLast(once, depth, step.to, headers);
      SecondHeaderLinks(once, depth, step, chain);
    }
  }

  // ---- the latest fetch of every block is of one chain ------------------------------------------------------

  predicate LatestAt(log: seq<Entry>, k: nat, block: nat) {
    k < |log| && Covers(log[k], block) && forall j :: k < j < |log| ==> !Covers(log[j], block)
  }

  ghost predicate LatestIs(log: seq<Entry>, block: nat, hash: Block) {
    exists k: nat :: LatestAt(log, k, block) && block <= Height(log[k].chain) && AncestorAt(log[k].chain, block) == hash
  }

  /** The latest fetch of every block captured is of the chain `top` ends, and so is every hash held. */
  ghost predicate FaithfulTo(s: State, top: Block) {
    && s.cursor == Some(Height(top)) && Holds(s.held, top, Height(top) + 1)
    && forall b: nat :: s.start <= b <= Height(top) ==> LatestIs(s.log, b, AncestorAt(top, b))
  }

  ghost predicate Faithful(s: State) {
    match s.cursor
    case None => s.held == map[]
    case Some(_) => exists top :: FaithfulTo(s, top)
  }

  lemma OneChain(s: State, top: Block)
    requires FaithfulTo(s, top)
    ensures Faithful(s)
  {
  }

  /** The newest hash is held and the first header read: the step's chain is compared with the one captured. */
  predicate Checked(s: State, step: Step, headers: map<nat, Header>) {
    s.cursor.Some? && s.cursor.value in s.held && step.from in headers
  }

  /** The chain holds what is held and what was last fetched at the cursor: it has not parted from what was captured. */
  ghost predicate Unparted(s: State, chain: Block)
    requires s.cursor.Some? && s.cursor.value <= Height(chain)
  {
    && (forall h :: h in s.held ==> h <= Height(chain) && s.held[h] == AncestorAt(chain, h))
    && (s.start <= s.cursor.value ==> LatestIs(s.log, s.cursor.value, AncestorAt(chain, s.cursor.value)))
  }

  /**
    One chain answers the whole of a step that is read. Between steps the chain may be any other, so long as a step
    whose chain has parted from what was captured is one that is checked.
   */
  ghost predicate HonestStep(s: State, step: Step, w: Answers) {
    w.logs.Read? && w.logs.taking.Taken? ==>
      && HonestHeaders(w.headers, w.logs.chain, step)
      && (s.cursor.Some? && s.cursor.value < step.from ==> Checked(s, step, w.headers) || Unparted(s, w.logs.chain))
  }

  lemma LatestStays(log: seq<Entry>, entry: Entry, block: nat, hash: Block)
    requires LatestIs(log, block, hash) && !Covers(entry, block)
    ensures LatestIs(log + [entry], block, hash)
  {
    var k: nat :| LatestAt(log, k, block) && block <= Height(log[k].chain) && AncestorAt(log[k].chain, block) == hash;
    assert LatestAt(log + [entry], k, block);
  }

  lemma LatestIsNew(log: seq<Entry>, entry: Entry, block: nat)
    requires Covers(entry, block) && block <= Height(entry.chain)
    ensures LatestIs(log + [entry], block, AncestorAt(entry.chain, block))
  {
    assert LatestAt(log + [entry], |log|, block);
  }

  lemma LatestIsOne(log: seq<Entry>, block: nat, hash: Block, other: Block)
    requires LatestIs(log, block, hash) && LatestIs(log, block, other)
    ensures hash == other
  {
    var k: nat :| LatestAt(log, k, block) && block <= Height(log[k].chain) && AncestorAt(log[k].chain, block) == hash;
    var j: nat :| LatestAt(log, j, block) && block <= Height(log[j].chain) && AncestorAt(log[j].chain, block) == other;
    assert !(k < j) && !(j < k);
  }

  /** A step whose chain holds all that is held and captured is accepted, and the record is then of that chain. */
  lemma AcceptedFollows(s: State, depth: nat, step: Step, w: Answers)
    requires Follows(s, step) && w.logs.Read? && w.logs.taking.Taken? && HonestHeaders(w.headers, w.logs.chain, step)
    requires Holds(s.held, w.logs.chain, step.from)
    requires forall b: nat :: s.start <= b < step.from ==> LatestIs(s.log, b, AncestorAt(w.logs.chain, b))
    ensures var (after, verdict) := Stepped(s, depth, step, w);
            && !verdict.Forked? && FaithfulTo(after, AncestorAt(w.logs.chain, step.to))
            && (step.to in w.headers ==> step.to in after.held)
  {
    var chain := w.logs.chain;
    HonestWalk(s.held, depth, step, w.headers, chain);
    var after := Stepped(s, depth, step, w).0;
    HoldsOfAncestor(after.held, chain, step.to);
    var entry := Fetched(step, chain, s.nextSeq);
    forall b: nat | s.start <= b <= step.to ensures LatestIs(after.log, b, AncestorAt(AncestorAt(chain, step.to), b)) {
      AncestorsOfAncestors(chain, step.to, b);
      if b >= step.from {
        LatestIsNew(s.log, entry, b);
      } else {
        LatestStays(s.log, entry, b, AncestorAt(chain, b));
      }
    }
  }

  lemma FaithfulToLonger(s: State, top: Block, chain: Block)
    requires FaithfulTo(s, top) && Height(top) <= Height(chain) && AncestorAt(chain, Height(top)) == top
    ensures Holds(s.held, chain, Height(top) + 1)
    ensures forall b: nat :: s.start <= b <= Height(top) ==> LatestIs(s.log, b, AncestorAt(chain, b))
  {
    HoldsOfAncestor(s.held, chain, Height(top));
    forall b: nat | s.start <= b <= Height(top) ensures LatestIs(s.log, b, AncestorAt(chain, b)) {
      AncestorsOfAncestors(chain, Height(top), b);
    }
  }

  lemma UnpartedFollows(s: State, depth: nat, step: Step, w: Answers, top: Block)
    requires FaithfulTo(s, top) && Follows(s, step) && w.logs.Read? && w.logs.taking.Taken?
    requires HonestHeaders(w.headers, w.logs.chain, step) && Unparted(s, w.logs.chain)
    ensures FaithfulTo(Stepped(s, depth, step, w).0, AncestorAt(w.logs.chain, step.to))
  {
    if s.start <= Height(top) {
      LatestIsOne(s.log, Height(top), AncestorAt(top, Height(top)), AncestorAt(w.logs.chain, Height(top)));
      FaithfulToLonger(s, top, w.logs.chain);
    }
    AcceptedFollows(s, depth, step, w);
  }

  lemma FirstForks(held: Held, depth: nat, step: Step, headers: map<nat, Header>)
    requires step.from in headers && LinkOf(held, headers[step.from]).Reorganised?
    ensures Walked(held, depth, HeightsOf(step), headers)
         == (HeldAfter(held, depth, headers[step.from]), Some(LinkOf(held, headers[step.from]).reorg))
  {
    assert HeightsOf(step)[0] == step.from;
  }

  lemma SteppedBack(s: State, depth: nat, step: Step, w: Answers, held: Held, reorg: Reorg)
    requires w.logs.Read? && w.logs.taking.Taken? && Walked(s.held, depth, HeightsOf(step), w.headers) == (held, Some(reorg))
    ensures var (after, verdict) := Stepped(s, depth, step, w);
            && verdict.Forked?
            && after == WentBack(s.(nextSeq := s.nextSeq + 1, held := held, log := s.log + [Fetched(step, w.logs.chain, s.nextSeq)]), reorg, w)
  {
  }

  lemma WentBackFrom(s: State, c: nat, reorg: Reorg, w: Answers)
    requires s.cursor == Some(c) && reorg.fromBlock == c
    ensures var (after, lowest) := (WentBack(s, reorg, w), ForkFrom(s.held, w.probes, c));
            && lowest <= c && after.cursor == Some(Back(lowest, 1)) && after.start == s.start && after.held == Below(s.held, lowest)
            && after.nextSeq == s.nextSeq + 1
            && after.log == s.log + if w.reorgRecorded then [Replaced(Standing.Reorganised(lowest, reorg.toBlock, s.nextSeq))] else []
  {
    SearchNeverRises(s.held, w.probes, c, c);
  }

  /** A step checked against a chain that has parted goes back, to where its search ends. */
  lemma ForkedState(s: State, depth: nat, step: Step, w: Answers, top: Block)
    requires FaithfulTo(s, top) && Follows(s, step) && w.logs.Read? && w.logs.taking.Taken?
    requires HonestHeaders(w.headers, w.logs.chain, step) && Checked(s, step, w.headers)
    requires AncestorAt(w.logs.chain, Height(top)) != top
    ensures var (after, verdict) := Stepped(s, depth, step, w);
            var held := HeldAfter(s.held, depth, HeaderOf(w.logs.chain, step.from));
            var lowest := ForkFrom(held, w.probes, Height(top));
            && lowest <= Height(top) && verdict.Forked?
            && after.cursor == Some(Back(lowest, 1)) && after.start == s.start && after.held == Below(held, lowest)
            && after.nextSeq == s.nextSeq + 2
            && after.log == s.log + [Fetched(step, w.logs.chain, s.nextSeq)]
                 + if w.reorgRecorded then [Replaced(Standing.Reorganised(lowest, Height(top), s.nextSeq + 1))] else []
  {
    var header, c := HeaderOf(w.logs.chain, step.from), Height(top);
    ForkIsSeen(s.held, top, header);
    FirstForks(s.held, depth, step, w.headers);
    var held, reorg := HeldAfter(s.held, depth, header), Reorg(c, c, top, header.parentHash);
    SteppedBack(s, depth, step, w, held, reorg);
    WentBackFrom(s.(nextSeq := s.nextSeq + 1, held := held, log := s.log + [Fetched(step, w.logs.chain, s.nextSeq)]), c, reorg, w);
  }

  lemma LatestThroughFork(log: seq<Entry>, fetched: Entry, more: seq<Entry>, block: nat, hash: Block)
    requires LatestIs(log, block, hash) && !Covers(fetched, block) && |more| <= 1 && forall i :: 0 <= i < |more| ==> more[i].Replaced?
    ensures LatestIs(log + [fetched] + more, block, hash)
  {
    LatestStays(log, fetched, block, hash);
    if more == [] {
      assert log + [fetched] + more == log + [fetched];
    } else {
      assert more == [more[0]];
      LatestStays(log + [fetched], more[0], block, hash);
    }
  }

  lemma RewoundIsFaithful(s: State, top: Block, c: nat, after: State, fetched: Entry, more: seq<Entry>)
    requires FaithfulTo(s, top) && c <= Height(top) && after.cursor == Some(c) && after.start == s.start
    requires forall h :: h in after.held ==> h <= c && h in s.held && after.held[h] == s.held[h]
    requires after.log == s.log + [fetched] + more && |more| <= 1 && forall i :: 0 <= i < |more| ==> more[i].Replaced?
    requires forall b: nat :: b <= Height(top) ==> !Covers(fetched, b)
    ensures FaithfulTo(after, AncestorAt(top, c))
  {
    HoldsOfAncestor(after.held, top, c);
    forall b: nat | s.start <= b <= c ensures LatestIs(after.log, b, AncestorAt(AncestorAt(top, c), b)) {
      AncestorsOfAncestors(top, c, b);
      LatestThroughFork(s.log, fetched, more, b, AncestorAt(top, b));
    }
  }

  /** Going back, however the search went, leaves the record faithful to what was captured before. */
  lemma ForkedStaysFaithful(s: State, depth: nat, step: Step, w: Answers, top: Block)
    requires FaithfulTo(s, top) && Follows(s, step) && w.logs.Read? && w.logs.taking.Taken?
    requires HonestHeaders(w.headers, w.logs.chain, step) && Checked(s, step, w.headers)
    requires AncestorAt(w.logs.chain, Height(top)) != top
    ensures var (after, verdict) := Stepped(s, depth, step, w);
            verdict.Forked? && after.cursor.Some? && after.cursor.value <= Height(top) && FaithfulTo(after, AncestorAt(top, after.cursor.value))
  {
    ForkedState(s, depth, step, w, top);
    ForkKeepsWhatIsBelow(s.held, depth, top, HeaderOf(w.logs.chain, step.from));
    var after := Stepped(s, depth, step, w).0;
    var more := if w.reorgRecorded then [after.log[|s.log| + 1]] else [];
    RewoundIsFaithful(s, top, after.cursor.value, after, Fetched(step, w.logs.chain, s.nextSeq), more);
  }

  lemma RefusedStaysFaithful(s: State, step: Step, chain: Block, top: Block)
    requires FaithfulTo(s, top) && Follows(s, step)
    ensures FaithfulTo(s.(nextSeq := s.nextSeq + 1, log := s.log + [Fetched(step, chain, s.nextSeq)]), top)
  {
    forall b: nat | s.start <= b <= Height(top)
      ensures LatestIs(s.log + [Fetched(step, chain, s.nextSeq)], b, AncestorAt(top, b))
    {
      LatestStays(s.log, Fetched(step, chain, s.nextSeq), b, AncestorAt(top, b));
    }
  }

  lemma TakenStaysFaithful(s: State, depth: nat, step: Step, w: Answers, top: Block)
    requires FaithfulTo(s, top) && Follows(s, step) && HonestStep(s, step, w) && w.logs.Read? && w.logs.taking.Taken?
    ensures Faithful(Stepped(s, depth, step, w).0)
  {
    var chain := w.logs.chain;
    var after := Stepped(s, depth, step, w).0;
    if Unparted(s, chain) {
      UnpartedFollows(s, depth, step, w, top);
      OneChain(after, AncestorAt(chain, step.to));
    } else if AncestorAt(chain, Height(top)) == top {
      FaithfulToLonger(s, top, chain);
      AcceptedFollows(s, depth, step, w);
      OneChain(after, AncestorAt(chain, step.to));
    } else {
      ForkedStaysFaithful(s, depth, step, w, top);
      OneChain(after, AncestorAt(top, after.cursor.value));
    }
  }

  /** Whatever fails, forks or is refused, and however a search ends: each step of an honest node keeps the record one chain's. */
  lemma StepStaysFaithful(s: State, depth: nat, step: Step, w: Answers)
    requires Faithful(s) && Follows(s, step) && HonestStep(s, step, w)
    ensures Faithful(Stepped(s, depth, step, w).0)
  {
    if w.logs.Read? && w.logs.taking.Taken? && s.cursor.None? {
      AcceptedFollows(s, depth, step, w);
      OneChain(Stepped(s, depth, step, w).0, AncestorAt(w.logs.chain, step.to));
    } else if w.logs.Read? && s.cursor.Some? {
      var top :| FaithfulTo(s, top);
      if w.logs.taking.Taken? {
        TakenStaysFaithful(s, depth, step, w, top);
      } else if w.logs.taking.recorded {
        RefusedStaysFaithful(s, step, w.logs.chain, top);
        OneChain(Stepped(s, depth, step, w).0, top);
      } else {
        OneChain(Stepped(s, depth, step, w).0, top);
      }
    }
  }

  // ---- the condition is exact ---------------------------------------------------------------------------------

  lemma LatestBefore(log: seq<Entry>, entry: Entry, block: nat, hash: Block)
    requires LatestIs(log + [entry], block, hash) && !Covers(entry, block)
    ensures LatestIs(log, block, hash)
  {
    var k: nat :| LatestAt(log + [entry], k, block) && block <= Height((log + [entry])[k].chain)
                  && AncestorAt((log + [entry])[k].chain, block) == hash;
    assert forall j :: k < j < |log| ==> (log + [entry])[j] == log[j];
    assert LatestAt(log, k, block);
  }

  lemma AcceptedLog(s: State, depth: nat, step: Step, w: Answers)
    requires Follows(s, step) && w.logs.Read? && w.logs.taking.Taken? && !Stepped(s, depth, step, w).1.Forked?
    ensures var after := Stepped(s, depth, step, w).0;
            && after.cursor == Some(step.to) && after.start == s.start
            && after.log == s.log + [Fetched(step, w.logs.chain, s.nextSeq)]
  {
  }

  lemma FaithfulMeansUnparted(s: State, step: Step, chain: Block, at: nat, after: State, top: Block, newTop: Block)
    requires FaithfulTo(s, top) && Follows(s, step) && s.start <= Height(top) && step.to <= Height(chain)
    requires after.cursor == Some(step.to) && after.start == s.start && after.log == s.log + [Fetched(step, chain, at)]
    requires FaithfulTo(after, newTop)
    ensures AncestorAt(chain, Height(top)) == top
  {
    var entry, c := Fetched(step, chain, at), Height(top);
    LatestIsNew(s.log, entry, step.to);
    LatestIsOne(after.log, step.to, AncestorAt(newTop, step.to), AncestorAt(chain, step.to));
    LatestBefore(s.log, entry, c, AncestorAt(newTop, c));
    LatestIsOne(s.log, c, AncestorAt(newTop, c), AncestorAt(top, c));
    AncestorsOfAncestors(chain, step.to, c);
  }

  /**
    No more can be said than that: a step accepted from a node leaves the record one chain's if and only if the node's
    chain holds the block captured at the cursor, and the check is what rules the rest out. A chain that has parted
    unchecked leaves the record faithful to no chain at all.
   */
  lemma AcceptedFaithfulExactly(s: State, depth: nat, step: Step, w: Answers, top: Block)
    requires FaithfulTo(s, top) && Follows(s, step) && s.start <= Height(top)
    requires w.logs.Read? && w.logs.taking.Taken? && HonestHeaders(w.headers, w.logs.chain, step)
    requires !Stepped(s, depth, step, w).1.Forked?
    ensures Faithful(Stepped(s, depth, step, w).0) <==> AncestorAt(w.logs.chain, Height(top)) == top
    ensures Checked(s, step, w.headers) ==> AncestorAt(w.logs.chain, Height(top)) == top
  {
    var chain, after := w.logs.chain, Stepped(s, depth, step, w).0;
    AcceptedLog(s, depth, step, w);
    if AncestorAt(chain, Height(top)) == top {
      FaithfulToLonger(s, top, chain);
      AcceptedFollows(s, depth, step, w);
      OneChain(after, AncestorAt(chain, step.to));
    } else {
      if Checked(s, step, w.headers) { ForkedState(s, depth, step, w, top); }
      if newTop :| FaithfulTo(after, newTop) { FaithfulMeansUnparted(s, step, chain, s.nextSeq, after, top, newTop); }
    }
  }

  /** Unchecked, a parted chain is accepted all the same. */
  lemma UncheckedIsAccepted(s: State, depth: nat, step: Step, w: Answers, top: Block)
    requires FaithfulTo(s, top) && Follows(s, step) && !Checked(s, step, w.headers)
    requires w.logs.Read? && w.logs.taking.Taken? && HonestHeaders(w.headers, w.logs.chain, step)
    ensures !Stepped(s, depth, step, w).1.Forked?
  {
    NoForkWalk(s.held, depth, step, w.headers, w.logs.chain);
  }

  // ---- when a step is checked ------------------------------------------------------------------------------------

  predicate HonestProbes(probes: map<nat, Block>, chain: Block) {
    forall h :: h in probes ==> h <= Height(chain) && probes[h] == AncestorAt(chain, h)
  }

  lemma {:induction false} NewestAgreed(held: Held, probes: map<nat, Block>, chain: Block, changed: nat, h: nat)
    requires HonestProbes(probes, chain) && forall k :: k in held && k < changed ==> k in probes
    requires h in held && h < changed && h in probes && held[h] == AncestorAt(chain, h)
    ensures exists agreed :: NewestAgreement(held, probes, changed, agreed)
    decreases changed
  {
    var last := changed - 1;
    if last in held && probes[last] == held[last] {
      assert NewestAgreement(held, probes, changed, last);
    } else {
      NewestAgreed(held, probes, chain, last, h);
      var agreed: nat :| NewestAgreement(held, probes, last, agreed);
      assert NewestAgreement(held, probes, changed, agreed);
    }
  }

  /** What is kept ends on a hash the chain holds, no lower than one known to be shared. */
  ghost predicate SettledOn(held: Held, lowest: nat, chain: Block, changed: nat, shared: nat) {
    && shared < lowest <= changed && lowest - 1 <= Height(chain)
    && lowest - 1 in held && held[lowest - 1] == AncestorAt(chain, lowest - 1)
  }

  /** A search over hashes all read again, one of which the chain holds, ends on one that it holds. */
  lemma SearchSettles(held: Held, probes: map<nat, Block>, chain: Block, changed: nat, h: nat, lowest: nat)
    requires HonestProbes(probes, chain) && forall k :: k in held && k < changed ==> k in probes
    requires h in held && h < changed && h in probes && held[h] == AncestorAt(chain, h)
    requires lowest == ForkFrom(held, probes, changed)
    ensures SettledOn(held, lowest, chain, changed, h)
  {
    NewestAgreed(held, probes, chain, changed, h);
    var agreed: nat :| NewestAgreement(held, probes, changed, agreed);
    SearchFindsTheAgreement(held, probes, changed, agreed, changed);
  }

  /** A fork forgets nothing below itself but what the trail's depth no longer reaches. */
  ghost predicate KeptBelow(before: Held, held: Held, c: nat, floor: int) {
    && (forall k :: k in held && k < c ==> k in before && held[k] == before[k])
    && (forall k :: k in before && floor <= k < c ==> k in held)
  }

  lemma SettlesOnWhatIsKept(before: Held, held: Held, probes: map<nat, Block>, chain: Block, c: nat, floor: int, h: nat, lowest: nat)
    requires KeptBelow(before, held, c, floor) && lowest == ForkFrom(held, probes, c)
    requires HonestProbes(probes, chain) && forall k :: k in before && k < c ==> k in probes
    requires h in before && floor <= h < c && h <= Height(chain) && before[h] == AncestorAt(chain, h)
    ensures SettledOn(held, lowest, chain, c, h)
  {
    SearchSettles(held, probes, chain, c, h, lowest);
  }

  lemma ForkKeepsBelow(held: Held, depth: nat, top: Block, header: Header)
    requires Holds(held, top, Height(top) + 1) && Height(top) in held && header.number == Height(top) + 1 && header.parentHash != top
    ensures KeptBelow(held, HeldAfter(held, depth, header), Height(top), header.number - depth)
  {
    ForkKeepsWhatIsBelow(held, depth, top, header);
  }

  /** The newest hash is held, no lower than a block known to be shared, and is the chain's own. */
  ghost predicate Watched(s: State, chain: Block, shared: nat, below: nat) {
    && s.cursor.Some? && shared <= s.cursor.value < below && s.cursor.value in s.held
    && s.cursor.value <= Height(chain) && s.held[s.cursor.value] == AncestorAt(chain, s.cursor.value)
  }

  lemma WatchedFrom(after: State, held: Held, lowest: nat, chain: Block, c: nat, h: nat)
    requires SettledOn(held, lowest, chain, c, h) && after.cursor == Some(Back(lowest, 1)) && after.held == Below(held, lowest)
    ensures Watched(after, chain, h, c)
  {
  }

  /** Every hash held below a fork is read again of the chain, which still holds one that the trail's depth retains. */
  predicate ReadAgain(held: Held, depth: nat, probes: map<nat, Block>, chain: Block, c: nat, shared: nat) {
    && HonestProbes(probes, chain) && (forall k :: k in held && k < c ==> k in probes)
    && shared in held && shared < c < shared + depth && shared <= Height(chain) && held[shared] == AncestorAt(chain, shared)
  }

  /** Going back then keeps the newest hash held, so that the next step is checked again, and it is the new chain's own. */
  lemma SettledSearchIsWatched(s: State, depth: nat, step: Step, w: Answers, top: Block, shared: nat)
    requires FaithfulTo(s, top) && Follows(s, step) && w.logs.Read? && w.logs.taking.Taken?
    requires HonestHeaders(w.headers, w.logs.chain, step) && Checked(s, step, w.headers)
    requires AncestorAt(w.logs.chain, Height(top)) != top
    requires ReadAgain(s.held, depth, w.probes, w.logs.chain, Height(top), shared)
    ensures Watched(Stepped(s, depth, step, w).0, w.logs.chain, shared, Height(top))
  {
    var held := HeldAfter(s.held, depth, HeaderOf(w.logs.chain, step.from));
    var lowest := ForkFrom(held, w.probes, Height(top));
    ForkedState(s, depth, step, w, top);
    ForkSettles(s.held, depth, top, HeaderOf(w.logs.chain, step.from), held, w.probes, w.logs.chain, shared, lowest);
    WatchedFrom(Stepped(s, depth, step, w).0, held, lowest, w.logs.chain, Height(top), shared);
  }

  lemma ForkSettles(before: Held, depth: nat, top: Block, header: Header, held: Held, probes: map<nat, Block>, chain: Block,
                    shared: nat, lowest: nat)
    requires Holds(before, top, Height(top) + 1) && Height(top) in before && header.number == Height(top) + 1 && header.parentHash != top
    requires held == HeldAfter(before, depth, header) && lowest == ForkFrom(held, probes, Height(top))
    requires ReadAgain(before, depth, probes, chain, Height(top), shared)
    ensures SettledOn(held, lowest, chain, Height(top), shared)
  {
    ForkKeepsBelow(before, depth, top, header);
    SettlesOnWhatIsKept(before, held, probes, chain, Height(top), header.number - depth, shared, lowest);
  }

  // ---- every run ------------------------------------------------------------------------------------------

  ghost predicate HonestSteps(s: State, depth: nat, steps: seq<Step>, world: nat -> Answers, i: nat)
    requires i <= |steps|
    decreases |steps| - i
  {
    i < |steps| ==>
      && HonestStep(s, steps[i], world(i))
      && (Stepped(s, depth, steps[i], world(i)).1 == Onward ==>
            HonestSteps(Stepped(s, depth, steps[i], world(i)).0, depth, steps, world, i + 1))
  }

  ghost predicate HonestPass(s: State, config: Config, span: nat, head: Option<nat>, world: nat -> Answers) {
    head.Some? ==>
      var from := FromOf(s, config, head.value);
      var planned := PlanOf(span, config.earliest, from, head.value);
      planned.Steps? ==> HonestSteps(SetOut(s, from), config.depth, planned.steps, world, 0)
  }

  ghost predicate HonestTurn(s: State, span: nat, config: Config, turn: Turn) {
    HonestPass(s.(nextSeq := s.nextSeq + turn.others), config, span, turn.head, turn.world)
  }

  ghost predicate HonestRun(config: Config, firstSeq: nat, turns: seq<Turn>) {
    turns != [] ==>
      var front := turns[..|turns| - 1];
      && HonestRun(config, firstSeq, front)
      && (Ran(config, firstSeq, front).Running? ==>
            HonestTurn(Ran(config, firstSeq, front).state, Ran(config, firstSeq, front).span, config, turns[|turns| - 1]))
  }

  lemma OnwardMovesTheCursor(s: State, depth: nat, step: Step, w: Answers)
    requires Stepped(s, depth, step, w).1 == Onward
    ensures Stepped(s, depth, step, w).0.cursor == Some(step.to)
  {
  }

  lemma HonestOneStep(s: State, depth: nat, steps: seq<Step>, world: nat -> Answers, i: nat, from: nat, to: nat, span: nat)
    requires i < |steps| && Covering(steps, from, to, span) && HonestSteps(s, depth, steps, world, i)
    requires Faithful(s) && Follows(s, steps[i])
    ensures var (after, verdict) := Stepped(s, depth, steps[i], world(i));
            && Faithful(after)
            && (verdict == Onward ==> HonestSteps(after, depth, steps, world, i + 1))
            && (verdict == Onward && i + 1 < |steps| ==> Follows(after, steps[i + 1]))
  {
    var (after, verdict) := Stepped(s, depth, steps[i], world(i));
    StepStaysFaithful(s, depth, steps[i], world(i));
    if verdict == Onward { OnwardMovesTheCursor(s, depth, steps[i], world(i)); }
  }

  lemma {:induction false} PassStaysFaithful(s: State, depth: nat, steps: seq<Step>, world: nat -> Answers, i: nat, pass: Pass,
                                             from: nat, to: nat, span: nat)
    requires i <= |steps| && Covering(steps, from, to, span) && HonestSteps(s, depth, steps, world, i)
    requires Faithful(s) && (i < |steps| ==> Follows(s, steps[i]))
    ensures Faithful(PassedFrom(s, depth, steps, world, i, pass).0)
    decreases |steps| - i
  {
    if i < |steps| {
      HonestOneStep(s, depth, steps, world, i, from, to, span);
      PassedOneStep(s, depth, steps, world, i, pass);
      var (after, verdict) := Stepped(s, depth, steps[i], world(i));
      if verdict == Onward {
        PassStaysFaithful(after, depth, steps, world, i + 1, pass.(blocks := pass.blocks + steps[i].Blocks()), from, to, span);
      }
    }
  }

  lemma SettingOutIsFaithful(s: State, seqNo: nat, from: nat)
    requires Faithful(s)
    ensures Faithful(s.(nextSeq := seqNo)) && Faithful(SetOut(s, from))
  {
    if s.cursor.Some? {
      var top :| FaithfulTo(s, top);
      OneChain(s.(nextSeq := seqNo), top);
    }
  }

  lemma WholePassStaysFaithful(s: State, config: Config, span: nat, head: Option<nat>, world: nat -> Answers)
    requires Faithful(s) && HonestPass(s, config, span, head, world)
    ensures Faithful(Passed(s, config, span, head, world).0)
  {
    if head.Some? {
      var from := FromOf(s, config, head.value);
      var planned := PlanOf(span, config.earliest, from, head.value);
      if from <= head.value && planned.Steps? {
        var out := SetOut(s, from);
        SettingOutIsFaithful(s, s.nextSeq, from);
        if planned.steps == [] {
          assert Passed(s, config, span, head, world).0 == out;
        } else {
          ChunksCover(from, head.value, span);
          PassStaysFaithful(out, config.depth, planned.steps, world, 0, NOTHING, from, head.value, span);
        }
      }
    }
  }

  lemma TurnStaysFaithful(s: State, span: nat, config: Config, turn: Turn)
    requires Faithful(s) && HonestTurn(s, span, config, turn)
    ensures Faithful(Turned(s, span, config, turn).state)
  {
    TurnState(s, span, config, turn);
    SettingOutIsFaithful(s, s.nextSeq + turn.others, 0);
    WholePassStaysFaithful(s.(nextSeq := s.nextSeq + turn.others), config, span, turn.head, turn.world);
  }

  lemma {:induction false} RunStaysFaithful(config: Config, firstSeq: nat, turns: seq<Turn>)
    requires HonestRun(config, firstSeq, turns)
    ensures Faithful(Ran(config, firstSeq, turns).state)
    decreases |turns|
  {
    if turns != [] {
      var before := Ran(config, firstSeq, turns[..|turns| - 1]);
      RunStaysFaithful(config, firstSeq, turns[..|turns| - 1]);
      if before.Running? {
        TurnStaysFaithful(before.state, before.span, config, turns[|turns| - 1]);
      }
    }
  }

  /** The latest fetch of the block stands, and is of this hash. */
  ghost predicate StandsAs(log: seq<Entry>, block: nat, hash: Block) {
    exists k: nat ::
      && LatestAt(log, k, block) && block <= Height(log[k].chain) && AncestorAt(log[k].chain, block) == hash
      && Standing.StandingOf(ReorgsOf(log), Standing.Row(block, log[k].at)) == Standing.Uncontradicted
  }

  lemma LatestFetchStands(s: State, k: nat, block: nat)
    requires Sequenced(s) && Stood(s.log, block) && LatestAt(s.log, k, block)
    ensures NotContradicted(s.log, block, s.log[k].at)
  {
    var j: nat :| FetchStands(s.log, j, block);
    assert At(s.log[j]) <= At(s.log[k]);
  }

  lemma StoodStandsAs(s: State, block: nat, hash: Block)
    requires Sequenced(s) && LatestIs(s.log, block, hash)
    ensures StandsAs(s.log, block, hash) <==> Represented(s.log, block)
  {
    RepresentedMeansStood(s.log, block);
    if Represented(s.log, block) {
      var k: nat :| LatestAt(s.log, k, block) && block <= Height(s.log[k].chain) && AncestorAt(s.log[k].chain, block) == hash;
      LatestFetchStands(s, k, block);
      StandsInTheLog(s.log, block, s.log[k].at);
      Standing.StandingNamesTheLatest(ReorgsOf(s.log), Standing.Row(block, s.log[k].at));
    }
  }

  /**
    What the trail, the rewind and the join are for. Whatever chain answers each step, and whatever fails or is
    refused between, there is one chain of which every hash held and the latest fetch of every block captured are; and
    each of those latest fetches stands, unless it is of the first block of the chain and a reorganisation reached that.
   */
  lemma RecordFollowsTheChain(config: Config, firstSeq: nat, turns: seq<Turn>)
    requires HonestRun(config, firstSeq, turns) && forall i :: 0 <= i < |turns| ==> NumberedTurn(turns[i])
    requires Ran(config, firstSeq, turns).state.cursor.Some?
    ensures var s := Ran(config, firstSeq, turns).state;
            exists top ::
              && FaithfulTo(s, top)
              && forall b: nat :: s.start <= b <= Height(top) ==>
                   (StandsAs(s.log, b, AncestorAt(top, b)) <==> b > 0 || NeverFromGenesis(s.log))
  {
    var s := Ran(config, firstSeq, turns).state;
    RunStaysFaithful(config, firstSeq, turns);
    RunKeeps(config, firstSeq, turns);
    var top :| FaithfulTo(s, top);
    forall b: nat | s.start <= b <= Height(top)
      ensures StandsAs(s.log, b, AncestorAt(top, b)) <==> b > 0 || NeverFromGenesis(s.log)
    {
      EveryCapturedBlockStands(config, firstSeq, turns, b);
      StoodStandsAs(s, b, AncestorAt(top, b));
    }
  }
}
