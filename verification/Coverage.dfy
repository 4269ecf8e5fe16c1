/** For every pair declared, the moment its coverage reaches and the gaps announced beyond it. */
module CoverageLedger {
  import opened Text

  datatype Pair = Pair(ticker: string, series: string)

  datatype GapCause =
    | SessionLost | CrashUnflushed | Downtime | RotationFailed | Refused | PollFailed | Throttled | Reorg | BeyondReach

  datatype Clipped = Sessions | Continuous | Assumed24h

  datatype Gap = Gap(pair: Pair, fromMicros: int, toMicros: int, cause: GapCause, clipped: Clipped)

  /** The gap announced last for a pair: its end, its cause, and whether it still awaits another request for the stream. */
  datatype Gapped = Gapped(endMicros: int, cause: GapCause, open: bool)

  datatype Ledger = Ledger(lastRecv: Option<int>, count: nat, gapped: Option<Gapped>)

  const EMPTY := Ledger(None, 0, None)

  datatype Book = Book(pairs: map<Pair, Ledger>, windowStarted: Option<int>, clipped: Clipped)

  datatype Call =
    | Known(pair: Pair, at: int)
    | Received(pair: Pair, at: int)
    | HandoverCompleted(at: int)
    | GapsFor(pairs: seq<Pair>, at: int, cause: GapCause)
    | AskedAgain(pairs: seq<Pair>, at: int)
    | RollCounts(at: int, window: int)

  // ---- the ledger as a value -------------------------------------------------------

  function LedgerOf(pairs: map<Pair, Ledger>, pair: Pair): Ledger {
    if pair in pairs then pairs[pair] else EMPTY
  }

  function GetOrInsert(window: Option<int>, at: int): Option<int> {
    if window.Some? then window else Some(at)
  }

  /** A loss at `to` leaves a pair uncovered since whichever came last, its coverage or its last gap. */
  function LossGap(l: Ledger, pair: Pair, to: int, cause: GapCause, clipped: Clipped): Option<Gap> {
    match l.lastRecv
    case None => None
    case Some(covered) =>
      var from := if l.gapped.Some? && l.gapped.value.endMicros > covered then l.gapped.value.endMicros else covered;
      if from >= to then None else Some(Gap(pair, from, to, cause, clipped))
  }

  /** What remains of an open gap: from where it was announced to, until the new request. */
  function TailGap(l: Ledger, pair: Pair, at: int, clipped: Clipped): Option<Gap> {
    if l.gapped.None? || !l.gapped.value.open then None
    else
      var from := l.gapped.value.endMicros;
      if (l.lastRecv.Some? && l.lastRecv.value >= from) || from >= at then None
      else Some(Gap(pair, from, at, l.gapped.value.cause, clipped))
  }

  function Gaps(pairs: map<Pair, Ledger>, named: seq<Pair>, gapOf: (Ledger, Pair) -> Option<Gap>): seq<Gap> {
    if named == [] then []
    else
      var front, last := named[..|named| - 1], named[|named| - 1];
      match gapOf(LedgerOf(pairs, last), last)
      case Some(gap) => Gaps(pairs, front, gapOf) + [gap]
      case None => Gaps(pairs, front, gapOf)
  }

  function Noted(pairs: map<Pair, Ledger>, gaps: seq<Gap>, open: bool): map<Pair, Ledger> {
    if gaps == [] then pairs
    else
      var before, gap := Noted(pairs, gaps[..|gaps| - 1], open), gaps[|gaps| - 1];
      if gap.pair in before then before[gap.pair := before[gap.pair].(gapped := Some(Gapped(gap.toMicros, gap.cause, open)))]
      else before
  }

  function ClosedLedger(l: Ledger): Ledger {
    if l.gapped.Some? then l.(gapped := Some(l.gapped.value.(open := false))) else l
  }

  function ClosedFor(pairs: map<Pair, Ledger>, named: seq<Pair>): map<Pair, Ledger> {
    map p | p in pairs :: if p in named then ClosedLedger(pairs[p]) else pairs[p]
  }

  function LossOf(to: int, cause: GapCause, clipped: Clipped): (Ledger, Pair) -> Option<Gap> {
    (l: Ledger, p: Pair) => LossGap(l, p, to, cause, clipped)
  }

  function TailOf(at: int, clipped: Clipped): (Ledger, Pair) -> Option<Gap> {
    (l: Ledger, p: Pair) => TailGap(l, p, at, clipped)
  }

  function Published(b: Book, call: Call): seq<Gap> {
    match call
    case GapsFor(named, at, cause) => Gaps(b.pairs, named, LossOf(at, cause, b.clipped))
    case AskedAgain(named, at) => Gaps(b.pairs, named, TailOf(at, b.clipped))
    case _ => []
  }

  function HandedOver(l: Ledger, at: int): Ledger {
    if l.lastRecv.Some? then l.(lastRecv := Some(at)) else l
  }

  function After(b: Book, call: Call): Book {
    match call
    case Known(p, at) =>
      b.(windowStarted := GetOrInsert(b.windowStarted, at), pairs := b.pairs[p := LedgerOf(b.pairs, p).(lastRecv := Some(at))])
    case Received(p, at) =>
      var l := LedgerOf(b.pairs, p);
      b.(windowStarted := GetOrInsert(b.windowStarted, at), pairs := b.pairs[p := l.(lastRecv := Some(at), count := l.count + 1)])
    case HandoverCompleted(at) => b.(pairs := map p | p in b.pairs :: HandedOver(b.pairs[p], at))
    case GapsFor(_, _, _) => b.(pairs := Noted(b.pairs, Published(b, call), true))
    case AskedAgain(named, _) => b.(pairs := ClosedFor(Noted(b.pairs, Published(b, call), false), named))
    case RollCounts(at, window) =>
      if b.windowStarted.Some? && at - b.windowStarted.value >= window then
        b.(windowStarted := Some(at), pairs := map p | p in b.pairs :: b.pairs[p].(count := 0))
      else b
  }

  // ---- the ledger as capture holds it -------------------------------------------------

  class Coverage {
    var pairs: map<Pair, Ledger>
    /** The start of the window in which receipts are counted; all pairs share it. */
    var windowStarted: Option<int>
    const clipped: Clipped

    function State(): Book
      reads this
    {
      Book(pairs, windowStarted, clipped)
    }

    constructor (clipped: Clipped)
      ensures State() == Book(map[], None, clipped)
    {
      this.clipped := clipped;
      pairs, windowStarted := map[], None;
    }

    method MarkKnown(pair: Pair, at: int)
      modifies this
      ensures State() == After(old(State()), Known(pair, at))
    {
      if windowStarted.None? { windowStarted := Some(at); }
      var entry := if pair in pairs then pairs[pair] else EMPTY;
      pairs := pairs[pair := entry.(lastRecv := Some(at))];
    }

    method MarkReceived(pair: Pair, at: int)
      modifies this
      ensures State() == After(old(State()), Received(pair, at))
    {
      if windowStarted.None? { windowStarted := Some(at); }
      var entry := if pair in pairs then pairs[pair] else EMPTY;
      pairs := pairs[pair := entry.(lastRecv := Some(at), count := entry.count + 1)];
    }

    method MarkHandedOver(at: int)
      modifies this
      ensures State() == After(old(State()), HandoverCompleted(at))
    {
      pairs := map p | p in pairs :: if pairs[p].lastRecv.Some? then pairs[p].(lastRecv := Some(at)) else pairs[p];
    }

    method Roll(now: int, window: int)
      modifies this
      ensures State() == After(old(State()), RollCounts(now, window))
    {
      if windowStarted.None? { return; }
      if now - windowStarted.value >= window {
        pairs := map p | p in pairs :: pairs[p].(count := 0);
        windowStarted := Some(now);
      }
    }

    method NoteGapped(gaps: seq<Gap>, open: bool)
      modifies this`pairs
      ensures pairs == Noted(old(pairs), gaps, open)
    {
      var i := 0;
      while i < |gaps|
        invariant 0 <= i <= |gaps| && pairs == Noted(old(pairs), gaps[..i], open)
      {
        var gap := gaps[i];
        assert gaps[..i + 1][..i] == gaps[..i];
        if gap.pair in pairs {
          pairs := pairs[gap.pair := pairs[gap.pair].(gapped := Some(Gapped(gap.toMicros, gap.cause, open)))];
        }
        i := i + 1;
      }
      assert gaps[..i] == gaps;
    }

    /** A gap for every pair named, if it has one, beginning where that pair's coverage left off. */
    method PublishGaps(named: seq<Pair>, to: int, cause: GapCause) returns (out: seq<Gap>)
      modifies this
      ensures out == Published(old(State()), GapsFor(named, to, cause))
      ensures State() == After(old(State()), GapsFor(named, to, cause))
    {
      out := [];
      var i := 0;
      while i < |named|
        invariant 0 <= i <= |named| && State() == old(State())
        invariant out == Gaps(pairs, named[..i], LossOf(to, cause, clipped))
      {
        var pair := named[i];
        assert named[..i + 1][..i] == named[..i];
        var covered := if pair in pairs then pairs[pair].lastRecv else None;
        if covered.Some? {
          var from := covered.value;
          if pairs[pair].gapped.Some? && pairs[pair].gapped.value.endMicros > from { from := pairs[pair].gapped.value.endMicros; }
          if from < to { out := out + [Gap(pair, from, to, cause, clipped)]; }
        }
        i := i + 1;
      }
      assert named[..i] == named;
      NoteGapped(out, true);
    }

    /** What remains of each open gap, after which no pair in the request has one open. */
    method AskAgain(named: seq<Pair>, at: int) returns (out: seq<Gap>)
      modifies this
      ensures out == Published(old(State()), AskedAgain(named, at))
      ensures State() == After(old(State()), AskedAgain(named, at))
    {
      out := [];
      var i := 0;
      while i < |named|
        invariant 0 <= i <= |named| && State() == old(State())
        invariant out == Gaps(pairs, named[..i], TailOf(at, clipped))
      {
        var pair := named[i];
        assert named[..i + 1][..i] == named[..i];
        if pair in pairs && pairs[pair].gapped.Some? && pairs[pair].gapped.value.open {
          var from, cause := pairs[pair].gapped.value.endMicros, pairs[pair].gapped.value.cause;
          var coveredSince := pairs[pair].lastRecv.Some? && pairs[pair].lastRecv.value >= from;
          if !coveredSince && from < at { out := out + [Gap(pair, from, at, cause, clipped)]; }
        }
        i := i + 1;
      }
      assert named[..i] == named;
      NoteGapped(out, false);
      ghost var noted := pairs;
      i := 0;
      while i < |named|
        invariant 0 <= i <= |named| && windowStarted == old(windowStarted)
        invariant pairs == ClosedFor(noted, named[..i])
      {
        var pair := named[i];
        if pair in pairs && pairs[pair].gapped.Some? {
          pairs := pairs[pair := pairs[pair].(gapped := Some(pairs[pair].gapped.value.(open := false)))];
        }
        i := i + 1;
      }
      assert named[..i] == named;
    }
  }

  // ---- one pair's part of the ledger --------------------------------------------------------

  /** What the accounting of one pair turns on: its count plays no part. */
  datatype Account = Account(lastRecv: Option<int>, gapped: Option<Gapped>)

  function AccountIn(pairs: map<Pair, Ledger>, pair: Pair): Account {
    Account(LedgerOf(pairs, pair).lastRecv, LedgerOf(pairs, pair).gapped)
  }

  /** How often a call names a pair to have its gaps published. */
  function Mentions(call: Call, pair: Pair): nat {
    match call
    case GapsFor(named, _, _) => multiset(named)[pair]
    case AskedAgain(named, _) => multiset(named)[pair]
    case _ => 0
  }

  function GapFrom(a: Account, pair: Pair, call: Call, clipped: Clipped): Option<Gap> {
    var l := Ledger(a.lastRecv, 0, a.gapped);
    match call
    case GapsFor(named, at, cause) => if pair in named then LossGap(l, pair, at, cause, clipped) else None
    case AskedAgain(named, at) => if pair in named then TailGap(l, pair, at, clipped) else None
    case _ => None
  }

  function AccountAfter(a: Account, pair: Pair, call: Call, clipped: Clipped): Account {
    var gap := GapFrom(a, pair, call, clipped);
    match call
    case Known(p, at) => if p == pair then a.(lastRecv := Some(at)) else a
    case Received(p, at) => if p == pair then a.(lastRecv := Some(at)) else a
    case HandoverCompleted(at) => if a.lastRecv.Some? then a.(lastRecv := Some(at)) else a
    case GapsFor(_, _, _) =>
      if gap.Some? then a.(gapped := Some(Gapped(gap.value.toMicros, gap.value.cause, true))) else a
    case AskedAgain(named, _) =>
      if gap.Some? then a.(gapped := Some(Gapped(gap.value.toMicros, gap.value.cause, false)))
      else if pair in named && a.gapped.Some? then a.(gapped := Some(a.gapped.value.(open := false)))
      else a
    case RollCounts(_, _) => a
  }

  function OfPair(gaps: seq<Gap>, pair: Pair): seq<Gap> {
    if gaps == [] then []
    else
      var front, last := gaps[..|gaps| - 1], gaps[|gaps| - 1];
      if last.pair == pair then OfPair(front, pair) + [last] else OfPair(front, pair)
  }

  function AsSeq<T>(o: Option<T>): seq<T> {
    if o.Some? then [o.value] else []
  }

  function Times(n: nat, gap: Option<Gap>): seq<Gap> {
    if n == 0 || gap.None? then [] else Times(n - 1, gap) + [gap.value]
  }

  lemma OneMoreOfPair(gaps: seq<Gap>, gap: Option<Gap>, pair: Pair)
    ensures OfPair(gaps + AsSeq(gap), pair) == OfPair(gaps, pair) + if gap.Some? && gap.value.pair == pair then [gap.value] else []
  {
    if gap.Some? {
      assert (gaps + [gap.value])[..|gaps|] == gaps;
    } else {
      assert gaps + AsSeq(gap) == gaps;
    }
  }

  lemma OneMoreName(named: seq<Pair>, last: Pair, pair: Pair)
    ensures multiset(named + [last])[pair] == multiset(named)[pair] + if last == pair then 1 else 0
  {
    assert multiset(named + [last]) == multiset(named) + multiset{last};
  }

  lemma OneMoreTime(n: nat, gap: Option<Gap>)
    ensures Times(n + 1, gap) == Times(n, gap) + AsSeq(gap)
  {
  }

  /** A call publishes one pair's gap once for every time it names the pair. */
  lemma {:induction false} PublishedAsOftenAsNamed(
      pairs: map<Pair, Ledger>, named: seq<Pair>, gapOf: (Ledger, Pair) -> Option<Gap>, pair: Pair)
    requires forall l, p :: gapOf(l, p).Some? ==> gapOf(l, p).value.pair == p
    ensures OfPair(Gaps(pairs, named, gapOf), pair) == Times(multiset(named)[pair], gapOf(LedgerOf(pairs, pair), pair))
    decreases |named|
  {
    if named != [] {
      var front, last := named[..|named| - 1], named[|named| - 1];
      var gap := gapOf(LedgerOf(pairs, last), last);
      assert named == front + [last];
      assert Gaps(pairs, named, gapOf) == Gaps(pairs, front, gapOf) + AsSeq(gap);
      PublishedAsOftenAsNamed(pairs, front, gapOf, pair);
      OneMoreOfPair(Gaps(pairs, front, gapOf), gap, pair);
      OneMoreName(front, last, pair);
      OneMoreTime(multiset(front)[pair], gapOf(LedgerOf(pairs, pair), pair));
    }
  }

  lemma {:induction false} NotedForPair(pairs: map<Pair, Ledger>, gaps: seq<Gap>, open: bool, pair: Pair)
    requires pair in pairs
    ensures Noted(pairs, gaps, open).Keys == pairs.Keys
    ensures var mine := OfPair(gaps, pair);
            Noted(pairs, gaps, open)[pair] ==
              if mine == [] then pairs[pair]
              else pairs[pair].(gapped := Some(Gapped(mine[|mine| - 1].toMicros, mine[|mine| - 1].cause, open)))
    decreases |gaps|
  {
    if gaps != [] { NotedForPair(pairs, gaps[..|gaps| - 1], open, pair); }
  }

  lemma {:induction false} NotedKeys(pairs: map<Pair, Ledger>, gaps: seq<Gap>, open: bool)
    ensures Noted(pairs, gaps, open).Keys == pairs.Keys
    decreases |gaps|
  {
    if gaps != [] { NotedKeys(pairs, gaps[..|gaps| - 1], open); }
  }

  lemma {:induction false} TimesRepeat(n: nat, gap: Option<Gap>)
    requires gap.Some?
    ensures |Times(n, gap)| == n && forall i :: 0 <= i < n ==> Times(n, gap)[i] == gap.value
    decreases n
  {
    if n > 0 { TimesRepeat(n - 1, gap); }
  }

  lemma CountPlaysNoPart(l: Ledger, pair: Pair, at: int, cause: GapCause, clipped: Clipped)
    ensures LossGap(l, pair, at, cause, clipped) == LossGap(Ledger(l.lastRecv, 0, l.gapped), pair, at, cause, clipped)
    ensures TailGap(l, pair, at, clipped) == TailGap(Ledger(l.lastRecv, 0, l.gapped), pair, at, clipped)
  {
  }

  lemma NotNamed(named: seq<Pair>, pair: Pair)
    ensures pair in named <==> multiset(named)[pair] > 0
  {
    assert pair in named <==> pair in multiset(named);
  }

  /** What a call publishes of one pair: its own gap, once for every mention. */
  lemma PublishedForPair(b: Book, call: Call, pair: Pair)
    ensures OfPair(Published(b, call), pair) == Times(Mentions(call, pair), GapFrom(AccountIn(b.pairs, pair), pair, call, b.clipped))
    ensures GapFrom(AccountIn(b.pairs, pair), pair, call, b.clipped).Some? ==> Mentions(call, pair) > 0
  {
    match call {
      case GapsFor(named, at, cause) =>
        NotNamed(named, pair);
        PublishedAsOftenAsNamed(b.pairs, named, LossOf(at, cause, b.clipped), pair);
        CountPlaysNoPart(LedgerOf(b.pairs, pair), pair, at, cause, b.clipped);
      case AskedAgain(named, at) =>
        NotNamed(named, pair);
        PublishedAsOftenAsNamed(b.pairs, named, TailOf(at, b.clipped), pair);
        CountPlaysNoPart(LedgerOf(b.pairs, pair), pair, at, Refused, b.clipped);
      case _ =>
    }
  }

  /** Each pair's accounting follows its own steps, whatever else the ledger holds and however often a call names it. */
  lemma PairFollowsItsOwnSteps(b: Book, call: Call, pair: Pair)
    ensures AccountIn(After(b, call).pairs, pair) == AccountAfter(AccountIn(b.pairs, pair), pair, call, b.clipped)
  {
    PublishedForPair(b, call, pair);
    var gap := GapFrom(AccountIn(b.pairs, pair), pair, call, b.clipped);
    if gap.Some? { TimesRepeat(Mentions(call, pair), gap); }
    match call {
      case GapsFor(_, _, _) =>
        NotedKeys(b.pairs, Published(b, call), true);
        if pair in b.pairs { NotedForPair(b.pairs, Published(b, call), true, pair); }
      case AskedAgain(_, _) =>
        NotedKeys(b.pairs, Published(b, call), false);
        if pair in b.pairs { NotedForPair(b.pairs, Published(b, call), false, pair); }
      case _ =>
    }
  }

  // ---- every run of calls -----------------------------------------------------------------------

  function Fresh(clipped: Clipped): Book {
    Book(map[], None, clipped)
  }

  function AfterAll(b: Book, calls: seq<Call>): Book {
    if calls == [] then b else After(AfterAll(b, calls[..|calls| - 1]), calls[|calls| - 1])
  }

  function AllPublished(b: Book, calls: seq<Call>): seq<Gap> {
    if calls == [] then []
    else AllPublished(b, calls[..|calls| - 1]) + Published(AfterAll(b, calls[..|calls| - 1]), calls[|calls| - 1])
  }

  /** The moments a run of calls says a pair was covered at: a handover covers what was covered before. */
  function Moments(calls: seq<Call>, pair: Pair): seq<int> {
    if calls == [] then []
    else
      var before := Moments(calls[..|calls| - 1], pair);
      before + MomentOf(before != [], pair, calls[|calls| - 1])
  }

  function MomentOf(covered: bool, pair: Pair, call: Call): seq<int> {
    match call
    case Known(p, at) => if p == pair then [at] else []
    case Received(p, at) => if p == pair then [at] else []
    case HandoverCompleted(at) => if covered then [at] else []
    case _ => []
  }

  /** A clock that never goes back. */
  predicate Clocked(calls: seq<Call>) {
    forall i, j :: 0 <= i < j < |calls| ==> calls[i].at <= calls[j].at
  }

  predicate Disjoint(gaps: seq<Gap>) {
    && (forall i :: 0 <= i < |gaps| ==> gaps[i].fromMicros < gaps[i].toMicros)
    && (forall i, j :: 0 <= i < j < |gaps| ==> gaps[i].toMicros <= gaps[j].fromMicros)
  }

  predicate LastGapKept(a: Account, gaps: seq<Gap>) {
    && (a.gapped.Some? <==> gaps != [])
    && (gaps != [] ==> a.gapped.value.endMicros == gaps[|gaps| - 1].toMicros && a.gapped.value.cause == gaps[|gaps| - 1].cause)
  }

  lemma {:induction false} OfPairAppend(a: seq<Gap>, b: seq<Gap>, pair: Pair)
    ensures OfPair(a + b, pair) == OfPair(a, pair) + OfPair(b, pair)
    decreases |b|
  {
    if b == [] {
      assert a + b == a;
    } else {
      OfPairAppend(a, b[..|b| - 1], pair);
      assert (a + b)[..|a + b| - 1] == a + b[..|b| - 1];
    }
  }

  /** What a run publishes of one pair grows by that pair's own gap, call by call. */
  lemma RunGrows(b: Book, calls: seq<Call>, pair: Pair)
    requires calls != []
    ensures var front, call := calls[..|calls| - 1], calls[|calls| - 1];
            var a := AccountIn(AfterAll(b, front).pairs, pair);
            var gap := GapFrom(a, pair, call, b.clipped);
            && AfterAll(b, front).clipped == b.clipped
            && AccountIn(AfterAll(b, calls).pairs, pair) == AccountAfter(a, pair, call, b.clipped)
            && OfPair(AllPublished(b, calls), pair)
               == OfPair(AllPublished(b, front), pair) + Times(Mentions(call, pair), gap)
            && (gap.Some? ==> Mentions(call, pair) > 0)
  {
    var front, call := calls[..|calls| - 1], calls[|calls| - 1];
    ClippingStays(b, front);
    PairFollowsItsOwnSteps(AfterAll(b, front), call, pair);
    PublishedForPair(AfterAll(b, front), call, pair);
    OfPairAppend(AllPublished(b, front), Published(AfterAll(b, front), call), pair);
  }

  lemma {:induction false} ClippingStays(b: Book, calls: seq<Call>)
    ensures AfterAll(b, calls).clipped == b.clipped
    decreases |calls|
  {
    if calls != [] { ClippingStays(b, calls[..|calls| - 1]); }
  }

  /** A gap published once or more often. */
  predicate Copies(more: seq<Gap>, gap: Option<Gap>) {
    if gap.None? then more == [] else more != [] && forall i :: 0 <= i < |more| ==> more[i] == gap.value
  }

  lemma TimesCopies(n: nat, gap: Option<Gap>)
    requires gap.Some? ==> n > 0
    ensures Copies(Times(n, gap), gap) && (gap.Some? ==> |Times(n, gap)| == n)
  {
    if gap.Some? { TimesRepeat(n, gap); }
  }

  lemma LastGapStep(a: Account, gaps: seq<Gap>, pair: Pair, call: Call, clipped: Clipped, more: seq<Gap>)
    requires LastGapKept(a, gaps) && Copies(more, GapFrom(a, pair, call, clipped))
    ensures LastGapKept(AccountAfter(a, pair, call, clipped), gaps + more)
  {
    var all := gaps + more;
    assert more != [] ==> all[|all| - 1] == more[|more| - 1];
  }

  lemma DisjointStep(a: Account, gaps: seq<Gap>, pair: Pair, call: Call, clipped: Clipped, more: seq<Gap>)
    requires LastGapKept(a, gaps) && Copies(more, GapFrom(a, pair, call, clipped))
    ensures Disjoint(gaps + more) <==> Disjoint(gaps) && |more| <= 1
  {
    var all := gaps + more;
    assert forall i :: 0 <= i < |gaps| ==> all[i] == gaps[i];
    assert forall i :: 0 <= i < |more| ==> all[|gaps| + i] == more[i];
    if more != [] && gaps != [] && Disjoint(gaps) {
      forall i | 0 <= i < |gaps| ensures gaps[i].toMicros <= more[0].fromMicros {
        assert i == |gaps| - 1 || gaps[i].toMicros <= gaps[|gaps| - 1].fromMicros;
      }
    }
    if |more| > 1 { assert all[|gaps|] == all[|gaps| + 1] == more[0]; }
  }

  /** No call that leaves the pair a gap names it more than once. */
  predicate NamedOnce(b: Book, calls: seq<Call>, pair: Pair) {
    calls != [] ==>
      var front, call := calls[..|calls| - 1], calls[|calls| - 1];
      && NamedOnce(b, front, pair)
      && (GapFrom(AccountIn(AfterAll(b, front).pairs, pair), pair, call, b.clipped).Some? ==> Mentions(call, pair) <= 1)
  }

  /**
    Over every run of calls, losses and requests alike, each pair's gaps are non-empty and each starts at or after the last
    one's end, if and only if no call that leaves the pair a gap names it twice; and the ledger keeps the last one's end.
   */
  lemma {:induction false} GapsAreDisjoint(clipped: Clipped, calls: seq<Call>, pair: Pair)
    ensures Disjoint(OfPair(AllPublished(Fresh(clipped), calls), pair)) <==> NamedOnce(Fresh(clipped), calls, pair)
    ensures LastGapKept(AccountIn(AfterAll(Fresh(clipped), calls).pairs, pair), OfPair(AllPublished(Fresh(clipped), calls), pair))
    decreases |calls|
  {
    if calls != [] {
      var b, front, call := Fresh(clipped), calls[..|calls| - 1], calls[|calls| - 1];
      GapsAreDisjoint(clipped, front, pair);
      RunGrows(b, calls, pair);
      var a, gaps := AccountIn(AfterAll(b, front).pairs, pair), OfPair(AllPublished(b, front), pair);
      var gap := GapFrom(a, pair, call, clipped);
      TimesCopies(Mentions(call, pair), gap);
      DisjointStep(a, gaps, pair, call, clipped, Times(Mentions(call, pair), gap));
      LastGapStep(a, gaps, pair, call, clipped, Times(Mentions(call, pair), gap));
    }
  }

  // ---- receipts counted ------------------------------------------------------------------------------

  /** The calls that begin the window receipts are counted in: whatever first covers a pair, then every roll that is due. */
  function WindowBegun(calls: seq<Call>): Option<int> {
    if calls == [] then None
    else
      var before := WindowBegun(calls[..|calls| - 1]);
      match calls[|calls| - 1]
      case Known(_, at) => if before.None? then Some(at) else before
      case Received(_, at) => if before.None? then Some(at) else before
      case RollCounts(at, window) => if Due(before, at, window) then Some(at) else before
      case _ => before
  }

  predicate Due(begun: Option<int>, at: int, window: int) {
    begun.Some? && begun.value + window <= at
  }

  /** The receipts of a pair since the window began. */
  function ReceiptsInWindow(calls: seq<Call>, pair: Pair): nat {
    if calls == [] then 0
    else
      var before := ReceiptsInWindow(calls[..|calls| - 1], pair);
      match calls[|calls| - 1]
      case Received(p, _) => if p == pair then before + 1 else before
      case RollCounts(at, window) => if Due(WindowBegun(calls[..|calls| - 1]), at, window) then 0 else before
      case _ => before
  }

  lemma CountAfter(b: Book, call: Call, pair: Pair)
    ensures LedgerOf(After(b, call).pairs, pair).count ==
              match call
              case Received(p, _) => LedgerOf(b.pairs, pair).count + (if p == pair then 1 else 0)
              case RollCounts(at, window) => if Due(b.windowStarted, at, window) then 0 else LedgerOf(b.pairs, pair).count
              case _ => LedgerOf(b.pairs, pair).count
  {
    match call {
      case GapsFor(_, _, _) =>
        NotedKeys(b.pairs, Published(b, call), true);
        if pair in b.pairs { NotedForPair(b.pairs, Published(b, call), true, pair); }
      case AskedAgain(_, _) =>
        NotedKeys(b.pairs, Published(b, call), false);
        if pair in b.pairs { NotedForPair(b.pairs, Published(b, call), false, pair); }
      case _ =>
    }
  }

  /** Over every run a pair's count is its receipts since the window began, and the window is the one window of all pairs. */
  lemma {:induction false} CountsAreReceiptsInWindow(clipped: Clipped, calls: seq<Call>, pair: Pair)
    ensures LedgerOf(AfterAll(Fresh(clipped), calls).pairs, pair).count == ReceiptsInWindow(calls, pair)
    ensures AfterAll(Fresh(clipped), calls).windowStarted == WindowBegun(calls)
    decreases |calls|
  {
    if calls != [] {
      CountsAreReceiptsInWindow(clipped, calls[..|calls| - 1], pair);
      CountAfter(AfterAll(Fresh(clipped), calls[..|calls| - 1]), calls[|calls| - 1], pair);
    }
  }

  // ---- with a clock that never goes back -----------------------------------------------------------

  predicate InSomeGap(x: int, gaps: seq<Gap>) {
    exists i :: 0 <= i < |gaps| && gaps[i].fromMicros <= x < gaps[i].toMicros
  }

  /** From the last receipt to the last gap's end there is no moment no gap accounts for. */
  ghost predicate NoHole(a: Account, gaps: seq<Gap>) {
    a.lastRecv.Some? && a.gapped.Some? ==>
      forall x :: a.lastRecv.value <= x < a.gapped.value.endMicros ==> InSomeGap(x, gaps)
  }

  predicate NoMomentInside(moments: seq<int>, gaps: seq<Gap>) {
    forall i, k :: 0 <= i < |moments| && 0 <= k < |gaps| ==> !(gaps[k].fromMicros < moments[i] < gaps[k].toMicros)
  }

  /** The last receipt is the last moment covered and the latest, and none of this is later than now. */
  predicate UpTo(a: Account, moments: seq<int>, now: int) {
    && (a.lastRecv.Some? <==> moments != [])
    && (moments != [] ==> a.lastRecv.value == moments[|moments| - 1] <= now)
    && (forall i :: 0 <= i < |moments| ==> moments[i] <= a.lastRecv.value)
  }

  predicate GapsUpTo(gaps: seq<Gap>, now: int) {
    forall k :: 0 <= k < |gaps| ==> gaps[k].toMicros <= now
  }

  /** No gap ends after the one announced last. */
  predicate LastEndsLast(gaps: seq<Gap>) {
    gaps != [] ==> GapsUpTo(gaps, gaps[|gaps| - 1].toMicros)
  }

  lemma LastEndsLastStep(a: Account, gaps: seq<Gap>, pair: Pair, call: Call, clipped: Clipped, more: seq<Gap>)
    requires LastGapKept(a, gaps) && LastEndsLast(gaps) && Copies(more, GapFrom(a, pair, call, clipped))
    ensures LastEndsLast(gaps + more)
  {
    if more == [] {
      assert gaps + more == gaps;
    } else {
      assert (gaps + more)[|gaps + more| - 1] == more[|more| - 1] == GapFrom(a, pair, call, clipped).value;
    }
  }

  lemma UpToStep(a: Account, moments: seq<int>, pair: Pair, call: Call, clipped: Clipped)
    requires UpTo(a, moments, call.at)
    ensures UpTo(AccountAfter(a, pair, call, clipped), moments + MomentOf(moments != [], pair, call), call.at)
  {
    var moment, a' := MomentOf(moments != [], pair, call), AccountAfter(a, pair, call, clipped);
    if moment == [] {
      assert a'.lastRecv == a.lastRecv;
      assert moments + moment == moments;
    } else {
      assert moment == [call.at] && a'.lastRecv == Some(call.at);
    }
  }

  lemma MomentsStayOutside(moments: seq<int>, added: seq<int>, gaps: seq<Gap>, more: seq<Gap>, now: int)
    requires NoMomentInside(moments, gaps) && GapsUpTo(gaps, now) && GapsUpTo(more, now)
    requires forall i :: 0 <= i < |added| ==> added[i] == now
    requires forall i, k :: 0 <= i < |moments| && 0 <= k < |more| ==> moments[i] <= more[k].fromMicros
    ensures NoMomentInside(moments + added, gaps + more) && GapsUpTo(gaps + more, now)
  {
  }

  lemma MomentsStep(a: Account, moments: seq<int>, gaps: seq<Gap>, pair: Pair, call: Call, clipped: Clipped, more: seq<Gap>)
    requires LastGapKept(a, gaps) && UpTo(a, moments, call.at) && GapsUpTo(gaps, call.at)
    requires NoMomentInside(moments, gaps) && Copies(more, GapFrom(a, pair, call, clipped))
    ensures NoMomentInside(moments + MomentOf(moments != [], pair, call), gaps + more) && GapsUpTo(gaps + more, call.at)
  {
    var gap := GapFrom(a, pair, call, clipped);
    if gap.Some? {
      assert gap.value.toMicros == call.at && (a.lastRecv.Some? ==> a.lastRecv.value <= gap.value.fromMicros);
    }
    MomentsStayOutside(moments, MomentOf(moments != [], pair, call), gaps, more, call.at);
  }

  lemma HoleStep(a: Account, gaps: seq<Gap>, pair: Pair, call: Call, clipped: Clipped, more: seq<Gap>)
    requires LastGapKept(a, gaps) && NoHole(a, gaps) && (a.lastRecv.Some? ==> a.lastRecv.value <= call.at)
    requires GapsUpTo(gaps, call.at) && Copies(more, GapFrom(a, pair, call, clipped))
    ensures NoHole(AccountAfter(a, pair, call, clipped), gaps + more)
  {
    var gap, a' := GapFrom(a, pair, call, clipped), AccountAfter(a, pair, call, clipped);
    var gaps' := gaps + more;
    if a'.lastRecv.Some? && a'.gapped.Some? {
      forall x | a'.lastRecv.value <= x < a'.gapped.value.endMicros ensures InSomeGap(x, gaps') {
        if gap.Some? && gap.value.fromMicros <= x {
          assert gaps'[|gaps|] == more[0] == gap.value;
        } else {
          assert InSomeGap(x, gaps);
          var i :| 0 <= i < |gaps| && gaps[i].fromMicros <= x < gaps[i].toMicros;
          assert gaps'[i] == gaps[i];
        }
      }
    }
  }

  /** One call's step of all that the whole run keeps. */
  ghost predicate Accounted(a: Account, moments: seq<int>, gaps: seq<Gap>, now: int) {
    UpTo(a, moments, now) && GapsUpTo(gaps, now) && LastEndsLast(gaps) && NoMomentInside(moments, gaps) && NoHole(a, gaps)
  }

  lemma AccountedStep(a: Account, moments: seq<int>, gaps: seq<Gap>, before: int, pair: Pair, call: Call, clipped: Clipped, more: seq<Gap>)
    requires before <= call.at && LastGapKept(a, gaps) && Accounted(a, moments, gaps, before)
    requires Copies(more, GapFrom(a, pair, call, clipped))
    ensures Accounted(AccountAfter(a, pair, call, clipped), moments + MomentOf(moments != [], pair, call), gaps + more, call.at)
  {
    UpToStep(a, moments, pair, call, clipped);
    MomentsStep(a, moments, gaps, pair, call, clipped, more);
    HoleStep(a, gaps, pair, call, clipped, more);
    LastEndsLastStep(a, gaps, pair, call, clipped, more);
  }

  lemma {:induction false} AccountedThroughout(clipped: Clipped, calls: seq<Call>, pair: Pair, now: int)
    requires Clocked(calls) && (calls != [] ==> calls[|calls| - 1].at <= now)
    ensures Accounted(AccountIn(AfterAll(Fresh(clipped), calls).pairs, pair), Moments(calls, pair),
                      OfPair(AllPublished(Fresh(clipped), calls), pair), now)
    decreases |calls|
  {
    if calls != [] {
      var b, front, call := Fresh(clipped), calls[..|calls| - 1], calls[|calls| - 1];
      AccountedThroughout(clipped, front, pair, call.at);
      GapsAreDisjoint(clipped, front, pair);
      RunGrows(b, calls, pair);
      var a := AccountIn(AfterAll(b, front).pairs, pair);
      var gap := GapFrom(a, pair, call, clipped);
      TimesCopies(Mentions(call, pair), gap);
      AccountedStep(a, Moments(front, pair), OfPair(AllPublished(b, front), pair), call.at, pair, call, clipped,
                    Times(Mentions(call, pair), gap));
    }
  }

  /**
    Coverage never claimed, and never left unaccounted: no moment a pair was covered lies inside one of
    its gaps, and whenever its last gap ends after its last receipt, its gaps cover all that lies between.
   */
  lemma GapsLeaveNoHole(clipped: Clipped, calls: seq<Call>, pair: Pair)
    requires Clocked(calls)
    ensures NoMomentInside(Moments(calls, pair), OfPair(AllPublished(Fresh(clipped), calls), pair))
    ensures NoHole(AccountIn(AfterAll(Fresh(clipped), calls).pairs, pair), OfPair(AllPublished(Fresh(clipped), calls), pair))
    ensures calls != [] ==>
              UpTo(AccountIn(AfterAll(Fresh(clipped), calls).pairs, pair), Moments(calls, pair), calls[|calls| - 1].at)
  {
    AccountedThroughout(clipped, calls, pair, if calls == [] then 0 else calls[|calls| - 1].at);
  }

  // ---- what a loss must leave ------------------------------------------------------------------------

  /** A moment since the last one covered, and before the loss, that no gap accounts for. */
  predicate Unaccounted(x: int, covered: int, to: int, gaps: seq<Gap>) {
    covered <= x < to && !InSomeGap(x, gaps)
  }

  ghost predicate AnyUnaccounted(covered: int, to: int, gaps: seq<Gap>) {
    exists x :: Unaccounted(x, covered, to, gaps)
  }

  /** Every moment from the last one covered up to the loss lies in a gap; one is added exactly where some did not. */
  ghost predicate AccountedFor(before: seq<Gap>, gaps: seq<Gap>, covered: int, loss: Call, clipped: Clipped, gapped: Option<Gapped>)
    requires loss.GapsFor?
  {
    && before <= gaps
    && !AnyUnaccounted(covered, loss.at, gaps)
    && (before != gaps <==> AnyUnaccounted(covered, loss.at, before))
    && (before != gaps ==>
          && gaps[|gaps| - 1].toMicros == loss.at && gaps[|gaps| - 1].cause == loss.cause && gaps[|gaps| - 1].clipped == clipped
          && gapped == Some(Gapped(loss.at, loss.cause, true)))
  }

  lemma NothingAfterTheLast(gaps: seq<Gap>, x: int)
    requires LastEndsLast(gaps) && (gaps != [] ==> gaps[|gaps| - 1].toMicros <= x)
    ensures !InSomeGap(x, gaps)
  {
  }

  lemma StillInSomeGap(x: int, gaps: seq<Gap>, more: seq<Gap>)
    ensures InSomeGap(x, gaps) || InSomeGap(x, more) ==> InSomeGap(x, gaps + more)
  {
    if i :| 0 <= i < |gaps| && gaps[i].fromMicros <= x < gaps[i].toMicros { assert (gaps + more)[i] == gaps[i]; }
    if i :| 0 <= i < |more| && more[i].fromMicros <= x < more[i].toMicros { assert (gaps + more)[|gaps| + i] == more[i]; }
  }

  lemma LossLeaves(a: Account, gaps: seq<Gap>, pair: Pair, loss: Call, clipped: Clipped, more: seq<Gap>)
    requires loss.GapsFor? && pair in loss.pairs && LastGapKept(a, gaps) && LastEndsLast(gaps) && NoHole(a, gaps)
    requires a.lastRecv.Some? && Copies(more, GapFrom(a, pair, loss, clipped))
    ensures AccountedFor(gaps, gaps + more, a.lastRecv.value, loss, clipped, AccountAfter(a, pair, loss, clipped).gapped)
  {
    var gap, covered := GapFrom(a, pair, loss, clipped), a.lastRecv.value;
    if gap.Some? {
      assert (gaps + more)[|gaps + more| - 1] == more[|more| - 1] == gap.value;
      NothingAfterTheLast(gaps, gap.value.fromMicros);
      assert Unaccounted(gap.value.fromMicros, covered, loss.at, gaps);
    } else {
      assert gaps + more == gaps;
    }
    forall x | covered <= x < loss.at ensures InSomeGap(x, gaps + more) && (gap.None? ==> InSomeGap(x, gaps)) {
      if gap.Some? && gap.value.fromMicros <= x { assert more[0] == gap.value && InSomeGap(x, more); }
      StillInSomeGap(x, gaps, more);
    }
  }

  /**
    A loss leaves nothing unaccounted for: over every run with a clock that never goes back, once a call names a pair as
    lost, its gaps hold every moment from the last it was covered at up to the loss. A gap is added exactly when some such
    moment was in none, ends at the loss, with its cause, and is left open.
   */
  lemma LossIsAccountedFor(clipped: Clipped, calls: seq<Call>, pair: Pair)
    requires Clocked(calls) && calls != [] && calls[|calls| - 1].GapsFor? && pair in calls[|calls| - 1].pairs
    requires Moments(calls, pair) != []
    ensures var (moments, front, loss) := (Moments(calls, pair), calls[..|calls| - 1], calls[|calls| - 1]);
            AccountedFor(OfPair(AllPublished(Fresh(clipped), front), pair), OfPair(AllPublished(Fresh(clipped), calls), pair),
                         moments[|moments| - 1], loss, clipped, AccountIn(AfterAll(Fresh(clipped), calls).pairs, pair).gapped)
  {
    var b, front, loss := Fresh(clipped), calls[..|calls| - 1], calls[|calls| - 1];
    var a, gaps := AccountIn(AfterAll(b, front).pairs, pair), OfPair(AllPublished(b, front), pair);
    var gap := GapFrom(a, pair, loss, clipped);
    AccountedThroughout(clipped, front, pair, loss.at);
    GapsAreDisjoint(clipped, front, pair);
    RunGrows(b, calls, pair);
    TimesCopies(Mentions(loss, pair), gap);
    LossLeaves(a, gaps, pair, loss, clipped, Times(Mentions(loss, pair), gap));
  }

  lemma NothingOfTheUncovered(pair: Pair, call: Call, clipped: Clipped)
    requires MomentOf(false, pair, call) == []
    ensures AccountAfter(Account(None, None), pair, call, clipped) == Account(None, None)
    ensures GapFrom(Account(None, None), pair, call, clipped) == None
  {
  }

  /** A pair never covered is never said to have a gap, whatever the clock does. */
  lemma {:induction false} NeverCoveredHasNone(clipped: Clipped, calls: seq<Call>, pair: Pair)
    requires Moments(calls, pair) == []
    ensures AccountIn(AfterAll(Fresh(clipped), calls).pairs, pair) == Account(None, None)
    ensures OfPair(AllPublished(Fresh(clipped), calls), pair) == []
    decreases |calls|
  {
    if calls != [] {
      NeverCoveredHasNone(clipped, calls[..|calls| - 1], pair);
      NothingOfTheUncovered(pair, calls[|calls| - 1], clipped);
      RunGrows(Fresh(clipped), calls, pair);
    }
  }

  // ---- asked again -----------------------------------------------------------------------------------

  /** A gap open with nothing covered since is closed at exactly the moment the stream was asked, with its own cause. */
  lemma AskedAgainClosesTheGap(b: Book, named: seq<Pair>, at: int, pair: Pair)
    requires pair in named
    requires var a := AccountIn(b.pairs, pair);
             && a.gapped.Some? && a.gapped.value.open && a.gapped.value.endMicros < at
             && (a.lastRecv.Some? ==> a.lastRecv.value < a.gapped.value.endMicros)
    ensures var open := AccountIn(b.pairs, pair).gapped.value;
            && OfPair(Published(b, AskedAgain(named, at)), pair)
               == Times(multiset(named)[pair], Some(Gap(pair, open.endMicros, at, open.cause, b.clipped)))
            && AccountIn(After(b, AskedAgain(named, at)).pairs, pair).gapped == Some(Gapped(at, open.cause, false))
  {
    PublishedForPair(b, AskedAgain(named, at), pair);
    PairFollowsItsOwnSteps(b, AskedAgain(named, at), pair);
  }

  /** Asking leaves every pair asked with no gap open, tail or not. */
  lemma AskingLeavesNothingOpen(b: Book, named: seq<Pair>, at: int, pair: Pair)
    requires pair in named
    ensures var gapped := AccountIn(After(b, AskedAgain(named, at)).pairs, pair).gapped;
            gapped.Some? ==> !gapped.value.open
  {
    PairFollowsItsOwnSteps(b, AskedAgain(named, at), pair);
  }

  /** A pair neither a loss nor a request names is as it was, and nothing is said of it. */
  lemma UnnamedPairsAreLeft(b: Book, call: Call, pair: Pair)
    requires call.GapsFor? || call.AskedAgain?
    requires pair !in call.pairs
    ensures OfPair(Published(b, call), pair) == [] && LedgerOf(After(b, call).pairs, pair) == LedgerOf(b.pairs, pair)
  {
    PublishedForPair(b, call, pair);
    NotNamed(call.pairs, pair);
    NotedKeys(b.pairs, Published(b, call), call.GapsFor?);
    if pair in b.pairs { NotedForPair(b.pairs, Published(b, call), call.GapsFor?, pair); }
  }

  predicate NoLossOf(calls: seq<Call>, pair: Pair) {
    forall i :: 0 <= i < |calls| && calls[i].GapsFor? ==> pair !in calls[i].pairs
  }

  /** Once closed, a pair publishes nothing more, however often it is asked, until another loss names it. */
  lemma {:induction false} QuietUntilTheNextLoss(b: Book, calls: seq<Call>, pair: Pair)
    requires NoLossOf(calls, pair)
    requires var gapped := AccountIn(b.pairs, pair).gapped; gapped.Some? ==> !gapped.value.open
    ensures OfPair(AllPublished(b, calls), pair) == []
    ensures AccountIn(AfterAll(b, calls).pairs, pair).gapped == AccountIn(b.pairs, pair).gapped
    decreases |calls|
  {
    if calls != [] {
      QuietUntilTheNextLoss(b, calls[..|calls| - 1], pair);
      RunGrows(b, calls, pair);
    }
  }

  /** A pair that a loss or a request names twice has its gap published twice: naming it once is what keeps its gaps disjoint. */
  lemma GapPublishesPerMention(b: Book, call: Call, pair: Pair)
    requires GapFrom(AccountIn(b.pairs, pair), pair, call, b.clipped).Some?
    ensures |OfPair(Published(b, call), pair)| == Mentions(call, pair)
    ensures Disjoint(OfPair(Published(b, call), pair)) <==> Mentions(call, pair) <= 1
  {
    var gap := GapFrom(AccountIn(b.pairs, pair), pair, call, b.clipped);
    PublishedForPair(b, call, pair);
    TimesRepeat(Mentions(call, pair), gap);
    var gaps := Times(Mentions(call, pair), gap);
    if Mentions(call, pair) > 1 { assert gaps[0] == gaps[1] == gap.value; }
  }
}
