/** The one path: record the bytes, read them into events, emit the events; and the same path over what was recorded. */
module Ingest {
  import opened Sorting
  import opened Text

  datatype Result<T> = Ok(value: T) | Err(error: string)

  // ---- payloads and events --------------------------------------------------------------------

  datatype Origin = Streamed | Fetched | Generated

  /** Where a payload is recorded. */
  datatype Place = OfVenue(venue: string) | OfMarket(market: string) | OfAccount(venue: string, account: string, fingerprint: string) {
    function Value(): string {
      match this case OfVenue(v) => v case OfMarket(m) => m case OfAccount(v, _, _) => v
    }
  }

  datatype Payload = Payload(seqNo: nat, recvMicros: int, place: Place, channel: string, kind: string, symbol: Option<string>,
                             origin: Origin, bytes: string)

  datatype Event = Unparsed(channel: string, archiveSeq: nat, error: string) | Other(kind: string, content: string) {
    function Kind(): string {
      match this case Unparsed(_, _, _) => "unparsed" case Other(kind, _) => kind
    }
  }

  datatype Address = AtVenue(venue: string, ticker: string) | AtAccount(venue: string, account: string) | AtMarket(market: string)

  datatype Envelope = Envelope(address: Address, seqNo: nat, atMicros: Option<int>, recvMicros: int, event: Event) {
    function Stamped(seqNo: nat): Envelope {
      this.(seqNo := seqNo)
    }

    function Ticker(): Option<string> {
      if address.AtVenue? then Some(address.ticker) else None
    }
  }

  datatype Failure = Failure(seqNo: nat, recvMicros: int, venue: string, account: Option<Place>, channel: string, kind: string, error: string)

  /** A venue's adapter, a panic in it already an error, beside the encoding generated events are stored in. */
  datatype Adapter = Adapter(venue: string, normalise: Payload -> Result<seq<Envelope>>,
                             encode: Envelope -> string, decode: string -> Result<Envelope>)

  // ---- making a channel addressable -----------------------------------------------------------

  const MAX_TOKEN: nat := 64

  predicate TokenChar(c: char) {
    'a' <= c <= 'z' || 'A' <= c <= 'Z' || '0' <= c <= '9' || c == '_' || c == '-'
  }

  predicate IsTicker(s: string) {
    0 < |s| <= MAX_TOKEN && forall i :: 0 <= i < |s| ==> TokenChar(s[i])
  }

  /** The characters a ticker may hold, by code point: digits, letters, the underscore and the hyphen. */
  lemma TokenCharsAre(c: char)
    ensures var code := c as int;
            TokenChar(c) <==> 48 <= code <= 57 || 65 <= code <= 90 || 97 <= code <= 122 || code == 95 || code == 45
  {
  }

  function Sanitise(channel: string): string {
    SanitiseTo(channel, MAX_TOKEN)
  }

  function SanitiseTo(channel: string, left: nat): (s: string)
    ensures |s| == if |channel| < left then |channel| else left
    ensures forall i :: 0 <= i < |s| ==> TokenChar(s[i]) && s[i] == if TokenChar(channel[i]) then channel[i] else '-'
  {
    if channel == "" || left == 0 then ""
    else [if TokenChar(channel[0]) then channel[0] else '-'] + SanitiseTo(channel[1..], left - 1)
  }

  // ---- what one payload says ----------------------------------------------------------------------

  /** The origin of the bytes alone decides how they are read. */
  function Interpret(a: Adapter, p: Payload): Result<seq<Envelope>> {
    if p.origin.Generated? then
      match a.decode(p.bytes) case Ok(e) => Ok([e]) case Err(error) => Err("a generated payload would not decode: " + error)
    else a.normalise(p)
  }

  function UnparsedOf(a: Adapter, p: Payload, error: string): seq<Envelope> {
    var ticker := if p.symbol.Some? then p.symbol.value else Sanitise(p.channel);
    if !IsTicker(ticker) then []
    else [Envelope(AtVenue(a.venue, ticker), 0, None, p.recvMicros, Unparsed(p.channel, p.seqNo, error)).Stamped(p.seqNo)]
  }

  function StampedEach(events: seq<Envelope>, seqNo: nat): seq<Envelope> {
    seq(|events|, i requires 0 <= i < |events| => events[i].Stamped(seqNo))
  }

  /** The events one payload is emitted as, whoever reads it. */
  function EventsOf(a: Adapter, p: Payload): seq<Envelope> {
    match Interpret(a, p)
    case Ok(events) => StampedEach(events, p.seqNo)
    case Err(error) => UnparsedOf(a, p, error)
  }

  function FailureOf(p: Payload, error: string): Failure {
    Failure(p.seqNo, p.recvMicros, p.place.Value(), if p.place.OfAccount? then Some(p.place) else None, p.channel, p.kind, error)
  }

  // ---- the record and the sink as values --------------------------------------------------------------

  /** What became of a commit: a failure may come before or after the bytes were stored. */
  datatype Commit = Stored | Lost | StoredThenFailed

  datatype State = State(nextSeq: nat, durable: seq<Payload>, buffered: seq<Payload>, failures: seq<Failure>, attempts: seq<Envelope>)

  /** A stream's bytes wait for the flush; fetched and generated ones are durable at once. */
  function Appended(s: State, p: Payload, commit: Commit): State {
    if p.origin.Streamed? then s.(buffered := s.buffered + [p])
    else if commit.Lost? then s
    else s.(durable := s.durable + [p])
  }

  predicate AppendFails(p: Payload, commit: Commit) {
    !p.origin.Streamed? && !commit.Stored?
  }

  function Read(s: State, a: Adapter, p: Payload, replaying: bool): State {
    s.(attempts := s.attempts + EventsOf(a, p),
       failures := if Interpret(a, p).Err? && !replaying then s.failures + [FailureOf(p, Interpret(a, p).error)] else s.failures)
  }

  function OnePath(s: State, a: Adapter, p: Payload, replaying: bool, commit: Commit): State {
    if replaying then Read(s, a, p, true)
    else
      var numbered := p.(seqNo := s.nextSeq);
      var recorded := Appended(s.(nextSeq := s.nextSeq + 1), numbered, commit);
      if AppendFails(numbered, commit) then recorded else Read(recorded, a, numbered, false)
  }

  function GeneratedPayload(a: Adapter, place: Place, e: Envelope): Payload {
    Payload(e.seqNo, e.recvMicros, place, e.event.Kind(), e.event.Kind(), e.Ticker(), Generated, a.encode(e))
  }

  function RecordGenerated(s: State, a: Adapter, place: Place, e: Envelope, commit: Commit): State {
    var stamped := e.Stamped(s.nextSeq);
    var p := GeneratedPayload(a, place, stamped);
    var recorded := Appended(s.(nextSeq := s.nextSeq + 1), p, commit);
    if AppendFails(p, commit) then recorded else recorded.(attempts := recorded.attempts + [stamped])
  }

  function CountTaken(sink: nat -> bool, n: nat): nat {
    if n == 0 then 0 else CountTaken(sink, n - 1) + if sink(n - 1) then 1 else 0
  }

  function VenueTimes(events: seq<Envelope>): seq<(string, int)> {
    if events == [] then []
    else
      var last := events[|events| - 1];
      VenueTimes(events[..|events| - 1])
        + if last.atMicros.Some? && last.Ticker().Some? then [(last.Ticker().value, last.atMicros.value)] else []
  }

  datatype Ingested = Ingested(seqNo: nat, emitted: nat, unparsed: bool, emitFailed: bool, venueTimes: seq<(string, int)>)

  /** What is reported of a payload read: how many events the sink took, and whether it refused any. */
  predicate ReportsOf(ingested: Ingested, a: Adapter, p: Payload, sink: nat -> bool) {
    && ingested.seqNo == p.seqNo && ingested.unparsed == Interpret(a, p).Err?
    && ingested.emitted == CountTaken(sink, |EventsOf(a, p)|)
    && (ingested.emitFailed <==> ingested.emitted < |EventsOf(a, p)|)
    && ingested.venueTimes == if ingested.unparsed then [] else VenueTimes(EventsOf(a, p))
  }

  /** What the sink took is the offers it did not refuse, and there are as many as offers exactly when it refused none. */
  lemma {:induction false} TakenAreNotRefused(sink: nat -> bool, n: nat)
    ensures CountTaken(sink, n) == |set i: nat | i < n && sink(i)|
    ensures CountTaken(sink, n) <= n && (CountTaken(sink, n) == n <==> forall i: nat :: i < n ==> sink(i))
    decreases n
  {
    if n > 0 {
      TakenAreNotRefused(sink, n - 1);
      var before := set i: nat | i < n - 1 && sink(i);
      assert (set i: nat | i < n && sink(i)) == if sink(n - 1) then before + {n - 1} else before;
      assert (forall i: nat :: i < n ==> sink(i)) <==> sink(n - 1) && forall i: nat :: i < n - 1 ==> sink(i);
    }
  }

  /** The venue's own times are those of the events that have one and a ticker. */
  lemma {:induction false} VenueTimesAre(events: seq<Envelope>, ticker: string, at: int)
    ensures (ticker, at) in VenueTimes(events) <==>
              exists i :: 0 <= i < |events| && events[i].atMicros == Some(at) && events[i].Ticker() == Some(ticker)
    decreases |events|
  {
    if events != [] {
      var front := events[..|events| - 1];
      VenueTimesAre(front, ticker, at);
      if i :| 0 <= i < |events| && events[i].atMicros == Some(at) && events[i].Ticker() == Some(ticker) {
        assert i < |front| ==> front[i] == events[i];
      }
    }
  }

  // ---- the path as a process runs it ---------------------------------------------------------------------

  class Ingestion {
    var nextSeq: nat
    var durable: seq<Payload>
    var buffered: seq<Payload>
    var failures: seq<Failure>
    /** Every event handed to the sink, taken or not. */
    var attempts: seq<Envelope>
    const adapter: Adapter

    function Now(): State
      reads this
    {
      State(nextSeq, durable, buffered, failures, attempts)
    }

    constructor (adapter: Adapter, firstSeq: nat)
      ensures Now() == State(firstSeq, [], [], [], []) && this.adapter == adapter
    {
      this.adapter := adapter;
      nextSeq, durable, buffered, failures, attempts := firstSeq, [], [], [], [];
    }

    method Append(p: Payload, commit: Commit) returns (failed: bool)
      modifies this
      ensures Now() == Appended(old(Now()), p, commit) && failed == AppendFails(p, commit)
    {
      match p.origin {
        case Streamed =>
          buffered := buffered + [p];
          return false;
        case _ =>
          if !commit.Lost? { durable := durable + [p]; }
          return !commit.Stored?;
      }
    }

    /** Every event carries the sequence of its payload and is offered to the sink, whose refusal stops nothing. */
    method EmitEach(events: seq<Envelope>, seqNo: nat, sink: nat -> bool)
      returns (emitted: nat, emitFailed: bool, venueTimes: seq<(string, int)>)
      modifies this`attempts
      ensures attempts == old(attempts) + StampedEach(events, seqNo)
      ensures emitted == CountTaken(sink, |events|) && (emitFailed <==> emitted < |events|)
      ensures venueTimes == VenueTimes(StampedEach(events, seqNo))
    {
      emitted, emitFailed, venueTimes := 0, false, [];
      var i := 0;
      while i < |events|
        invariant 0 <= i <= |events| && emitted == CountTaken(sink, i) <= i && (emitFailed <==> emitted < i)
        invariant attempts == old(attempts) + StampedEach(events, seqNo)[..i]
        invariant venueTimes == VenueTimes(StampedEach(events, seqNo)[..i])
      {
        ghost var stamped := StampedEach(events, seqNo);
        assert stamped[..i + 1] == stamped[..i] + [stamped[i]];
        var envelope := events[i].Stamped(seqNo);
        if envelope.atMicros.Some? && envelope.Ticker().Some? {
          venueTimes := venueTimes + [(envelope.Ticker().value, envelope.atMicros.value)];
        }
        attempts := attempts + [envelope];
        if sink(i) { emitted := emitted + 1; } else { emitFailed := true; }
        i := i + 1;
      }
      assert StampedEach(events, seqNo)[..i] == StampedEach(events, seqNo);
    }

    method EmitUnparsed(p: Payload, error: string, sink: nat -> bool) returns (emitted: nat, emitFailed: bool)
      modifies this`attempts
      ensures attempts == old(attempts) + UnparsedOf(adapter, p, error)
      ensures emitted == CountTaken(sink, |UnparsedOf(adapter, p, error)|)
      ensures emitFailed <==> emitted < |UnparsedOf(adapter, p, error)|
    {
      var ticker := if p.symbol.Some? then p.symbol.value else Sanitise(p.channel);
      if !IsTicker(ticker) { return 0, false; }
      var envelope := Envelope(AtVenue(adapter.venue, ticker), 0, None, p.recvMicros, Unparsed(p.channel, p.seqNo, error));
      attempts := attempts + [envelope.Stamped(p.seqNo)];
      assert CountTaken(sink, 0) == 0 && CountTaken(sink, 1) == if sink(0) then 1 else 0;
      return if sink(0) then 1 else 0, !sink(0);
    }

    /** Interpret what is recorded and hand it on. */
    method ReadOn(p: Payload, replaying: bool, sink: nat -> bool) returns (ingested: Ingested)
      modifies this
      ensures Now() == Read(old(Now()), adapter, p, replaying)
      ensures ReportsOf(ingested, adapter, p, sink)
    {
      match Interpret(adapter, p) {
        case Ok(events) =>
          var emitted, emitFailed, venueTimes := EmitEach(events, p.seqNo, sink);
          return Ingested(p.seqNo, emitted, false, emitFailed, venueTimes);
        case Err(error) =>
          if !replaying { failures := failures + [FailureOf(p, error)]; }
          var emitted, emitFailed := EmitUnparsed(p, error, sink);
          return Ingested(p.seqNo, emitted, true, emitFailed, []);
      }
    }

    /** Archive, normalise, emit; replaying is the same without the first. */
    method TakePayload(payload: Payload, replaying: bool, commit: Commit, sink: nat -> bool) returns (ingested: Option<Ingested>)
      modifies this
      ensures Now() == OnePath(old(Now()), adapter, payload, replaying, commit)
      ensures ingested.None? <==> !replaying && AppendFails(payload, commit)
      ensures ingested.Some? ==> ReportsOf(ingested.value, adapter, if replaying then payload else payload.(seqNo := old(nextSeq)), sink)
    {
      var p := payload;
      if !replaying {
        p := p.(seqNo := nextSeq);
        nextSeq := nextSeq + 1;
        var failed := Append(p, commit);
        if failed { return None; }
      }
      var done := ReadOn(p, replaying, sink);
      return Some(done);
    }

    /** Its row is stored first, and only then is the event offered to the sink. */
    method TakeGenerated(place: Place, e: Envelope, commit: Commit, sink: nat -> bool) returns (ingested: Option<Ingested>)
      modifies this
      ensures Now() == RecordGenerated(old(Now()), adapter, place, e, commit)
      ensures ingested.None? <==> !commit.Stored?
      ensures ingested.Some? ==> ingested.value.seqNo == old(nextSeq) && ingested.value.emitFailed == !sink(0)
    {
      var stamped := e.Stamped(nextSeq);
      nextSeq := nextSeq + 1;
      var failed := Append(GeneratedPayload(adapter, place, stamped), commit);
      if failed { return None; }
      attempts := attempts + [stamped];
      return Some(Ingested(stamped.seqNo, if sink(0) then 1 else 0, false, !sink(0), []));
    }

    /** Where a flush stops, everything from there on stays buffered: also the group its failing commit may have stored. */
    method Flush(written: seq<Payload>, stuck: seq<Payload>, unwritten: seq<Payload>)
      requires Flushable(Now(), written, stuck, unwritten)
      modifies this
      ensures Now() == Flushed(old(Now()), written, stuck, unwritten)
    {
      durable := durable + written + stuck;
      buffered := unwritten;
    }

    method ReplayOne(p: Payload, sink: nat -> bool)
      modifies this
      ensures Now() == old(Now()).(attempts := old(attempts) + EventsOf(adapter, p))
    {
      ReplayingOnlyEmits(Now(), adapter, p, Stored);
      var _ := TakePayload(p, true, Stored, sink);
    }

    /** Replay a record through the same path. */
    method ReplayAll(rows: seq<Payload>, sink: nat -> bool)
      modifies this
      ensures Now() == old(Now()).(attempts := old(attempts) + Emitted(adapter, rows))
    {
      var i := 0;
      while i < |rows|
        invariant 0 <= i <= |rows| && attempts == old(attempts) + Emitted(adapter, rows[..i])
        invariant nextSeq == old(nextSeq) && durable == old(durable) && buffered == old(buffered) && failures == old(failures)
      {
        OneMoreEmitted(adapter, rows, i);
        ghost var before, said := Emitted(adapter, rows[..i]), EventsOf(adapter, rows[i]);
        ReplayOne(rows[i], sink);
        assert old(attempts) + before + said == old(attempts) + (before + said);
        i := i + 1;
      }
      assert rows[..i] == rows;
    }
  }

  /** Every payload buffered is written or handed back; what a failing commit had stored is handed back as well. */
  predicate Flushable(s: State, written: seq<Payload>, stuck: seq<Payload>, unwritten: seq<Payload>) {
    multiset(written) + multiset(unwritten) == multiset(s.buffered) && multiset(stuck) <= multiset(unwritten)
  }

  function Flushed(s: State, written: seq<Payload>, stuck: seq<Payload>, unwritten: seq<Payload>): State {
    s.(durable := s.durable + written + stuck, buffered := unwritten)
  }

  /** The events payloads are emitted as, in their order. */
  function Emitted(a: Adapter, rows: seq<Payload>): seq<Envelope> {
    Flat(SaidBy(a), rows)
  }

  function SaidBy(a: Adapter): Payload -> seq<Envelope> {
    (p: Payload) => EventsOf(a, p)
  }

  lemma OneMoreEmitted(a: Adapter, rows: seq<Payload>, i: nat)
    requires i < |rows|
    ensures Emitted(a, rows[..i + 1]) == Emitted(a, rows[..i]) + EventsOf(a, rows[i])
  {
    assert rows[..i + 1] == rows[..i] + [rows[i]];
    FlatAppend(SaidBy(a), rows[..i], rows[i]);
  }

  /** Replaying records nothing: no bytes, no failure and no sequence. */
  lemma ReplayingOnlyEmits(s: State, a: Adapter, p: Payload, commit: Commit)
    ensures OnePath(s, a, p, true, commit) == s.(attempts := s.attempts + EventsOf(a, p))
  {
  }

  // ---- every run of calls ----------------------------------------------------------------------------------

  datatype Call =
    | Arrived(payload: Payload, commit: Commit)
    | Made(place: Place, envelope: Envelope, commit: Commit)
    | FlushTo(written: seq<Payload>, stuck: seq<Payload>, unwritten: seq<Payload>)

  function After(s: State, a: Adapter, call: Call): State {
    match call
    case Arrived(p, commit) => OnePath(s, a, p, false, commit)
    case Made(place, e, commit) => RecordGenerated(s, a, place, e, commit)
    case FlushTo(written, stuck, unwritten) =>
      if Flushable(s, written, stuck, unwritten) then Flushed(s, written, stuck, unwritten) else s
  }

  function Live(a: Adapter, first: nat, calls: seq<Call>): State {
    if calls == [] then State(first, [], [], [], []) else After(Live(a, first, calls[..|calls| - 1]), a, calls[|calls| - 1])
  }

  /** A payload in the record, and whether live capture went on to emit it. */
  datatype Kept = Kept(payload: Payload, announced: bool)

  function NumberedBy(s: State, a: Adapter, call: Call): Payload
    requires !call.FlushTo?
  {
    match call
    case Arrived(p, _) => p.(seqNo := s.nextSeq)
    case Made(place, e, _) => GeneratedPayload(a, place, e.Stamped(s.nextSeq))
  }

  function KeptBy(s: State, a: Adapter, call: Call): seq<Kept> {
    if call.FlushTo? then []
    else
      var p := NumberedBy(s, a, call);
      if p.origin.Streamed? || call.commit.Stored? then [Kept(p, true)]
      else if call.commit.StoredThenFailed? then [Kept(p, false)]
      else []
  }

  function Record(a: Adapter, first: nat, calls: seq<Call>): seq<Kept> {
    if calls == [] then []
    else Record(a, first, calls[..|calls| - 1]) + KeptBy(Live(a, first, calls[..|calls| - 1]), a, calls[|calls| - 1])
  }

  /** What one call stores a second time. */
  function AgainBy(s: State, call: Call): seq<Payload> {
    if call.FlushTo? && Flushable(s, call.written, call.stuck, call.unwritten) then call.stuck else []
  }

  /** The payloads flushes stored and then handed back, to be stored again. */
  function Again(a: Adapter, first: nat, calls: seq<Call>): seq<Payload> {
    if calls == [] then []
    else Again(a, first, calls[..|calls| - 1]) + AgainBy(Live(a, first, calls[..|calls| - 1]), calls[|calls| - 1])
  }

  function Payloads(kept: seq<Kept>): (ps: seq<Payload>)
    ensures |ps| == |kept| && forall i :: 0 <= i < |ps| ==> ps[i] == kept[i].payload
  {
    if kept == [] then [] else Payloads(kept[..|kept| - 1]) + [kept[|kept| - 1].payload]
  }

  function Announced(a: Adapter, kept: seq<Kept>): seq<Envelope> {
    if kept == [] then []
    else
      var last := kept[|kept| - 1];
      Announced(a, kept[..|kept| - 1]) + if last.announced then EventsOf(a, last.payload) else []
  }

  /** What an adapter stores of a generated event it reads back as that event. */
  ghost predicate RoundTrips(a: Adapter) {
    forall e :: a.decode(a.encode(e)) == Ok(e)
  }

  predicate InSequence(kept: seq<Kept>, nextSeq: nat) {
    && (forall i, j :: 0 <= i < j < |kept| ==> kept[i].payload.seqNo < kept[j].payload.seqNo)
    && (forall i :: 0 <= i < |kept| ==> kept[i].payload.seqNo < nextSeq)
  }

  /** Each payload kept is held once, and once more for each time a flush stored it and handed it back. */
  predicate RecordHolds(s: State, kept: seq<Kept>, again: seq<Payload>) {
    && multiset(s.durable) + multiset(s.buffered) == multiset(Payloads(kept)) + multiset(again)
    && forall p :: p in again ==> p in Payloads(kept)
  }

  lemma GeneratedSaysItself(a: Adapter, place: Place, e: Envelope)
    requires RoundTrips(a)
    ensures EventsOf(a, GeneratedPayload(a, place, e)) == [e]
  {
    assert a.decode(a.encode(e)) == Ok(e);
    assert StampedEach([e], e.seqNo) == [e];
  }

  lemma PayloadsAppend(kept: seq<Kept>, k: Kept)
    ensures Payloads(kept + [k]) == Payloads(kept) + [k.payload]
  {
    assert (kept + [k])[..|kept|] == kept;
  }

  lemma AnnouncedAppend(a: Adapter, kept: seq<Kept>, k: Kept)
    ensures Announced(a, kept + [k]) == Announced(a, kept) + if k.announced then EventsOf(a, k.payload) else []
  {
    assert (kept + [k])[..|kept|] == kept;
  }

  lemma SequenceGrows(kept: seq<Kept>, nextSeq: nat, k: Kept)
    requires InSequence(kept, nextSeq) && k.payload.seqNo == nextSeq
    ensures InSequence(kept + [k], nextSeq + 1)
  {
    var more := kept + [k];
    forall i, j | 0 <= i < j < |more| ensures more[i].payload.seqNo < more[j].payload.seqNo {
      assert more[i] == kept[i] && (j < |kept| ==> more[j] == kept[j]);
    }
  }

  function SaidOf(a: Adapter, kept: seq<Kept>): seq<Envelope> {
    if kept != [] && kept[0].announced then EventsOf(a, kept[0].payload) else []
  }

  lemma ArrivedAttempts(s: State, a: Adapter, p: Payload, commit: Commit)
    ensures After(s, a, Arrived(p, commit)).attempts == s.attempts + SaidOf(a, KeptBy(s, a, Arrived(p, commit)))
  {
  }

  lemma MadeAttempts(s: State, a: Adapter, place: Place, e: Envelope, commit: Commit)
    requires RoundTrips(a)
    ensures After(s, a, Made(place, e, commit)).attempts == s.attempts + SaidOf(a, KeptBy(s, a, Made(place, e, commit)))
  {
    GeneratedSaysItself(a, place, e.Stamped(s.nextSeq));
  }

  lemma AttemptsAfter(s: State, a: Adapter, call: Call)
    requires RoundTrips(a)
    ensures After(s, a, call).attempts == s.attempts + SaidOf(a, KeptBy(s, a, call))
  {
    match call {
      case Arrived(p, commit) => ArrivedAttempts(s, a, p, commit);
      case Made(place, e, commit) => MadeAttempts(s, a, place, e, commit);
      case FlushTo(_, _, _) =>
    }
  }

  lemma RecordAfter(s: State, a: Adapter, call: Call)
    requires !call.FlushTo?
    ensures var after, kept := After(s, a, call), KeptBy(s, a, call);
            && after.nextSeq == s.nextSeq + 1
            && (kept == [] ==> after.durable == s.durable && after.buffered == s.buffered)
            && (kept != [] ==> kept == [kept[0]] && kept[0].payload == NumberedBy(s, a, call) && kept[0].payload.seqNo == s.nextSeq)
            && (kept != [] ==> || (after.durable == s.durable + [kept[0].payload] && after.buffered == s.buffered)
                               || (after.durable == s.durable && after.buffered == s.buffered + [kept[0].payload]))
  {
  }

  ghost predicate Tracked(s: State, a: Adapter, kept: seq<Kept>, again: seq<Payload>) {
    InSequence(kept, s.nextSeq) && RecordHolds(s, kept, again) && s.attempts == Announced(a, kept)
  }

  lemma TrackedGrows(s: State, after: State, a: Adapter, kept: seq<Kept>, again: seq<Payload>, k: Kept)
    requires Tracked(s, a, kept, again) && k.payload.seqNo == s.nextSeq && after.nextSeq == s.nextSeq + 1
    requires (after.durable == s.durable + [k.payload] && after.buffered == s.buffered)
          || (after.durable == s.durable && after.buffered == s.buffered + [k.payload])
    requires after.attempts == s.attempts + if k.announced then EventsOf(a, k.payload) else []
    ensures Tracked(after, a, kept + [k], again)
  {
    AnnouncedAppend(a, kept, k);
    SequenceGrows(kept, s.nextSeq, k);
    OneMoreHeld(s, after, kept, again, k);
  }

  lemma HeldIsKept(s: State, kept: seq<Kept>, again: seq<Payload>, p: Payload)
    requires RecordHolds(s, kept, again) && (p in s.durable || p in s.buffered)
    ensures p in Payloads(kept)
  {
    assert p in multiset(s.durable) + multiset(s.buffered);
    assert p in multiset(Payloads(kept)) + multiset(again);
  }

  lemma TrackedFlush(s: State, a: Adapter, kept: seq<Kept>, again: seq<Payload>,
                     written: seq<Payload>, stuck: seq<Payload>, unwritten: seq<Payload>)
    requires Tracked(s, a, kept, again) && Flushable(s, written, stuck, unwritten)
    ensures Tracked(Flushed(s, written, stuck, unwritten), a, kept, again + stuck)
  {
    var d, w, t, u := multiset(s.durable), multiset(written), multiset(stuck), multiset(unwritten);
    assert multiset(s.durable + written + stuck) == d + w + t;
    assert multiset(again + stuck) == multiset(again) + t;
    assert (d + w + t) + u == (d + (w + u)) + t;
    forall p | p in again + stuck ensures p in Payloads(kept) {
      if p in stuck {
        assert p in t && p in u && p in w + u;
        HeldIsKept(s, kept, again, p);
      }
    }
  }

  lemma TrackedStays(s: State, after: State, a: Adapter, kept: seq<Kept>, again: seq<Payload>)
    requires Tracked(s, a, kept, again) && s.nextSeq <= after.nextSeq && after.attempts == s.attempts
    requires after.durable == s.durable && after.buffered == s.buffered
    ensures Tracked(after, a, kept, again)
  {
  }

  /** One payload numbered, stored or not, and read or not; or one flush. */
  lemma CallKeeps(s: State, a: Adapter, call: Call, kept: seq<Kept>, again: seq<Payload>)
    requires RoundTrips(a) && Tracked(s, a, kept, again)
    ensures Tracked(After(s, a, call), a, kept + KeptBy(s, a, call), again + AgainBy(s, call))
  {
    var after, more := After(s, a, call), KeptBy(s, a, call);
    AttemptsAfter(s, a, call);
    assert kept + [] == kept && again + [] == again;
    if call.FlushTo? {
      if Flushable(s, call.written, call.stuck, call.unwritten) {
        TrackedFlush(s, a, kept, again, call.written, call.stuck, call.unwritten);
      }
    } else {
      RecordAfter(s, a, call);
      if more == [] {
        TrackedStays(s, after, a, kept, again);
      } else {
        TrackedGrows(s, after, a, kept, again, more[0]);
      }
    }
  }

  lemma OneMoreHeld(s: State, after: State, kept: seq<Kept>, again: seq<Payload>, k: Kept)
    requires RecordHolds(s, kept, again)
    requires (after.durable == s.durable + [k.payload] && after.buffered == s.buffered)
          || (after.durable == s.durable && after.buffered == s.buffered + [k.payload])
    ensures RecordHolds(after, kept + [k], again)
  {
    PayloadsAppend(kept, k);
    var d, b, ps, x := multiset(s.durable), multiset(s.buffered), multiset(Payloads(kept)), multiset{k.payload};
    assert multiset(Payloads(kept) + [k.payload]) == ps + x;
    assert multiset(s.durable + [k.payload]) == d + x && multiset(s.buffered + [k.payload]) == b + x;
    assert (d + x) + b == (d + b) + x && d + (b + x) == (d + b) + x;
    assert (ps + multiset(again)) + x == (ps + x) + multiset(again);
  }

  /**
    Over every run of calls the record holds each stored payload, in rising sequence, once, and once more for each
    flush that stored it and handed it back; and what was attempted is what the announced ones say.
   */
  lemma {:induction false} RecordIsKept(a: Adapter, first: nat, calls: seq<Call>)
    requires RoundTrips(a)
    ensures Tracked(Live(a, first, calls), a, Record(a, first, calls), Again(a, first, calls))
    decreases |calls|
  {
    if calls != [] {
      var front := calls[..|calls| - 1];
      RecordIsKept(a, first, front);
      CallKeeps(Live(a, first, front), a, calls[|calls| - 1], Record(a, first, front), Again(a, first, front));
    }
  }

  // ---- replay repeats live ------------------------------------------------------------------------------------------

  /** The order a replay yields a record in. */
  predicate RecordLe(a: Payload, b: Payload) {
    a.recvMicros < b.recvMicros || (a.recvMicros == b.recvMicros && a.seqNo <= b.seqNo)
  }

  predicate ReceiptsRise(ps: seq<Payload>) {
    forall i, j :: 0 <= i < j < |ps| ==> ps[i].recvMicros <= ps[j].recvMicros
  }

  lemma RecordLeIsTotal()
    ensures TotalOrder(RecordLe)
  {
  }

  lemma CaptureOrderSorts(kept: seq<Kept>, nextSeq: nat)
    requires InSequence(kept, nextSeq) && ReceiptsRise(Payloads(kept))
    ensures Sorted(RecordLe, Payloads(kept))
  {
    var ps := Payloads(kept);
    forall i, j | 0 <= i < j < |ps| ensures RecordLe(ps[i], ps[j]) {
      assert kept[i].payload.seqNo < kept[j].payload.seqNo;
    }
  }

  /** A record holding each payload once replays in the order it was captured in exactly when its receipts never go back. */
  lemma ReplayOrderIsCaptureOrder(kept: seq<Kept>, nextSeq: nat, durable: seq<Payload>)
    requires InSequence(kept, nextSeq) && multiset(durable) == multiset(Payloads(kept))
    ensures SortBy(RecordLe, durable) == Payloads(kept) <==> ReceiptsRise(Payloads(kept))
  {
    RecordLeIsTotal();
    SortBySorts(RecordLe, durable);
    var ps, replayed := Payloads(kept), SortBy(RecordLe, durable);
    if replayed == ps {
      forall i, j | 0 <= i < j < |ps| ensures ps[i].recvMicros <= ps[j].recvMicros { assert RecordLe(replayed[i], replayed[j]); }
    }
    if ReceiptsRise(ps) {
      CaptureOrderSorts(kept, nextSeq);
      SequencesTellApart(kept, nextSeq);
      SortedUnique(RecordLe, ps, replayed);
    }
  }

  lemma SameSequence(kept: seq<Kept>, nextSeq: nat, i: nat, j: nat)
    requires InSequence(kept, nextSeq) && i < |kept| && j < |kept| && kept[i].payload.seqNo == kept[j].payload.seqNo
    ensures i == j
  {
  }

  lemma SequencesTellApart(kept: seq<Kept>, nextSeq: nat)
    requires InSequence(kept, nextSeq)
    ensures TellsApart(RecordLe, multiset(Payloads(kept)))
  {
    var ps := Payloads(kept);
    forall a, b | a in multiset(ps) && b in multiset(ps) && RecordLe(a, b) && RecordLe(b, a) ensures a == b {
      var i :| 0 <= i < |ps| && ps[i] == a;
      var j :| 0 <= j < |ps| && ps[j] == b;
      SameSequence(kept, nextSeq, i, j);
    }
  }

  /** Stored, and never announced, although it has something to say. */
  predicate Unsaid(a: Adapter, k: Kept) {
    !k.announced && EventsOf(a, k.payload) != []
  }

  predicate HeldBack(a: Adapter, kept: seq<Kept>) {
    exists k :: k in kept && Unsaid(a, k)
  }

  lemma HeldBackAtTheEnd(a: Adapter, front: seq<Kept>, last: Kept)
    ensures HeldBack(a, front + [last]) <==> HeldBack(a, front) || Unsaid(a, last)
  {
    assert forall k :: k in front + [last] <==> k in front || k == last;
  }

  lemma EmittedAppend(a: Adapter, kept: seq<Kept>, k: Kept)
    ensures Emitted(a, Payloads(kept + [k])) == Emitted(a, Payloads(kept)) + EventsOf(a, k.payload)
  {
    PayloadsAppend(kept, k);
    FlatAppend(SaidBy(a), Payloads(kept), k.payload);
  }

  lemma OneMoreSaid<T>(live: seq<T>, replayed: seq<T>, said: seq<T>, announced: bool, held: bool)
    requires |live| <= |replayed| && (held ==> |live| < |replayed|) && (!held ==> live == replayed)
    ensures var live', replayed', held' := live + (if announced then said else []), replayed + said, held || (!announced && said != []);
            |live'| <= |replayed'| && (held' ==> |live'| < |replayed'|) && (!held' ==> live' == replayed')
  {
  }

  lemma {:induction false} AllAnnounced(a: Adapter, kept: seq<Kept>)
    ensures |Announced(a, kept)| <= |Emitted(a, Payloads(kept))|
    ensures HeldBack(a, kept) ==> |Announced(a, kept)| < |Emitted(a, Payloads(kept))|
    ensures !HeldBack(a, kept) ==> Announced(a, kept) == Emitted(a, Payloads(kept))
    decreases |kept|
  {
    if kept != [] {
      var front, last := kept[..|kept| - 1], kept[|kept| - 1];
      assert kept == front + [last];
      AllAnnounced(a, front);
      HeldBackAtTheEnd(a, front, last);
      AnnouncedAppend(a, front, last);
      EmittedAppend(a, front, last);
      OneMoreSaid(Announced(a, front), Emitted(a, Payloads(front)), EventsOf(a, last.payload), last.announced, HeldBack(a, front));
    }
  }

  // ---- payloads stored twice ------------------------------------------------------------------------------------------

  /** What a record with second copies is emitted as: more where a copy has events in it, and otherwise the same. */
  lemma ReplayOfCopies(a: Adapter, kept: seq<Kept>, nextSeq: nat, again: seq<Payload>, durable: seq<Payload>)
    requires InSequence(kept, nextSeq) && ReceiptsRise(Payloads(kept))
    requires multiset(durable) == multiset(Payloads(kept)) + multiset(again)
    ensures var emitted := Emitted(a, SortBy(RecordLe, durable));
            && (AnySays(SaidBy(a), again) ==> |emitted| > |Emitted(a, Payloads(kept))|)
            && (!AnySays(SaidBy(a), again) ==> emitted == Emitted(a, Payloads(kept)))
  {
    RecordLeIsTotal();
    SortBySorts(RecordLe, durable);
    CaptureOrderSorts(kept, nextSeq);
    SequencesTellApart(kept, nextSeq);
    CopiesSayMore(RecordLe, SaidBy(a), SortBy(RecordLe, durable), Payloads(kept), again);
  }

  /**
    Replaying a flushed record attempts exactly the events live capture attempted, in the same order and under
    the same sequences, parsed, unparsed and generated alike, exactly unless a commit failed after storing something
    with events in it: an append's, which was then never announced, or a flush's, which was then stored again.
    The replay never says less.
   */
  lemma ReplayRepeatsLive(a: Adapter, first: nat, calls: seq<Call>)
    requires RoundTrips(a) && Live(a, first, calls).buffered == [] && ReceiptsRise(Payloads(Record(a, first, calls)))
    ensures var live := Live(a, first, calls);
            && (Emitted(a, SortBy(RecordLe, live.durable)) == live.attempts
                <==> !HeldBack(a, Record(a, first, calls)) && !AnySays(SaidBy(a), Again(a, first, calls)))
            && |live.attempts| <= |Emitted(a, SortBy(RecordLe, live.durable))|
  {
    RecordIsKept(a, first, calls);
    var live, kept, again := Live(a, first, calls), Record(a, first, calls), Again(a, first, calls);
    assert multiset(live.durable) == multiset(Payloads(kept)) + multiset(again);
    ReplayOfCopies(a, kept, live.nextSeq, again, live.durable);
    AllAnnounced(a, kept);
  }

  // ---- no silence -------------------------------------------------------------------------------------------------------

  /** After what was attempted before come precisely these events, in order, each under the payload's sequence. */
  predicate AttemptedEach(before: seq<Envelope>, after: seq<Envelope>, events: seq<Envelope>, seqNo: nat) {
    && |after| == |before| + |events| && before <= after
    && forall i :: 0 <= i < |events| ==>
         after[|before| + i] == Envelope(events[i].address, seqNo, events[i].atMicros, events[i].recvMicros, events[i].event)
  }

  /** A payload may be announced as unread under its own symbol, if that is a ticker, or without one under its channel. */
  predicate Addressable(p: Payload) {
    if p.symbol.Some? then IsTicker(p.symbol.value) else p.channel != ""
  }

  /** The channel cut to what a ticker may hold, with every character no ticker holds replaced. */
  predicate MadeAddressable(channel: string, ticker: string) {
    && |ticker| == (if |channel| < 64 then |channel| else 64)
    && forall i :: 0 <= i < |ticker| ==> ticker[i] == if TokenChar(channel[i]) then channel[i] else '-'
  }

  /** One more event was attempted, which names the payload and what was wrong with it. */
  predicate AttemptedUnparsed(before: seq<Envelope>, after: seq<Envelope>, venue: string, p: Payload, error: string) {
    && |after| == |before| + 1 && before <= after
    && var e := after[|before|];
       && e.event == Unparsed(p.channel, p.seqNo, error) && e.seqNo == p.seqNo && e.recvMicros == p.recvMicros && e.atMicros.None?
       && e.address.AtVenue? && e.address.venue == venue && IsTicker(e.address.ticker)
       && (p.symbol.Some? ==> e.address.ticker == p.symbol.value)
       && (p.symbol.None? ==> MadeAddressable(p.channel, e.address.ticker))
  }

  /** One more failure row, which names the payload, where it came from and what was wrong with it. */
  predicate FailureKept(before: seq<Failure>, after: seq<Failure>, p: Payload, error: string) {
    && |after| == |before| + 1 && before <= after
    && var f := after[|before|];
       && f.seqNo == p.seqNo && f.recvMicros == p.recvMicros && f.channel == p.channel && f.kind == p.kind && f.error == error
       && match p.place
          case OfVenue(venue) => f.venue == venue && f.account.None?
          case OfMarket(market) => f.venue == market && f.account.None?
          case OfAccount(venue, _, _) => f.venue == venue && f.account == Some(p.place)
  }

  /** What reading a payload leaves: its events where it reads, and where it does not a failure row and an anomaly. */
  predicate ReadAs(s: State, t: State, venue: string, p: Payload, events: Result<seq<Envelope>>, replaying: bool) {
    match events
    case Ok(es) => AttemptedEach(s.attempts, t.attempts, es, p.seqNo) && t.failures == s.failures
    case Err(error) =>
      && (if replaying then t.failures == s.failures else FailureKept(s.failures, t.failures, p, error))
      && (if Addressable(p) then AttemptedUnparsed(s.attempts, t.attempts, venue, p, error) else t.attempts == s.attempts)
  }

  lemma ReadLeaves(s: State, a: Adapter, p: Payload, replaying: bool)
    ensures !p.origin.Generated? ==> ReadAs(s, Read(s, a, p, replaying), a.venue, p, a.normalise(p), replaying)
    ensures p.origin.Generated? ==> ReadAs(s, Read(s, a, p, replaying), a.venue, p, Decoded(a, p), replaying)
  {
  }

  /** A stored event read back: one event, or an error that says whose encoding it is. */
  function Decoded(a: Adapter, p: Payload): Result<seq<Envelope>> {
    match a.decode(p.bytes)
    case Ok(e) => Ok([e])
    case Err(error) => Err("a generated payload would not decode: " + error)
  }

  /**
    Nothing recorded passes in silence: of a payload recorded or replayed, what the venue's adapter reads is attempted event
    by event, and what it will not read leaves a row, unless replayed, and an anomaly, wherever that can be addressed; a
    generated payload is decoded instead and never given to the adapter.
   */
  lemma RecordedIsNeverSilent(s: State, a: Adapter, payload: Payload, replaying: bool, commit: Commit)
    requires replaying || payload.origin.Streamed? || commit.Stored?
    ensures var (p, t) := (if replaying then payload else payload.(seqNo := s.nextSeq), OnePath(s, a, payload, replaying, commit));
            && (!payload.origin.Generated? ==> ReadAs(s, t, a.venue, p, a.normalise(p), replaying))
            && (payload.origin.Generated? ==> ReadAs(s, t, a.venue, p, Decoded(a, p), replaying))
  {
    var p := if replaying then payload else payload.(seqNo := s.nextSeq);
    var recorded := if replaying then s else Appended(s.(nextSeq := s.nextSeq + 1), p, commit);
    ReadLeaves(recorded, a, p, replaying);
  }

  /** A generated event is stored under its own kind and sequence, as the adapter encodes it, and then attempted as it is. */
  lemma WhatIsMadeIsStored(s: State, a: Adapter, place: Place, e: Envelope, commit: Commit)
    ensures var (t, stamped) := (RecordGenerated(s, a, place, e, commit), Envelope(e.address, s.nextSeq, e.atMicros, e.recvMicros, e.event));
            && t.nextSeq == s.nextSeq + 1 && t.buffered == s.buffered && t.failures == s.failures
            && t.durable == s.durable
                 + (if commit.Lost? then []
                    else [Payload(s.nextSeq, e.recvMicros, place, e.event.Kind(), e.event.Kind(),
                                  if e.address.AtVenue? then Some(e.address.ticker) else None, Generated, a.encode(stamped))])
            && t.attempts == s.attempts + if commit.Stored? then [stamped] else []
  {
  }

  /** A flush may stop after any of what is buffered, the group it stopped at stored or not; what it wrote is then durable. */
  lemma FlushesMayStopAnywhere(s: State, a: Adapter, n: nat, m: nat)
    requires n <= m <= |s.buffered|
    ensures var (written, stuck, unwritten) := (s.buffered[..n], s.buffered[n..m], s.buffered[n..]);
            After(s, a, FlushTo(written, stuck, unwritten))
              == State(s.nextSeq, s.durable + written + stuck, unwritten, s.failures, s.attempts)
  {
    assert s.buffered == s.buffered[..n] + s.buffered[n..];
    assert s.buffered[n..] == s.buffered[n..m] + s.buffered[m..];
  }

  /** The failure rows of one payload kept: one, where it was read and would not read. */
  function FailedBy(a: Adapter): Kept -> seq<Failure> {
    (k: Kept) => if k.announced && Interpret(a, k.payload).Err? then [FailureOf(k.payload, Interpret(a, k.payload).error)] else []
  }

  lemma FailuresOfCall(s: State, a: Adapter, call: Call)
    requires RoundTrips(a)
    ensures var kept := KeptBy(s, a, call);
            After(s, a, call).failures == s.failures + if kept == [] then [] else FailedBy(a)(kept[0])
  {
    if call.Made? {
      var p := NumberedBy(s, a, call);
      assert a.decode(p.bytes).Ok? by { assert a.decode(a.encode(call.envelope.Stamped(s.nextSeq))).Ok?; }
    }
  }

  /** Over every run of calls there is one failure row for each payload read that would not read, in order, and no other. */
  lemma {:induction false} FailuresAreKept(a: Adapter, first: nat, calls: seq<Call>)
    requires RoundTrips(a)
    ensures Live(a, first, calls).failures == Flat(FailedBy(a), Record(a, first, calls))
    decreases |calls|
  {
    if calls != [] {
      var front, call := calls[..|calls| - 1], calls[|calls| - 1];
      FailuresAreKept(a, first, front);
      var s := Live(a, first, front);
      FailuresOfCall(s, a, call);
      if KeptBy(s, a, call) == [] {
        assert Record(a, first, front) + [] == Record(a, first, front);
      } else {
        assert KeptBy(s, a, call) == [KeptBy(s, a, call)[0]];
        FlatAppend(FailedBy(a), Record(a, first, front), KeptBy(s, a, call)[0]);
      }
    }
  }
}
