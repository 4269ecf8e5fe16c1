/** Blocks and their hashes, the steps a range is asked for in, and the trail a fork is seen by. */
module Trail {
  import opened Text

  // ---- blocks ---------------------------------------------------------------------------

  /** A hash fixes everything below its block, and is modelled as that whole chain. */
  datatype Block = Genesis(id: nat) | Child(parent: Block, id: nat)

  /** What a node says of the block at a height; nothing makes the parts agree. */
  datatype Header = Header(number: nat, hash: Block, parentHash: Block)

  function Height(b: Block): nat {
    if b.Genesis? then 0 else Height(b.parent) + 1
  }

  function AncestorAt(b: Block, height: nat): (a: Block)
    requires height <= Height(b)
    ensures Height(a) == height
  {
    if Height(b) == height then b else AncestorAt(b.parent, height)
  }

  /** What an honest node whose newest block is `chain` says of the block at a height. */
  function HeaderOf(chain: Block, height: nat): Header
    requires height <= Height(chain)
  {
    Header(height, AncestorAt(chain, height), AncestorAt(chain, if height == 0 then 0 else height - 1))
  }

  lemma {:induction false} AncestorsOfAncestors(b: Block, height: nat, lower: nat)
    requires lower <= height <= Height(b)
    ensures AncestorAt(AncestorAt(b, height), lower) == AncestorAt(b, lower)
    decreases b
  {
    if height < Height(b) { AncestorsOfAncestors(b.parent, height, lower); }
  }

  /** Two chains with one block in common agree on every block below it. */
  lemma AgreeBelow(x: Block, y: Block, height: nat, lower: nat)
    requires lower <= height <= Height(x) && height <= Height(y) && AncestorAt(x, height) == AncestorAt(y, height)
    ensures AncestorAt(x, lower) == AncestorAt(y, lower)
  {
    AncestorsOfAncestors(x, height, lower);
    AncestorsOfAncestors(y, height, lower);
  }

  // ---- the steps a range is asked for in ---------------------------------------------------

  datatype Step = Step(from: nat, to: nat) {
    function Blocks(): nat {
      (if to >= from then to - from else 0) + 1
    }
  }

  datatype Planned = Steps(steps: seq<Step>) | BeforeReach(from: nat, earliest: nat)

  /** Steps that abut, cover a range exactly, and are each of a whole span but the last. */
  predicate Covering(steps: seq<Step>, from: nat, to: nat, span: nat) {
    && steps != [] && steps[0].from == from && steps[|steps| - 1].to == to
    && (forall i :: 0 <= i < |steps| ==> steps[i].from <= steps[i].to && steps[i].Blocks() <= span)
    && (forall i :: 0 <= i < |steps| - 1 ==> steps[i].Blocks() == span && steps[i + 1].from == steps[i].to + 1)
  }

  method Plan(span: nat, earliest: Option<nat>, from: nat, to: nat) returns (planned: Planned)
    ensures planned == PlanOf(span, earliest, from, to)
  {
    if earliest.Some? && from < earliest.value { return BeforeReach(from, earliest.value); }
    if to < from || span == 0 { return Steps([]); }
    var steps: seq<Step> := [];
    var cursor := from;
    while true
      invariant from <= cursor <= to
      invariant steps + Chunks(cursor, to, span) == Chunks(from, to, span)
      decreases (to - cursor)
    {
      var end := if cursor + (span - 1) <= to then cursor + (span - 1) else to;
      OneMoreChunk(steps, cursor, to, span);
      steps := steps + [Step(cursor, end)];
      if end >= to { break; }
      cursor := end + 1;
    }
    return Steps(steps);
  }

  function Chunks(from: nat, to: nat, span: nat): seq<Step>
    requires span > 0
    decreases if to >= from then to - from + 1 else 0
  {
    if to < from then []
    else if from + (span - 1) >= to then [Step(from, to)]
    else [Step(from, from + (span - 1))] + Chunks(from + span, to, span)
  }

  lemma OneMoreChunk(before: seq<Step>, from: nat, to: nat, span: nat)
    requires span > 0 && from <= to
    ensures var end := if from + (span - 1) <= to then from + (span - 1) else to;
            before + Chunks(from, to, span) == before + [Step(from, end)] + if end >= to then [] else Chunks(end + 1, to, span)
  {
  }

  function PlanOf(span: nat, earliest: Option<nat>, from: nat, to: nat): Planned {
    if earliest.Some? && from < earliest.value then BeforeReach(from, earliest.value)
    else if to < from || span == 0 then Steps([])
    else Steps(Chunks(from, to, span))
  }

  /** A range is refused exactly where it begins before what can be reached, and asked for in no steps where it is empty. */
  lemma PlanIsRefusedExactly(span: nat, earliest: Option<nat>, from: nat, to: nat)
    requires span > 0
    ensures PlanOf(span, earliest, from, to).BeforeReach? <==> earliest.Some? && from < earliest.value
    ensures earliest.Some? && from < earliest.value ==> PlanOf(span, earliest, from, to) == BeforeReach(from, earliest.value)
    ensures PlanOf(span, earliest, from, to) == Steps([]) <==> !(earliest.Some? && from < earliest.value) && to < from
  {
    if from <= to { ChunksCover(from, to, span); }
  }

  lemma CoveringFromFirst(rest: seq<Step>, from: nat, to: nat, span: nat)
    requires span > 0 && Covering(rest, from + span, to, span)
    ensures Covering([Step(from, from + (span - 1))] + rest, from, to, span)
  {
    var steps := [Step(from, from + (span - 1))] + rest;
    forall i | 0 <= i < |steps| ensures steps[i].from <= steps[i].to && steps[i].Blocks() <= span {
      if i > 0 { assert steps[i] == rest[i - 1]; }
    }
    forall i | 0 <= i < |steps| - 1 ensures steps[i].Blocks() == span && steps[i + 1].from == steps[i].to + 1 {
      assert steps[i + 1] == rest[i];
      if i > 0 { assert steps[i] == rest[i - 1]; }
    }
  }

  /** No block of a range is left unasked or asked twice, and no step is longer than the span. */
  lemma {:induction false} ChunksCover(from: nat, to: nat, span: nat)
    requires span > 0 && from <= to
    ensures Covering(Chunks(from, to, span), from, to, span)
    decreases (to - from)
  {
    if from + (span - 1) < to {
      ChunksCover(from + span, to, span);
      CoveringFromFirst(Chunks(from + span, to, span), from, to, span);
    }
  }

  // ---- the trail ------------------------------------------------------------------------------

  datatype Reorg = Reorg(fromBlock: nat, toBlock: nat, oldHash: Block, newHash: Block)

  datatype Advance = Extended | NotLinked | Reorganised(reorg: Reorg)

  type Held = map<nat, Block>

  ghost function MaxOf(s: set<nat>): (m: nat)
    requires s != {}
    ensures m in s && forall x :: x in s ==> x <= m
    decreases |s|
  {
    var x :| x in s;
    if s - {x} == {} then assert forall y :: y in s ==> y == x || y in s - {x}; x
    else
      var m := MaxOf(s - {x});
      assert forall y :: y in s ==> y == x || y in s - {x};
      if m > x then m else x
  }

  ghost function Tip(held: Held): (tip: Option<nat>)
    ensures tip.None? <==> held == map[]
    ensures tip.Some? ==> tip.value in held && forall h :: h in held ==> h <= tip.value
  {
    if held == map[] then None
    else
      assert held.Keys != {} by { assert exists h :: h in held; }
      Some(MaxOf(held.Keys))
  }

  function Below(held: Held, height: nat): Held {
    map h | h in held && h < height :: held[h]
  }

  ghost function Trimmed(held: Held, depth: nat): Held {
    var tip := Tip(held);
    if tip.None? then held
    else map h | h in held && h >= (if tip.value > depth then tip.value - depth else 0) :: held[h]
  }

  ghost function LinkOf(held: Held, header: Header): Advance {
    if header.number == 0 || header.number - 1 !in held then NotLinked
    else
      var parent := header.number - 1;
      if held[parent] == header.parentHash then Extended
      else
        var tip := Tip(held).value;
        Reorganised(Reorg(parent, if tip > parent then tip else parent, held[parent], header.parentHash))
  }

  ghost function HeldAfter(held: Held, depth: nat, header: Header): Held {
    var link := LinkOf(held, header);
    var kept := if link.Reorganised? then Below(held, link.reorg.fromBlock) else held;
    Trimmed(kept[header.number := header.hash], depth)
  }

  /** The heights held below one, newest first. */
  function HeldBelow(held: Held, height: nat): seq<(nat, Block)> {
    if height == 0 then []
    else (if height - 1 in held then [(height - 1, held[height - 1])] else []) + HeldBelow(held, height - 1)
  }

  /** Back through held heights until the chain agrees with one; a height missing from `probes` did not read. */
  function ForkSearch(held: seq<(nat, Block)>, probes: map<nat, Block>, lowest: nat): nat {
    if held == [] || held[0].0 !in probes then lowest
    else if probes[held[0].0] == held[0].1 then held[0].0 + 1
    else ForkSearch(held[1..], probes, held[0].0)
  }

  function ForkFrom(held: Held, probes: map<nat, Block>, changed: nat): nat {
    ForkSearch(HeldBelow(held, changed), probes, changed)
  }

  /** Hashes of the newest blocks captured, as deep as the trail goes. */
  class BlockTrail {
    var seen: Held
    const depth: nat

    constructor (depth: nat)
      ensures seen == map[] && this.depth == (if depth > 1 then depth else 1)
    {
      this.depth := if depth > 1 then depth else 1;
      seen := map[];
    }

    method TipOf() returns (tip: Option<nat>)
      ensures tip == Tip(seen)
    {
      var left := seen.Keys;
      tip := None;
      while left != {}
        invariant left <= seen.Keys
        invariant tip.None? <==> left == seen.Keys
        invariant tip.Some? ==> tip.value in seen && forall h :: h in seen && h !in left ==> h <= tip.value
        decreases |left|
      {
        var h: nat :| h in left;
        if tip.None? || tip.value < h { tip := Some(h); }
        left := left - {h};
      }
    }

    method Take(header: Header) returns (link: Advance)
      modifies this`seen
      ensures link == LinkOf(old(seen), header)
      ensures seen == HeldAfter(old(seen), depth, header)
    {
      if header.number == 0 || header.number - 1 !in seen {
        link := NotLinked;
      } else if seen[header.number - 1] == header.parentHash {
        link := Extended;
      } else {
        var parent := header.number - 1;
        var tip := TipOf();
        link := Reorganised(Reorg(parent, if tip.Some? && tip.value > parent then tip.value else parent,
                                  seen[parent], header.parentHash));
        ForgetFrom(parent);
      }
      seen := seen[header.number := header.hash];
      Trim();
    }

    method Trim()
      modifies this`seen
      ensures seen == Trimmed(old(seen), depth)
    {
      var tip := TipOf();
      if tip.None? { return; }
      var floor := if tip.value > depth then tip.value - depth else 0;
      seen := map h | h in seen && h >= floor :: seen[h];
    }

    method ForgetFrom(height: nat)
      modifies this`seen
      ensures seen == Below(old(seen), height)
    {
      seen := map h | h in seen && h < height :: seen[h];
    }

    /** How far down the held hashes disagree with the node; what is held from there up is forgotten. */
    method ForkPoint(probes: map<nat, Block>, changed: nat) returns (lowest: nat)
      modifies this`seen
      ensures lowest == ForkFrom(old(seen), probes, changed)
      ensures seen == Below(old(seen), lowest)
    {
      lowest := changed;
      var held := HeldBelow(seen, changed);
      var i := 0;
      while i < |held|
        invariant 0 <= i <= |held| && ForkSearch(held[i..], probes, lowest) == ForkSearch(held, probes, changed)
      {
        var (height, hash) := held[i];
        assert held[i..][1..] == held[i + 1..];
        if height !in probes { break; }
        if probes[height] == hash {
          lowest := height + 1;
          break;
        }
        lowest := height;
        i := i + 1;
      }
      ForgetFrom(lowest);
    }
  }

  /** A header on another parent than the one held names as replaced everything held from that parent up. */
  lemma ForkNamesWhatIsHeld(held: Held, header: Header)
    requires header.number >= 1 && header.number - 1 in held && held[header.number - 1] != header.parentHash
    ensures var link := LinkOf(held, header);
            && link.Reorganised? && link.reorg.fromBlock == header.number - 1
            && link.reorg.oldHash == held[header.number - 1] && link.reorg.newHash == header.parentHash
            && link.reorg.toBlock in held && forall h :: h in held ==> h <= link.reorg.toBlock
  {
  }

  // ---- how deep the search goes -------------------------------------------------------------------

  /** The newest held height below `changed` that the chain agrees with, every held one above it having read otherwise. */
  ghost predicate NewestAgreement(held: Held, probes: map<nat, Block>, changed: nat, agreed: nat) {
    && agreed < changed && agreed in held && agreed in probes && probes[agreed] == held[agreed]
    && forall h :: agreed < h < changed && h in held ==> h in probes && probes[h] != held[h]
  }

  lemma SearchStep(held: Held, probes: map<nat, Block>, height: nat, lowest: nat)
    requires height > 0
    ensures ForkSearch(HeldBelow(held, height), probes, lowest) ==
              if height - 1 !in held then ForkSearch(HeldBelow(held, height - 1), probes, lowest)
              else if height - 1 !in probes then lowest
              else if probes[height - 1] == held[height - 1] then height
              else ForkSearch(HeldBelow(held, height - 1), probes, height - 1)
  {
    var below, found := HeldBelow(held, height - 1), HeldBelow(held, height);
    if height - 1 in held {
      assert found[0] == (height - 1, held[height - 1]) && found[1..] == below;
    } else {
      assert found == below;
    }
  }

  lemma {:induction false} SearchFindsTheAgreement(held: Held, probes: map<nat, Block>, changed: nat, agreed: nat, lowest: nat)
    requires NewestAgreement(held, probes, changed, agreed)
    ensures ForkSearch(HeldBelow(held, changed), probes, lowest) == agreed + 1
    decreases changed
  {
    SearchStep(held, probes, changed, lowest);
    if changed - 1 !in held {
      SearchFindsTheAgreement(held, probes, changed - 1, agreed, lowest);
    } else if changed - 1 > agreed {
      SearchFindsTheAgreement(held, probes, changed - 1, agreed, changed - 1);
    }
  }

  lemma {:induction false} SearchNeverRises(held: Held, probes: map<nat, Block>, height: nat, lowest: nat)
    requires height <= lowest
    ensures ForkSearch(HeldBelow(held, height), probes, lowest) <= lowest
    decreases height
  {
    if height > 0 {
      SearchStep(held, probes, height, lowest);
      SearchNeverRises(held, probes, height - 1, if height - 1 in held then height - 1 else lowest);
    }
  }

  /** Every held height from here up to the change read, and read otherwise. */
  predicate AllOtherwise(held: Held, probes: map<nat, Block>, from: nat, changed: nat) {
    forall h :: from <= h < changed && h in held ==> h in probes && probes[h] != held[h]
  }

  /** The newest height held below one. */
  ghost function NewestBelow(held: Held, height: nat): (newest: Option<nat>)
    ensures newest.None? ==> forall h :: h in held ==> h >= height
    ensures newest.Some? ==> newest.value in held && newest.value < height && forall k :: newest.value < k < height ==> k !in held
  {
    if height == 0 then None else if height - 1 in held then Some(height - 1) else NewestBelow(held, height - 1)
  }

  /** The newest held height below this one, if there is one, did not read. */
  ghost predicate NextUnread(held: Held, probes: map<nat, Block>, height: nat) {
    var newest := NewestBelow(held, height);
    newest.Some? ==> newest.value !in probes
  }

  /** Just above a held height the chain agrees with, or at the last one that read otherwise with no more below that reads. */
  ghost predicate EndOfSearch(held: Held, probes: map<nat, Block>, changed: nat, lowest: nat) {
    && lowest <= changed && AllOtherwise(held, probes, lowest, changed)
    && (|| (lowest > 0 && lowest - 1 in held && lowest - 1 in probes && probes[lowest - 1] == held[lowest - 1])
        || ((lowest == changed || lowest in held) && NextUnread(held, probes, lowest)))
  }

  /** The search has come down to a height, and nothing held between it and the last that read otherwise. */
  predicate Searching(held: Held, probes: map<nat, Block>, changed: nat, height: nat, lowest: nat) {
    && height <= lowest <= changed && AllOtherwise(held, probes, lowest, changed) && (lowest == changed || lowest in held)
    && forall h :: height <= h < lowest ==> h !in held
  }

  lemma SearchStops(held: Held, probes: map<nat, Block>, changed: nat, height: nat, lowest: nat)
    requires height > 0 && Searching(held, probes, changed, height, lowest) && height - 1 in held
    ensures height - 1 !in probes ==> EndOfSearch(held, probes, changed, lowest)
    ensures height - 1 in probes && probes[height - 1] == held[height - 1] ==> EndOfSearch(held, probes, changed, height)
    ensures height - 1 in probes && probes[height - 1] != held[height - 1] ==> Searching(held, probes, changed, height - 1, height - 1)
  {
  }

  lemma {:induction false} SearchFrom(held: Held, probes: map<nat, Block>, changed: nat, height: nat, lowest: nat)
    requires Searching(held, probes, changed, height, lowest)
    ensures EndOfSearch(held, probes, changed, ForkSearch(HeldBelow(held, height), probes, lowest))
    decreases height
  {
    if height > 0 {
      SearchStep(held, probes, height, lowest);
      if height - 1 !in held {
        SearchFrom(held, probes, changed, height - 1, lowest);
      } else {
        SearchStops(held, probes, changed, height, lowest);
        if height - 1 in probes && probes[height - 1] != held[height - 1] {
          SearchFrom(held, probes, changed, height - 1, height - 1);
        }
      }
    }
  }

  /** Where the search ends, whatever reads and whatever is held; and no two heights are such an end. */
  lemma SearchEndsExactly(held: Held, probes: map<nat, Block>, changed: nat, lowest: nat)
    ensures ForkFrom(held, probes, changed) == lowest <==> EndOfSearch(held, probes, changed, lowest)
  {
    SearchFrom(held, probes, changed, changed, changed);
    if EndOfSearch(held, probes, changed, lowest) {
      OneEnd(held, probes, changed, lowest, ForkFrom(held, probes, changed));
    }
  }

  lemma OneEnd(held: Held, probes: map<nat, Block>, changed: nat, a: nat, b: nat)
    requires EndOfSearch(held, probes, changed, a) && EndOfSearch(held, probes, changed, b)
    ensures a == b
  {
    if a < b { LowerIsNoEnd(held, probes, changed, a, b); }
    if b < a { LowerIsNoEnd(held, probes, changed, b, a); }
  }

  lemma NewestIsRead(held: Held, probes: map<nat, Block>, changed: nat, lower: nat, lowest: nat)
    requires lower < lowest <= changed && AllOtherwise(held, probes, lower, changed)
    requires lower in held || (lower > 0 && lower - 1 in held && lower - 1 in probes)
    ensures !NextUnread(held, probes, lowest)
  {
    var newest := NewestBelow(held, lowest);
    assert newest.value >= lower || newest.value == lower - 1;
    assert newest.value in probes;
  }

  lemma LowerIsNoEnd(held: Held, probes: map<nat, Block>, changed: nat, lower: nat, lowest: nat)
    requires EndOfSearch(held, probes, changed, lower) && EndOfSearch(held, probes, changed, lowest)
    ensures lower >= lowest
  {
    if lower < lowest { NewestIsRead(held, probes, changed, lower, lowest); }
  }

  /**
    Deep enough: when the search ends on a held hash the new chain agrees with, every block the new
    chain replaced lies at or above the height returned, and the trail keeps nothing from there up.
   */
  lemma ForkPointIsDeepEnough(held: Held, probes: map<nat, Block>, changed: nat, agreed: nat, before: Block, after: Block)
    requires NewestAgreement(held, probes, changed, agreed)
    requires agreed <= Height(before) && agreed <= Height(after)
    requires held[agreed] == AncestorAt(before, agreed) && probes[agreed] == AncestorAt(after, agreed)
    ensures var lowest := ForkFrom(held, probes, changed);
            && 1 <= lowest <= changed
            && (forall h: nat :: h <= Height(before) && h <= Height(after) && AncestorAt(before, h) != AncestorAt(after, h) ==> h >= lowest)
            && (forall h: nat :: h in Below(held, lowest) <==> h in held && h <= agreed)
  {
    SearchFindsTheAgreement(held, probes, changed, agreed, changed);
    forall h: nat | h <= agreed ensures AncestorAt(before, h) == AncestorAt(after, h) {
      AgreeBelow(before, after, agreed, h);
    }
  }

  lemma BelowAllReplaced(lowest: nat, before: Block, after: Block)
    requires lowest <= Height(before) && lowest <= Height(after)
    ensures (forall h: nat :: h <= Height(before) && h <= Height(after) && AncestorAt(before, h) != AncestorAt(after, h) ==> h >= lowest)
              <==> lowest == 0 || AncestorAt(before, lowest - 1) == AncestorAt(after, lowest - 1)
  {
    if lowest > 0 && AncestorAt(before, lowest - 1) == AncestorAt(after, lowest - 1) {
      forall h: nat | h < lowest ensures AncestorAt(before, h) == AncestorAt(after, h) {
        AgreeBelow(before, after, lowest - 1, h);
      }
    }
  }

  /**
    However the search ends, and whatever it read: the height it returns lies at or below every block the new chain
    replaced, if and only if it is zero or the two chains agree on the block before it.
   */
  lemma DeepEnoughExactly(held: Held, probes: map<nat, Block>, changed: nat, before: Block, after: Block)
    requires changed <= Height(before) && changed <= Height(after)
    ensures var lowest := ForkFrom(held, probes, changed);
            && lowest <= changed
            && ((forall h: nat :: h <= Height(before) && h <= Height(after) && AncestorAt(before, h) != AncestorAt(after, h) ==> h >= lowest)
                  <==> lowest == 0 || AncestorAt(before, lowest - 1) == AncestorAt(after, lowest - 1))
  {
    SearchNeverRises(held, probes, changed, changed);
    BelowAllReplaced(ForkFrom(held, probes, changed), before, after);
  }
}
