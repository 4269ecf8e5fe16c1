/** Which recorded rows of a chain a reorganisation contradicts. */
module Standing {
  datatype Reorganised = Reorganised(fromBlock: nat, toBlock: nat, streamSeq: nat) {
    predicate Contradicts(block: nat, at: nat) {
      fromBlock <= block <= toBlock && at < streamSeq
    }
  }

  datatype Row = Row(block: nat, streamSeq: nat)

  datatype Verdict = Uncontradicted | Superseded(reorg: Reorganised)

  /** The later of two contradictions, the second one where they share a sequence. */
  function Later(a: Verdict, r: Reorganised): Verdict {
    if a.Superseded? && a.reorg.streamSeq > r.streamSeq then a else Superseded(r)
  }

  function StandingOf(reorgs: seq<Reorganised>, row: Row): Verdict {
    if reorgs == [] then Uncontradicted
    else
      var front, last := reorgs[..|reorgs| - 1], reorgs[|reorgs| - 1];
      var before := StandingOf(front, row);
      if last.Contradicts(row.block, row.streamSeq) then Later(before, last) else before
  }

  /** No reorganisation of a list contradicts a row. */
  predicate Stands(reorgs: seq<Reorganised>, block: nat, at: nat) {
    forall i :: 0 <= i < |reorgs| ==> !reorgs[i].Contradicts(block, at)
  }

  /** A row stands exactly when no reorganisation contradicts it, and is otherwise superseded by the latest that does. */
  lemma {:induction false} StandingNamesTheLatest(reorgs: seq<Reorganised>, row: Row)
    ensures StandingOf(reorgs, row) == Uncontradicted <==> Stands(reorgs, row.block, row.streamSeq)
    ensures StandingOf(reorgs, row).Superseded? ==>
              var latest := StandingOf(reorgs, row).reorg;
              && latest in reorgs && latest.Contradicts(row.block, row.streamSeq)
              && forall r :: r in reorgs && r.Contradicts(row.block, row.streamSeq) ==> r.streamSeq <= latest.streamSeq
    decreases |reorgs|
  {
    if reorgs != [] {
      var front, last := reorgs[..|reorgs| - 1], reorgs[|reorgs| - 1];
      StandingNamesTheLatest(front, row);
      assert forall r :: r in reorgs <==> r in front || r == last;
      assert forall i :: 0 <= i < |front| ==> front[i] == reorgs[i];
      if !last.Contradicts(row.block, row.streamSeq) {
        assert Stands(reorgs, row.block, row.streamSeq) <==> Stands(front, row.block, row.streamSeq);
      }
    }
  }

  /**
    The two clauses together: of rows from one block either side of a reorganisation of it, the
    earlier is superseded and the later, its replacement, is not.
   */
  lemma OnlyTheReplacedAreSuperseded(reorgs: seq<Reorganised>, r: Reorganised, block: nat, before: nat, after: nat)
    requires r in reorgs && r.fromBlock <= block <= r.toBlock && before < r.streamSeq <= after
    requires forall other :: other in reorgs && other.fromBlock <= block <= other.toBlock ==> other.streamSeq <= r.streamSeq
    ensures StandingOf(reorgs, Row(block, before)).Superseded?
    ensures StandingOf(reorgs, Row(block, before)).reorg.streamSeq == r.streamSeq
    ensures StandingOf(reorgs, Row(block, after)) == Uncontradicted
  {
    StandingNamesTheLatest(reorgs, Row(block, before));
    StandingNamesTheLatest(reorgs, Row(block, after));
    var i :| 0 <= i < |reorgs| && reorgs[i] == r;
    assert reorgs[i].Contradicts(block, before);
  }
}
