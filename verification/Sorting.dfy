/** Stable sorting, as the specification of `sort_by_key`, and sums over permuted sequences. */
module Sorting {
  ghost predicate TotalOrder<T(!new)>(le: (T, T) -> bool) {
    && (forall a, b :: le(a, b) || le(b, a))
    && (forall a, b, c :: le(a, b) && le(b, c) ==> le(a, c))
  }

  predicate Sorted<T>(le: (T, T) -> bool, xs: seq<T>) {
    forall i, j :: 0 <= i < j < |xs| ==> le(xs[i], xs[j])
  }

  predicate Distinct<T(==)>(xs: seq<T>) {
    forall i, j :: 0 <= i < j < |xs| ==> xs[i] != xs[j]
  }

  /** Insert after everything not greater, which is what keeps a sort stable. */
  function Insert<T>(le: (T, T) -> bool, xs: seq<T>, x: T): seq<T> {
    if xs == [] then [x]
    else if le(xs[|xs| - 1], x) then xs + [x]
    else Insert(le, xs[..|xs| - 1], x) + [xs[|xs| - 1]]
  }

  lemma {:induction false} InsertAddsOne<T>(le: (T, T) -> bool, xs: seq<T>, x: T)
    ensures multiset(Insert(le, xs, x)) == multiset(xs) + multiset{x}
    decreases |xs|
  {
    if xs != [] && !le(xs[|xs| - 1], x) {
      InsertAddsOne(le, xs[..|xs| - 1], x);
      assert xs == xs[..|xs| - 1] + [xs[|xs| - 1]];
    }
  }

  function SortBy<T>(le: (T, T) -> bool, xs: seq<T>): seq<T> {
    if xs == [] then [] else Insert(le, SortBy(le, xs[..|xs| - 1]), xs[|xs| - 1])
  }

  lemma {:induction false} SortKeeps<T>(le: (T, T) -> bool, xs: seq<T>)
    ensures multiset(SortBy(le, xs)) == multiset(xs) && |SortBy(le, xs)| == |xs|
    ensures forall x :: x in SortBy(le, xs) <==> x in xs
    decreases |xs|
  {
    if xs != [] {
      var front, last := xs[..|xs| - 1], xs[|xs| - 1];
      SortKeeps(le, front);
      InsertAddsOne(le, SortBy(le, front), last);
      assert xs == front + [last];
    }
    SameElements(SortBy(le, xs), xs);
  }

  lemma {:induction false} InsertSorted<T(!new)>(le: (T, T) -> bool, xs: seq<T>, x: T)
    requires TotalOrder(le) && Sorted(le, xs)
    ensures Sorted(le, Insert(le, xs, x))
    decreases |xs|
  {
    if xs != [] {
      var front, last := xs[..|xs| - 1], xs[|xs| - 1];
      if le(last, x) {
        forall i | 0 <= i < |xs| ensures le(xs[i], x) {
          assert i == |xs| - 1 || le(xs[i], last);
        }
      } else {
        InsertSorted(le, front, x);
        InsertAddsOne(le, front, x);
        var r := Insert(le, front, x);
        forall i | 0 <= i < |r| ensures le(r[i], last) {
          assert r[i] in multiset(front) + multiset{x};
          if r[i] != x { assert r[i] in front; }
        }
      }
    }
  }

  lemma {:induction false} SortBySorts<T(!new)>(le: (T, T) -> bool, xs: seq<T>)
    requires TotalOrder(le)
    ensures Sorted(le, SortBy(le, xs)) && multiset(SortBy(le, xs)) == multiset(xs)
    decreases |xs|
  {
    SortKeeps(le, xs);
    if xs != [] {
      SortBySorts(le, xs[..|xs| - 1]);
      InsertSorted(le, SortBy(le, xs[..|xs| - 1]), xs[|xs| - 1]);
    }
  }

  lemma InsertBefore<T>(le: (T, T) -> bool, front: seq<T>, last: T, x: T)
    ensures Insert(le, front + [last], x) == if le(last, x) then front + [last] + [x] else Insert(le, front, x) + [last]
  {
    var xs := front + [last];
    assert xs[..|xs| - 1] == front;
  }

  lemma {:induction false} InsertFirst<T(!new)>(le: (T, T) -> bool, xs: seq<T>, x: T)
    requires forall i :: 0 <= i < |xs| ==> !le(xs[i], x)
    ensures Insert(le, xs, x) == [x] + xs
    decreases |xs|
  {
    if xs != [] {
      var front, last := xs[..|xs| - 1], xs[|xs| - 1];
      InsertFirst(le, front, x);
      assert xs == front + [last];
      InsertBefore(le, front, last, x);
      assert ([x] + front) + [last] == [x] + xs;
    }
  }

  lemma {:induction false} InsertAfterFirst<T>(le: (T, T) -> bool, first: T, xs: seq<T>, x: T)
    requires le(first, x)
    ensures Insert(le, [first] + xs, x) == [first] + Insert(le, xs, x)
    decreases |xs|
  {
    if xs == [] {
      assert [first] + xs == [] + [first];
      InsertBefore(le, [], first, x);
    } else {
      var front, last := xs[..|xs| - 1], xs[|xs| - 1];
      assert xs == front + [last] && [first] + xs == ([first] + front) + [last];
      InsertAfterFirst(le, first, front, x);
      InsertBefore(le, [first] + front, last, x);
      InsertBefore(le, front, last, x);
    }
  }

  lemma SortAppends<T>(le: (T, T) -> bool, front: seq<T>, last: T)
    ensures SortBy(le, front + [last]) == Insert(le, SortBy(le, front), last)
  {
    assert (front + [last])[..|front|] == front;
  }

  lemma SortPutsLeastFirst<T(!new)>(le: (T, T) -> bool, front: seq<T>, least: T)
    requires forall i :: 0 <= i < |front| ==> !le(front[i], least)
    ensures SortBy(le, front + [least]) == [least] + SortBy(le, front)
  {
    SortAppends(le, front, least);
    SortKeeps(le, front);
    var sorted := SortBy(le, front);
    forall i | 0 <= i < |sorted| ensures !le(sorted[i], least) { assert sorted[i] in front; }
    InsertFirst(le, sorted, least);
  }

  lemma AppendLast<T>(xs: seq<T>, ys: seq<T>, last: T)
    ensures xs + (ys + [last]) == (xs + ys) + [last]
  {
  }

  lemma LeastStaysFirst<T>(le: (T, T) -> bool, xs: seq<T>, rest: seq<T>, least: T, last: T)
    requires SortBy(le, xs) == [least] + SortBy(le, rest) && le(least, last)
    ensures SortBy(le, xs + [last]) == [least] + SortBy(le, rest + [last])
  {
    SortAppends(le, xs, last);
    SortAppends(le, rest, last);
    InsertAfterFirst(le, least, SortBy(le, rest), last);
  }

  /** A stable sort begins with the leftmost of the least. */
  lemma {:induction false} SortTakesLeftmost<T(!new)>(le: (T, T) -> bool, before: seq<T>, least: T, after: seq<T>)
    requires (forall i :: 0 <= i < |before| ==> !le(before[i], least)) && forall i :: 0 <= i < |after| ==> le(least, after[i])
    ensures SortBy(le, before + [least] + after) == [least] + SortBy(le, before + after)
    decreases |after|
  {
    if after == [] {
      assert before + [least] + after == before + [least] && before + after == before;
      SortPutsLeastFirst(le, before, least);
    } else {
      var front, last := after[..|after| - 1], after[|after| - 1];
      SortTakesLeftmost(le, before, least, front);
      assert after == front + [last];
      AppendLast(before + [least], front, last);
      AppendLast(before, front, last);
      LeastStaysFirst(le, before + [least] + front, before + front, least, last);
    }
  }

  lemma SameElements<T>(xs: seq<T>, ys: seq<T>)
    requires multiset(xs) == multiset(ys)
    ensures |xs| == |ys|
    ensures forall x :: x in xs <==> x in ys
  {
    assert |multiset(xs)| == |xs| && |multiset(ys)| == |ys|;
    forall x ensures x in xs <==> x in ys {
      assert x in xs <==> x in multiset(xs);
      assert x in ys <==> x in multiset(ys);
    }
  }

  lemma {:induction false} DistinctCounts<T>(xs: seq<T>)
    ensures Distinct(xs) <==> forall x :: x in xs ==> multiset(xs)[x] == 1
    decreases |xs|
  {
    if xs != [] {
      var front, last := xs[..|xs| - 1], xs[|xs| - 1];
      assert xs == front + [last];
      DistinctCounts(front);
      assert last in front <==> multiset(front)[last] > 0;
      if Distinct(xs) {
        forall x | x in xs ensures multiset(xs)[x] == 1 {
          if x in front { assert x != last; }
        }
      }
      if forall x :: x in xs ==> multiset(xs)[x] == 1 {
        forall x | x in front ensures multiset(front)[x] == 1 { assert x in xs; assert multiset(front)[x] > 0; }
        assert last in xs && multiset(front)[last] == 0;
      }
    }
  }

  lemma DistinctPermuted<T>(xs: seq<T>, ys: seq<T>)
    requires multiset(xs) == multiset(ys) && Distinct(xs)
    ensures Distinct(ys)
  {
    SameElements(xs, ys);
    DistinctCounts(xs);
    DistinctCounts(ys);
  }

  /** The order tells everything in `xs` apart. */
  ghost predicate TellsApart<T(!new)>(le: (T, T) -> bool, xs: multiset<T>) {
    forall a, b :: a in xs && b in xs && le(a, b) && le(b, a) ==> a == b
  }

  lemma SameGreatest<T(!new)>(le: (T, T) -> bool, xs: seq<T>, ys: seq<T>)
    requires xs != [] && ys != [] && Sorted(le, xs) && Sorted(le, ys)
    requires multiset(xs) == multiset(ys) && TellsApart(le, multiset(xs))
    ensures xs[|xs| - 1] == ys[|ys| - 1]
  {
    var a, b := xs[|xs| - 1], ys[|ys| - 1];
    assert a in multiset(ys) && b in multiset(xs);
    var i :| 0 <= i < |xs| && xs[i] == b;
    var j :| 0 <= j < |ys| && ys[j] == a;
    if i < |xs| - 1 && j < |ys| - 1 {
      assert le(xs[i], xs[|xs| - 1]) && le(ys[j], ys[|ys| - 1]);
    }
  }

  lemma FrontAndLast<T>(xs: seq<T>)
    requires xs != []
    ensures multiset(xs[..|xs| - 1]) == multiset(xs) - multiset{xs[|xs| - 1]}
    ensures xs == xs[..|xs| - 1] + [xs[|xs| - 1]]
  {
    assert xs == xs[..|xs| - 1] + [xs[|xs| - 1]];
  }

  /** Two sorted arrangements of the same things are one, where the order tells them all apart. */
  lemma {:induction false} SortedUnique<T(!new)>(le: (T, T) -> bool, xs: seq<T>, ys: seq<T>)
    requires Sorted(le, xs) && Sorted(le, ys) && multiset(xs) == multiset(ys)
    requires TellsApart(le, multiset(xs))
    ensures xs == ys
    decreases |xs|
  {
    SameElements(xs, ys);
    if xs != [] {
      SameGreatest(le, xs, ys);
      FrontAndLast(xs);
      FrontAndLast(ys);
      SortedUnique(le, xs[..|xs| - 1], ys[..|ys| - 1]);
    }
  }

  /** The multiset sum of what `f` gives each element. */
  function SumOf<T, R>(f: T -> multiset<R>, xs: seq<T>): multiset<R> {
    if xs == [] then multiset{} else f(xs[0]) + SumOf(f, xs[1..])
  }

  lemma {:induction false} SumAppend<T, R>(f: T -> multiset<R>, xs: seq<T>, ys: seq<T>)
    ensures SumOf(f, xs + ys) == SumOf(f, xs) + SumOf(f, ys)
    decreases |xs|
  {
    if xs == [] {
      assert xs + ys == ys;
    } else {
      assert (xs + ys)[1..] == xs[1..] + ys;
      SumAppend(f, xs[1..], ys);
    }
  }

  lemma {:induction false} SumPermuted<T, R>(f: T -> multiset<R>, xs: seq<T>, ys: seq<T>)
    requires multiset(xs) == multiset(ys)
    ensures SumOf(f, xs) == SumOf(f, ys)
    decreases |xs|
  {
    SameElements(xs, ys);
    if xs != [] {
      assert xs[0] in ys;
      var k :| 0 <= k < |ys| && ys[k] == xs[0];
      var rest := ys[..k] + ys[k + 1..];
      assert ys == ys[..k] + ([ys[k]] + ys[k + 1..]);
      assert xs == [xs[0]] + xs[1..];
      assert multiset(xs) == multiset{xs[0]} + multiset(xs[1..]);
      assert multiset(ys) == multiset(ys[..k]) + (multiset{ys[k]} + multiset(ys[k + 1..]));
      assert multiset(rest) == multiset(ys) - multiset{xs[0]};
      SumPermuted(f, xs[1..], rest);
      SumAppend(f, ys[..k], [ys[k]] + ys[k + 1..]);
      SumAppend(f, ys[..k], ys[k + 1..]);
      assert ([ys[k]] + ys[k + 1..])[1..] == ys[k + 1..];
    }
  }

  lemma SumOfSingle<T, R>(f: T -> multiset<R>, x: T)
    ensures SumOf(f, [x]) == f(x)
  {
    assert [x][1..] == [] && SumOf(f, [x]) == f(x) + SumOf(f, []);
  }

  // ---- what a sequence says, element by element ----------------------------------------

  function Flat<T, R>(says: T -> seq<R>, xs: seq<T>): seq<R> {
    if xs == [] then [] else Flat(says, xs[..|xs| - 1]) + says(xs[|xs| - 1])
  }

  lemma FlatAppend<T, R>(says: T -> seq<R>, xs: seq<T>, x: T)
    ensures Flat(says, xs + [x]) == Flat(says, xs) + says(x)
  {
    assert (xs + [x])[..|xs|] == xs;
  }

  lemma {:induction false} FlatConcat<T, R>(says: T -> seq<R>, xs: seq<T>, ys: seq<T>)
    ensures Flat(says, xs + ys) == Flat(says, xs) + Flat(says, ys)
    decreases |ys|
  {
    if ys == [] {
      assert xs + ys == xs;
    } else {
      var front, last := ys[..|ys| - 1], ys[|ys| - 1];
      FlatConcat(says, xs, front);
      assert ys == front + [last];
      AppendLast(xs, front, last);
      FlatAppend(says, xs + front, last);
      assert Flat(says, xs) + (Flat(says, front) + says(last)) == (Flat(says, xs) + Flat(says, front)) + says(last);
    }
  }

  lemma FlatOfOne<T, R>(says: T -> seq<R>, x: T)
    ensures Flat(says, [x]) == says(x)
  {
    assert [x] == [] + [x];
    FlatAppend(says, [], x);
  }

  lemma {:induction false} FlatComesFrom<T, R>(says: T -> seq<R>, xs: seq<T>, r: R)
    requires r in Flat(says, xs)
    ensures exists x :: x in xs && r in says(x)
    decreases |xs|
  {
    var front, last := xs[..|xs| - 1], xs[|xs| - 1];
    assert xs == front + [last];
    if r in Flat(says, front) { FlatComesFrom(says, front, r); }
  }

  function Reversed<T>(xs: seq<T>): (ys: seq<T>)
    ensures |ys| == |xs| && forall i :: 0 <= i < |xs| ==> ys[i] == xs[|xs| - 1 - i]
  {
    if xs == [] then [] else [xs[|xs| - 1]] + Reversed(xs[..|xs| - 1])
  }

  lemma ReversedLast<T>(xs: seq<T>, last: T)
    ensures Reversed(xs + [last]) == [last] + Reversed(xs)
  {
    assert (xs + [last])[..|xs|] == xs;
  }

  lemma FlatReversed<T, R>(says: T -> seq<R>, front: seq<T>, last: T)
    ensures Flat(says, Reversed(front + [last])) == says(last) + Flat(says, Reversed(front))
  {
    ReversedLast(front, last);
    FlatConcat(says, [last], Reversed(front));
    FlatOfOne(says, last);
  }

  lemma Regroup3<T>(xs: seq<T>, ys: seq<T>, zs: seq<T>)
    ensures (xs + ys) + zs == xs + (ys + zs)
  {
  }

  function BagOf<T, R>(says: T -> seq<R>): T -> multiset<R> {
    (x: T) => multiset(says(x))
  }

  lemma {:induction false} FlatBag<T, R>(says: T -> seq<R>, xs: seq<T>)
    ensures multiset(Flat(says, xs)) == SumOf(BagOf(says), xs)
    decreases |xs|
  {
    if xs != [] {
      var front, last := xs[..|xs| - 1], xs[|xs| - 1];
      FlatBag(says, front);
      assert xs == front + [last];
      SumAppend(BagOf(says), front, [last]);
      SumOfSingle(BagOf(says), last);
    }
  }

  /** The elements that say anything. */
  function Saying<T, R>(says: T -> seq<R>, xs: seq<T>): seq<T> {
    if xs == [] then [] else Saying(says, xs[..|xs| - 1]) + if says(xs[|xs| - 1]) != [] then [xs[|xs| - 1]] else []
  }

  function SayingBag<T, R>(says: T -> seq<R>): T -> multiset<T> {
    (x: T) => if says(x) != [] then multiset{x} else multiset{}
  }

  lemma {:induction false} SayingIsCounted<T, R>(says: T -> seq<R>, xs: seq<T>)
    ensures multiset(Saying(says, xs)) == SumOf(SayingBag(says), xs)
    decreases |xs|
  {
    if xs != [] {
      var front, last := xs[..|xs| - 1], xs[|xs| - 1];
      SayingIsCounted(says, front);
      assert xs == front + [last];
      SumAppend(SayingBag(says), front, [last]);
      SumOfSingle(SayingBag(says), last);
    }
  }

  lemma {:induction false} SayingSaysItAll<T, R>(says: T -> seq<R>, xs: seq<T>)
    ensures Flat(says, Saying(says, xs)) == Flat(says, xs)
    decreases |xs|
  {
    if xs != [] {
      var front, last := xs[..|xs| - 1], xs[|xs| - 1];
      SayingSaysItAll(says, front);
      if says(last) != [] {
        FlatAppend(says, Saying(says, front), last);
      } else {
        assert Saying(says, xs) == Saying(says, front);
      }
    }
  }

  lemma {:induction false} SayingStaysSorted<T(!new), R>(le: (T, T) -> bool, says: T -> seq<R>, xs: seq<T>)
    requires Sorted(le, xs)
    ensures Sorted(le, Saying(says, xs)) && forall x :: x in Saying(says, xs) ==> x in xs
    decreases |xs|
  {
    if xs != [] {
      var front, last := xs[..|xs| - 1], xs[|xs| - 1];
      SayingStaysSorted(le, says, front);
      forall x | x in front ensures le(x, last) {
        var i :| 0 <= i < |front| && front[i] == x;
        assert le(xs[i], xs[|xs| - 1]);
      }
    }
  }

  predicate AnySays<T, R(==)>(says: T -> seq<R>, xs: seq<T>) {
    exists i :: 0 <= i < |xs| && says(xs[i]) != []
  }

  lemma AnySaysFromFirst<T, R>(says: T -> seq<R>, x: T, xs: seq<T>)
    ensures AnySays(says, [x] + xs) <==> says(x) != [] || AnySays(says, xs)
  {
    var all := [x] + xs;
    if i :| 0 <= i < |all| && says(all[i]) != [] {
      assert i == 0 || says(xs[i - 1]) != [];
    }
    if says(x) != [] { assert says(all[0]) != []; }
    if i :| 0 <= i < |xs| && says(xs[i]) != [] { assert says(all[i + 1]) != []; }
  }

  lemma {:induction false} SilentAddsNothing<T, R>(says: T -> seq<R>, xs: seq<T>)
    ensures AnySays(says, xs) <==> SumOf(BagOf(says), xs) != multiset{}
    ensures !AnySays(says, xs) ==> SumOf(SayingBag(says), xs) == multiset{}
    decreases |xs|
  {
    if xs != [] {
      SilentAddsNothing(says, xs[1..]);
      assert xs == [xs[0]] + xs[1..];
      AnySaysFromFirst(says, xs[0], xs[1..]);
      assert |multiset(says(xs[0]))| == |says(xs[0])|;
      assert |BagOf(says)(xs[0]) + SumOf(BagOf(says), xs[1..])| == |BagOf(says)(xs[0])| + |SumOf(BagOf(says), xs[1..])|;
    }
  }

  lemma SumOfBoth<T, R>(f: T -> multiset<R>, all: seq<T>, xs: seq<T>, again: seq<T>)
    requires multiset(all) == multiset(xs) + multiset(again)
    ensures SumOf(f, all) == SumOf(f, xs) + SumOf(f, again)
  {
    SumPermuted(f, all, xs + again);
    SumAppend(f, xs, again);
  }

  lemma MoreIsLonger<T>(xs: seq<T>, ys: seq<T>, more: multiset<T>)
    requires multiset(xs) == multiset(ys) + more && more != multiset{}
    ensures |xs| > |ys|
  {
    assert |multiset(xs)| == |xs| && |multiset(ys)| == |ys| && |multiset(ys) + more| == |ys| + |more|;
  }

  lemma SpeakingCopiesLengthen<T, R>(says: T -> seq<R>, all: seq<T>, xs: seq<T>, again: seq<T>)
    requires multiset(all) == multiset(xs) + multiset(again) && AnySays(says, again)
    ensures |Flat(says, all)| > |Flat(says, xs)|
  {
    FlatBag(says, all);
    FlatBag(says, xs);
    SilentAddsNothing(says, again);
    SumOfBoth(BagOf(says), all, xs, again);
    MoreIsLonger(Flat(says, all), Flat(says, xs), SumOf(BagOf(says), again));
  }

  lemma SilentCopiesChangeNothing<T(!new), R>(le: (T, T) -> bool, says: T -> seq<R>, all: seq<T>, xs: seq<T>, again: seq<T>)
    requires multiset(all) == multiset(xs) + multiset(again) && !AnySays(says, again)
    requires Sorted(le, all) && Sorted(le, xs) && TellsApart(le, multiset(xs))
    ensures Flat(says, all) == Flat(says, xs)
  {
    SilentAddsNothing(says, again);
    SumOfBoth(SayingBag(says), all, xs, again);
    SayingIsCounted(says, all);
    SayingIsCounted(says, xs);
    SayingSaysItAll(says, all);
    SayingSaysItAll(says, xs);
    SayingStaysSorted(le, says, all);
    SayingStaysSorted(le, says, xs);
    forall x | x in multiset(Saying(says, all)) ensures x in multiset(xs) {
      assert x in multiset(Saying(says, xs));
      assert x in Saying(says, xs);
    }
    SortedUnique(le, Saying(says, all), Saying(says, xs));
  }

  /**
    A sorted arrangement with second copies in it says what the one without them says, exactly where no copy says
    anything; it otherwise says more.
   */
  lemma CopiesSayMore<T(!new), R>(le: (T, T) -> bool, says: T -> seq<R>, all: seq<T>, xs: seq<T>, again: seq<T>)
    requires multiset(all) == multiset(xs) + multiset(again)
    requires Sorted(le, all) && Sorted(le, xs) && TellsApart(le, multiset(xs))
    ensures AnySays(says, again) ==> |Flat(says, all)| > |Flat(says, xs)|
    ensures !AnySays(says, again) ==> Flat(says, all) == Flat(says, xs)
  {
    if AnySays(says, again) {
      SpeakingCopiesLengthen(says, all, xs, again);
    } else {
      SilentCopiesChangeNothing(le, says, all, xs, again);
    }
  }
}
