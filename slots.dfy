/** detect_empty_slots (check_megaraid.py:313-338): the unobserved slots
    below the highest observed one, without the runs of three or more
    consecutive unobserved slots. */
module Slots {
  import opened Common

  /** `set(range(SLOT_START, 2049)) - empty`: the slots a drive was seen in. */
  function Observed(empty: set<int>, slotStart: int): set<int> {
    set x | slotStart <= x < SlotEnd && x !in empty
  }

  /** max(full), for a set of slots from `lo` up: the highest member not
      above `x`, or lo - 1 when there is none. */
  function Top(full: set<int>, lo: int, x: int): (m: int)
    requires lo - 1 <= x
    ensures lo - 1 <= m <= x
    ensures m >= lo ==> m in full
    ensures forall y :: m < y <= x ==> y !in full
    decreases x - lo
  {
    if x < lo then lo - 1 else if x in full then x else Top(full, lo, x - 1)
  }

  lemma TopIsMax(full: set<int>, lo: int, x: int)
    requires lo - 1 <= x
    requires forall y :: y in full ==> lo <= y <= x
    ensures full != {} ==> Top(full, lo, x) in full
    ensures forall y :: y in full ==> y <= Top(full, lo, x)
  {
    if Top(full, lo, x) < lo {
      assert forall y :: y !in full;
      assert full == {};
    }
  }

  predicate Increasing(a: seq<int>) {
    forall k, l :: 0 <= k < l < |a| ==> a[k] < a[l]
  }

  /** A slot counts as unobserved when it lies between SLOT_START and the
      highest observed slot and no drive was seen there. */
  predicate Gap(full: set<int>, lo: int, last: int, y: int) {
    lo <= y <= last && y !in full
  }

  /** `a` lists the gaps between lo and hi, each once, in ascending order. */
  ghost predicate GapList(full: set<int>, lo: int, hi: int, a: seq<int>) {
    && Increasing(a)
    && (forall k :: 0 <= k < |a| ==> Gap(full, lo, hi, a[k]))
    && (forall y :: Gap(full, lo, hi, y) ==> y in a)
  }

  /** `list(set(range(lo, hi + 1)) - full)`, in ascending order. */
  function MissingIn(full: set<int>, lo: int, hi: int): (a: seq<int>)
    ensures GapList(full, lo, hi, a)
    decreases hi - lo
  {
    if lo > hi then [] else
      var rest := MissingIn(full, lo + 1, hi);
      var a := (if lo in full then [] else [lo]) + rest;
      assert forall k :: 0 <= k < |a| ==> Gap(full, lo, hi, a[k]) by {
        forall k | 0 <= k < |a| ensures Gap(full, lo, hi, a[k]) {
          if lo !in full && k > 0 { assert a[k] == rest[k - 1]; }
        }
      }
      a
  }

  /** a[k] and a[k + 1] are consecutive slots. */
  predicate Link(a: seq<int>, k: int) {
    0 <= k && k + 1 < |a| && a[k + 1] == a[k] + 1
  }

  /** a[k] lies in a run of at least three consecutive values of `a`. */
  predicate LongAt(a: seq<int>, k: int) {
    || (Link(a, k - 2) && Link(a, k - 1))
    || (Link(a, k - 1) && Link(a, k))
    || (Link(a, k) && Link(a, k + 1))
  }

  function LongValues(a: seq<int>): set<int> {
    set k | 0 <= k < |a| && LongAt(a, k) :: a[k]
  }

  /** The elements of `a` that are not in `r`, in order. */
  function Without(a: seq<int>, r: set<int>): (w: seq<int>)
    ensures forall x :: x in w <==> x in a && x !in r
    decreases |a|
  {
    if a == [] then [] else (if a[0] in r then [] else [a[0]]) + Without(a[1..], r)
  }

  lemma {:induction false} WithoutIncreasing(a: seq<int>, r: set<int>)
    requires Increasing(a)
    ensures Increasing(Without(a, r))
    decreases |a|
  {
    if a != [] {
      WithoutIncreasing(a[1..], r);
      var w := Without(a[1..], r);
      forall l | 0 <= l < |w| ensures a[0] < w[l] {
        assert w[l] in a[1..];
      }
    }
  }

  /** list.remove(x) for a present value: drops its first occurrence. */
  function RemoveFirst(s: seq<int>, x: int): (t: seq<int>)
    requires x in s
    decreases |s|
  {
    if s[0] == x then s[1..] else [s[0]] + RemoveFirst(s[1..], x)
  }

  /** In an increasing list, removing a present value is filtering it out. */
  lemma {:induction false} RemoveFromWithout(a: seq<int>, r: set<int>, x: int)
    requires Increasing(a) && x in a && x !in r
    ensures x in Without(a, r)
    ensures RemoveFirst(Without(a, r), x) == Without(a, r + {x})
    decreases |a|
  {
    var w := Without(a[1..], r);
    if a[0] == x {
      assert x !in a[1..] by {
        forall l | 0 <= l < |a[1..]| ensures a[1..][l] != x { assert a[0] < a[l + 1]; }
      }
      WithoutSame(a[1..], r, x);
      assert Without(a, r) == [x] + w;
    } else {
      assert x in a[1..] by { var l :| 0 <= l < |a| && a[l] == x; assert a[1..][l - 1] == x; }
      assert Increasing(a[1..]) by {
        forall k, l | 0 <= k < l < |a[1..]| ensures a[1..][k] < a[1..][l] { assert a[k + 1] < a[l + 1]; }
      }
      RemoveFromWithout(a[1..], r, x);
      if a[0] in r {
        assert Without(a, r) == w;
      } else {
        assert Without(a, r) == [a[0]] + w;
        assert ([a[0]] + w)[1..] == w;
      }
    }
  }

  lemma {:induction false} WithoutSame(a: seq<int>, r: set<int>, x: int)
    requires x !in a
    ensures Without(a, r) == Without(a, r + {x})
    decreases |a|
  {
    if a != [] {
      WithoutSame(a[1..], r, x);
    }
  }

  /** a[lo..hi + 1] is a maximal run of consecutive values of length two or more. */
  predicate MaximalRun(a: seq<int>, lo: int, hi: int) {
    && 0 <= lo < hi < |a|
    && (forall t :: lo <= t < hi ==> Link(a, t))
    && !Link(a, lo - 1)
    && !Link(a, hi)
  }

  /** On a maximal run, an element lies in a run of three or more exactly
      when the run has three elements or more. */
  lemma RunLong(a: seq<int>, lo: int, hi: int, k: int)
    requires MaximalRun(a, lo, hi) && lo <= k <= hi
    ensures LongAt(a, k) <==> hi - lo >= 2
  {
    if hi - lo >= 2 {
      if k >= lo + 2 {
        assert Link(a, k - 2) && Link(a, k - 1);
      } else if k == lo + 1 {
        assert Link(a, k - 1) && Link(a, k);
      } else {
        assert Link(a, k) && Link(a, k + 1);
      }
    }
  }

  /** What the grouping loop has produced after reading a[..i]. */
  ghost predicate Grouped(a: seq<int>, i: int, blocks: seq<seq<int>>, starts: seq<int>, ends: seq<int>, bound: int) {
    && |starts| == |blocks| && |ends| == |blocks|
    && (forall m :: 0 <= m < |blocks| ==>
          MaximalRun(a, starts[m], ends[m]) && ends[m] < i && blocks[m] == a[starts[m]..ends[m] + 1])
    && (forall m, n :: 0 <= m < n < |blocks| ==> ends[m] < starts[n])
    && (forall m :: 0 <= m < |blocks| ==> ends[m] < bound)
    && (forall k :: 0 <= k < bound && Linked(a, k) ==> Covered(starts, ends, k))
  }

  /** a[k] is consecutive with one of its neighbours in the list. */
  predicate Linked(a: seq<int>, k: int) {
    Link(a, k) || Link(a, k - 1)
  }

  /** Position k lies inside one of the recorded blocks. */
  ghost predicate Covered(starts: seq<int>, ends: seq<int>, k: int) {
    exists m :: 0 <= m < |starts| && m < |ends| && starts[m] <= k <= ends[m]
  }

  /** The enumerate loop of detect_empty_slots: every maximal run of two or
      more consecutive values becomes a block, in order. */
  method GroupRuns(a: seq<int>) returns (blocks: seq<seq<int>>, ghost starts: seq<int>, ghost ends: seq<int>)
    ensures Grouped(a, |a|, blocks, starts, ends, |a|)
  {
    var prevMatched := false;
    blocks := [];
    var block: seq<int> := [];
    starts, ends := [], [];
    ghost var s := 0;
    ghost var bound := 0;
    var i := 0;
    while i < |a|
      invariant 0 <= i <= |a|
      invariant prevMatched <==> i > 0 && Link(a, i - 1)
      invariant prevMatched ==> 0 <= s < i && block == a[s..i] && !Link(a, s - 1)
      invariant prevMatched ==> forall t :: s <= t < i ==> Link(a, t)
      invariant !prevMatched ==> block == []
      invariant bound == if prevMatched then s else i
      invariant Grouped(a, i, blocks, starts, ends, bound)
    {
      var slot := a[i];
      if i + 1 < |a| && a[i + 1] == slot + 1 {
        if !prevMatched {
          s := i;
        }
        prevMatched := true;
        block := block + [slot];
        GroupedLater(a, i, blocks, starts, ends, s);
        bound := s;
      } else if prevMatched && a[i - 1] == slot - 1 {
        prevMatched := false;
        block := block + [slot];
        CloseBlock(a, i, blocks, starts, ends, s);
        blocks := blocks + [block];
        starts, ends := starts + [s], ends + [i];
        block := [];
        bound := i + 1;
      } else {
        SkipAlone(a, i, blocks, starts, ends);
        bound := i + 1;
      }
      i := i + 1;
    }
  }

  lemma GroupedLater(a: seq<int>, i: int, blocks: seq<seq<int>>, starts: seq<int>, ends: seq<int>, bound: int)
    requires Grouped(a, i, blocks, starts, ends, bound)
    ensures Grouped(a, i + 1, blocks, starts, ends, bound)
  {
  }

  /** The run a[s..i + 1] ends at i: it becomes the next block. */
  lemma CloseBlock(a: seq<int>, i: int, blocks: seq<seq<int>>, starts: seq<int>, ends: seq<int>, s: int)
    requires 0 <= s < i < |a| && !Link(a, i) && !Link(a, s - 1)
    requires forall t :: s <= t < i ==> Link(a, t)
    requires Grouped(a, i, blocks, starts, ends, s)
    ensures Grouped(a, i + 1, blocks + [a[s..i + 1]], starts + [s], ends + [i], i + 1)
  {
    var blocks', starts', ends' := blocks + [a[s..i + 1]], starts + [s], ends + [i];
    assert MaximalRun(a, s, i);
    forall k | 0 <= k < i + 1 && Linked(a, k)
      ensures Covered(starts', ends', k)
    {
      if k >= s {
        assert starts'[|blocks|] <= k <= ends'[|blocks|];
      } else {
        assert Covered(starts, ends, k);
        var m :| 0 <= m < |starts| && m < |ends| && starts[m] <= k <= ends[m];
        assert starts'[m] == starts[m] && ends'[m] == ends[m];
      }
    }
  }

  /** A value with no consecutive neighbour belongs to no block. */
  lemma SkipAlone(a: seq<int>, i: int, blocks: seq<seq<int>>, starts: seq<int>, ends: seq<int>)
    requires 0 <= i < |a| && !Link(a, i) && !Link(a, i - 1)
    requires Grouped(a, i, blocks, starts, ends, i)
    ensures Grouped(a, i + 1, blocks, starts, ends, i + 1)
  {
  }

  /** x is a value of one of the first j blocks that are longer than two. */
  ghost predicate InLongBlock(blocks: seq<seq<int>>, j: int, x: int) {
    exists m :: 0 <= m < j && m < |blocks| && |blocks[m]| > 2 && x in blocks[m]
  }

  /** The second loop of detect_empty_slots: the values of every block longer
      than two are removed from the list. */
  method RemoveLongRuns(a: seq<int>, blocks: seq<seq<int>>, ghost starts: seq<int>, ghost ends: seq<int>)
    returns (nc: seq<int>)
    requires Increasing(a) && Grouped(a, |a|, blocks, starts, ends, |a|)
    ensures nc == Without(a, LongValues(a))
  {
    nc := a;
    ghost var removed: set<int> := {};
    WithoutNothing(a);
    var j := 0;
    while j < |blocks|
      invariant 0 <= j <= |blocks|
      invariant nc == Without(a, removed)
      invariant forall x :: x in removed <==> InLongBlock(blocks, j, x)
    {
      if |blocks[j]| > 2 {
        BlockFresh(a, blocks, starts, ends, j, removed);
        nc, removed := RemoveBlock(a, nc, blocks[j], removed);
      }
      forall x ensures x in removed <==> InLongBlock(blocks, j + 1, x) {
        if InLongBlock(blocks, j + 1, x) && !InLongBlock(blocks, j, x) {
          var m :| 0 <= m < j + 1 && m < |blocks| && |blocks[m]| > 2 && x in blocks[m];
          assert m == j;
        }
      }
      j := j + 1;
    }
    RemovedAreLong(a, blocks, starts, ends, removed);
  }

  /** The inner loop: `for slot in block: non_continuous.remove(slot)`. */
  method RemoveBlock(a: seq<int>, nc: seq<int>, block: seq<int>, ghost removed: set<int>)
    returns (nc': seq<int>, ghost removed': set<int>)
    requires Increasing(a) && Increasing(block) && nc == Without(a, removed)
    requires forall t :: 0 <= t < |block| ==> block[t] in a && block[t] !in removed
    ensures nc' == Without(a, removed')
    ensures forall x :: x in removed' <==> x in removed || x in block
  {
    nc', removed' := nc, removed;
    var t := 0;
    while t < |block|
      invariant 0 <= t <= |block|
      invariant nc' == Without(a, removed')
      invariant forall x :: x in removed' <==> x in removed || x in block[..t]
    {
      var slot := block[t];
      NextOfBlock(block, t, removed, removed');
      RemoveFromWithout(a, removed', slot);
      nc' := RemoveFirst(nc', slot);
      removed' := removed' + {slot};
      t := t + 1;
    }
    assert block[..t] == block;
  }

  /** The next value of an ascending block has not been removed yet. */
  lemma NextOfBlock(block: seq<int>, t: int, removed: set<int>, r: set<int>)
    requires Increasing(block) && 0 <= t < |block| && block[t] !in removed
    requires forall x :: x in r <==> x in removed || x in block[..t]
    ensures block[t] !in r
    ensures forall x :: x in r + {block[t]} <==> x in removed || x in block[..t + 1]
  {
    assert block[t] !in block[..t] by {
      forall u | 0 <= u < t ensures block[u] != block[t] { assert block[u] < block[t]; }
    }
    assert block[..t + 1] == block[..t] + [block[t]];
    forall x ensures x in r + {block[t]} <==> x in removed || x in block[..t + 1] {
      assert x in block[..t + 1] <==> x in block[..t] || x == block[t];
    }
  }

  lemma {:induction false} WithoutNothing(a: seq<int>)
    ensures Without(a, {}) == a
    decreases |a|
  {
    if a != [] {
      WithoutNothing(a[1..]);
    }
  }

  /** Block j is ascending, and its values are in `a` and in no earlier block. */
  lemma BlockFresh(a: seq<int>, blocks: seq<seq<int>>, starts: seq<int>, ends: seq<int>,
                   j: int, before: set<int>)
    requires Increasing(a) && Grouped(a, |a|, blocks, starts, ends, |a|)
    requires 0 <= j < |blocks|
    requires forall x :: x in before <==> InLongBlock(blocks, j, x)
    ensures Increasing(blocks[j])
    ensures forall t :: 0 <= t < |blocks[j]| ==> blocks[j][t] in a && blocks[j][t] !in before
  {
    forall t, u | 0 <= t < u < |blocks[j]| ensures blocks[j][t] < blocks[j][u] {
      assert blocks[j][t] == a[starts[j] + t] && blocks[j][u] == a[starts[j] + u];
    }
    forall t | 0 <= t < |blocks[j]| ensures blocks[j][t] in a && blocks[j][t] !in before {
      var p := starts[j] + t;
      assert blocks[j][t] == a[p];
    }
  }

  /** After the grouping, the values of the long blocks are the values in runs
      of three or more. */
  lemma RemovedAreLong(a: seq<int>, blocks: seq<seq<int>>, starts: seq<int>, ends: seq<int>, removed: set<int>)
    requires Increasing(a) && Grouped(a, |a|, blocks, starts, ends, |a|)
    requires forall x :: x in removed <==> InLongBlock(blocks, |blocks|, x)
    ensures removed == LongValues(a)
  {
    forall x | x in removed ensures x in LongValues(a) {
      LongBlockIsLong(a, blocks, starts, ends, x);
    }
    forall x | x in LongValues(a) ensures x in removed {
      LongIsInBlock(a, blocks, starts, ends, x);
    }
  }

  lemma LongBlockIsLong(a: seq<int>, blocks: seq<seq<int>>, starts: seq<int>, ends: seq<int>, x: int)
    requires Grouped(a, |a|, blocks, starts, ends, |a|) && InLongBlock(blocks, |blocks|, x)
    ensures x in LongValues(a)
  {
    var m :| 0 <= m < |blocks| && m < |blocks| && |blocks[m]| > 2 && x in blocks[m];
    var u :| 0 <= u < |blocks[m]| && blocks[m][u] == x;
    var k := starts[m] + u;
    assert a[k] == x;
    RunLong(a, starts[m], ends[m], k);
  }

  lemma LongIsInBlock(a: seq<int>, blocks: seq<seq<int>>, starts: seq<int>, ends: seq<int>, x: int)
    requires Grouped(a, |a|, blocks, starts, ends, |a|) && x in LongValues(a)
    ensures InLongBlock(blocks, |blocks|, x)
  {
    var k :| 0 <= k < |a| && LongAt(a, k) && a[k] == x;
    assert Linked(a, k);
    assert Covered(starts, ends, k);
    var m :| 0 <= m < |starts| && m < |ends| && starts[m] <= k <= ends[m];
    RunLong(a, starts[m], ends[m], k);
    assert blocks[m][k - starts[m]] == x;
  }

  /** The reference reading of detect_empty_slots: the unobserved slots from
      SLOT_START up to the highest observed slot, ascending, without those in
      a run of three or more; nothing when no slot was observed. */
  function EmptySlots(empty: set<int>, slotStart: int): seq<int> {
    var full := Observed(empty, slotStart);
    if full == {} then []
    else
      var a := MissingIn(full, slotStart, Top(full, slotStart, SlotEnd - 1));
      Without(a, LongValues(a))
  }

  method DetectEmptySlots(empty: set<int>, slotStart: int) returns (r: seq<int>)
    ensures r == EmptySlots(empty, slotStart)
  {
    var full := set x | slotStart <= x < SlotEnd && x !in empty;
    var nonContinuous: seq<int> := [];
    if full != {} {
      var last := Top(full, slotStart, SlotEnd - 1);
      nonContinuous := MissingIn(full, slotStart, last);
      var blocks, starts, ends := GroupRuns(nonContinuous);
      nonContinuous := RemoveLongRuns(nonContinuous, blocks, starts, ends);
    }
    // sorted() of a list that is already ascending (SlotsAscending).
    r := nonContinuous;
  }

  /** A gap that no three consecutive gaps contain. */
  predicate Kept(full: set<int>, lo: int, last: int, y: int) {
    && Gap(full, lo, last, y)
    && !(Gap(full, lo, last, y - 2) && Gap(full, lo, last, y - 1))
    && !(Gap(full, lo, last, y - 1) && Gap(full, lo, last, y + 1))
    && !(Gap(full, lo, last, y + 1) && Gap(full, lo, last, y + 2))
  }

  /** In the list of gaps, neighbours in the list are consecutive exactly
      when the slot next to a gap is itself a gap. */
  lemma LinkIsGap(full: set<int>, lo: int, hi: int, a: seq<int>, k: int)
    requires GapList(full, lo, hi, a) && 0 <= k < |a|
    ensures Link(a, k) <==> Gap(full, lo, hi, a[k] + 1)
    ensures Link(a, k - 1) <==> Gap(full, lo, hi, a[k] - 1)
  {
    assert Gap(full, lo, hi, a[k]);
    if k + 1 < |a| { assert Gap(full, lo, hi, a[k + 1]); }
    if k >= 1 { assert Gap(full, lo, hi, a[k - 1]); }
    if Gap(full, lo, hi, a[k] + 1) {
      var l :| 0 <= l < |a| && a[l] == a[k] + 1;
      assert k < l;
      assert a[k] < a[k + 1] <= a[l];
    }
    if Gap(full, lo, hi, a[k] - 1) {
      var l :| 0 <= l < |a| && a[l] == a[k] - 1;
      assert l < k;
      assert a[l] <= a[k - 1] < a[k];
    }
  }

  /** The three windows of LongAt, read as slots. */
  lemma LongAtIsKept(full: set<int>, lo: int, hi: int, a: seq<int>, k: int)
    requires GapList(full, lo, hi, a) && 0 <= k < |a|
    ensures Gap(full, lo, hi, a[k])
    ensures LongAt(a, k) <==> !Kept(full, lo, hi, a[k])
  {
    assert Gap(full, lo, hi, a[k]);
    LinkIsGap(full, lo, hi, a, k);
    if k + 1 < |a| { LinkIsGap(full, lo, hi, a, k + 1); }
    if k >= 1 { LinkIsGap(full, lo, hi, a, k - 1); }
    if Gap(full, lo, hi, a[k] + 1) && Gap(full, lo, hi, a[k] + 2) {
      assert Link(a, k);
    }
    if Gap(full, lo, hi, a[k] - 1) && Gap(full, lo, hi, a[k] - 2) {
      assert Link(a, k - 1);
    }
  }

  /** Filtering the long runs out of a gap list keeps exactly the Kept slots. */
  lemma KeptIff(full: set<int>, lo: int, hi: int, a: seq<int>, y: int)
    requires GapList(full, lo, hi, a)
    ensures y in Without(a, LongValues(a)) <==> Kept(full, lo, hi, y)
  {
    if Gap(full, lo, hi, y) {
      var k :| 0 <= k < |a| && a[k] == y;
      LongAtIsKept(full, lo, hi, a, k);
      if y in LongValues(a) {
        var k' :| 0 <= k' < |a| && LongAt(a, k') && a[k'] == y;
        assert k' == k;
      }
    }
  }

  /** The slot-level statement of detect_empty_slots: with `last` the highest
      observed slot, a slot is returned exactly when it is a gap and no three
      consecutive gaps contain it; the list is ascending; nothing is returned
      when no slot was observed. */
  lemma EmptySlotsMembers(empty: set<int>, slotStart: int, y: int)
    ensures Increasing(EmptySlots(empty, slotStart))
    ensures Observed(empty, slotStart) == {} ==> EmptySlots(empty, slotStart) == []
    ensures Observed(empty, slotStart) != {} ==>
      && Top(Observed(empty, slotStart), slotStart, SlotEnd - 1) in Observed(empty, slotStart)
      && (forall z :: z in Observed(empty, slotStart) ==> z <= Top(Observed(empty, slotStart), slotStart, SlotEnd - 1))
      && (y in EmptySlots(empty, slotStart) <==>
            Kept(Observed(empty, slotStart), slotStart, Top(Observed(empty, slotStart), slotStart, SlotEnd - 1), y))
  {
    var full := Observed(empty, slotStart);
    if full != {} {
      var last := Top(full, slotStart, SlotEnd - 1);
      TopIsMax(full, slotStart, SlotEnd - 1);
      var a := MissingIn(full, slotStart, last);
      WithoutIncreasing(a, LongValues(a));
      KeptIff(full, slotStart, last, a, y);
    }
  }

  /** sorted() at the end of detect_empty_slots returns the list unchanged:
      it is already ascending. */
  lemma SlotsAscending(empty: set<int>, slotStart: int)
    ensures Increasing(EmptySlots(empty, slotStart))
  {
    EmptySlotsMembers(empty, slotStart, slotStart);
  }

  /** An ascending list of values between lo and hi has at most
      hi - lo + 1 elements. */
  lemma {:induction false} IncreasingWithin(w: seq<int>, lo: int, hi: int)
    requires Increasing(w) && forall i :: 0 <= i < |w| ==> lo <= w[i] <= hi
    ensures w != [] ==> |w| <= hi - lo + 1
    decreases |w|
  {
    if w != [] {
      var t := w[1..];
      assert forall i :: 0 <= i < |t| ==> w[0] < t[i] by {
        forall i | 0 <= i < |t| ensures w[0] < t[i] { assert t[i] == w[i + 1]; }
      }
      assert Increasing(t) by {
        forall i, j | 0 <= i < j < |t| ensures t[i] < t[j] { assert w[i + 1] < w[j + 1]; }
      }
      assert lo <= w[0];
      IncreasingWithin(t, w[0] + 1, hi);
    }
  }

  /** An ascending list whose only value is c is [c]. */
  lemma OnlyValue(w: seq<int>, c: int)
    requires Increasing(w) && forall y :: y in w <==> y == c
    ensures w == [c]
  {
    assert c in w && w[0] in w;
    forall i | 0 <= i < |w| ensures c <= w[i] <= c { assert w[i] in w; }
    IncreasingWithin(w, c, c);
  }

  /** The highest observed slot, when it is known. */
  lemma HighestObserved(empty: set<int>, slotStart: int, m: int)
    requires m in Observed(empty, slotStart)
    requires forall z :: z in Observed(empty, slotStart) ==> z <= m
    ensures Top(Observed(empty, slotStart), slotStart, SlotEnd - 1) == m
  {
    TopIsMax(Observed(empty, slotStart), slotStart, SlotEnd - 1);
  }

  /** Slots 0-4 and 8-10 observed: the gap 5-7 is three long and is not
      reported, and nothing above 10 counts. */
  lemma GapOfThreeNotReported(empty: set<int>)
    requires Observed(empty, 0) == {0, 1, 2, 3, 4, 8, 9, 10}
    ensures EmptySlots(empty, 0) == []
  {
    HighestObserved(empty, 0, 10);
    var w := EmptySlots(empty, 0);
    if w != [] {
      EmptySlotsMembers(empty, 0, w[0]);
      NoneKept(empty, w[0]);
    }
  }

  lemma NoneKept(empty: set<int>, y: int)
    requires Observed(empty, 0) == {0, 1, 2, 3, 4, 8, 9, 10}
    ensures !Kept(Observed(empty, 0), 0, 10, y)
  {
    assert forall z :: !Kept({0, 1, 2, 3, 4, 8, 9, 10}, 0, 10, z);
  }

  /** Slots 0, 1 and 3-10 observed: the single gap at 2 is reported. */
  lemma SingleGapReported(empty: set<int>)
    requires Observed(empty, 0) == {0, 1, 3, 4, 5, 6, 7, 8, 9, 10}
    ensures EmptySlots(empty, 0) == [2]
  {
    HighestObserved(empty, 0, 10);
    var w := EmptySlots(empty, 0);
    forall y ensures y in w <==> y == 2 {
      EmptySlotsMembers(empty, 0, y);
      OnlyTwoKept(empty, y);
    }
    EmptySlotsMembers(empty, 0, 0);
    OnlyValue(w, 2);
  }

  lemma OnlyTwoKept(empty: set<int>, y: int)
    requires Observed(empty, 0) == {0, 1, 3, 4, 5, 6, 7, 8, 9, 10}
    ensures Kept(Observed(empty, 0), 0, 10, y) <==> y == 2
  {
    assert forall z :: Kept({0, 1, 3, 4, 5, 6, 7, 8, 9, 10}, 0, 10, z) <==> z == 2;
  }

  /** Slots 0 and 3 observed: a gap of two is reported in full. */
  lemma GapOfTwoReported(empty: set<int>)
    requires Observed(empty, 0) == {0, 3}
    ensures EmptySlots(empty, 0) == [1, 2]
  {
    HighestObserved(empty, 0, 3);
    var w := EmptySlots(empty, 0);
    forall y ensures y in w <==> y == 1 || y == 2 {
      EmptySlotsMembers(empty, 0, y);
      PairKept(empty, y);
    }
    SlotsAscending(empty, 0);
    TwoValues(w, 1, 2);
  }

  /** An ascending list whose only values are a and a + 1 is [a, a + 1]. */
  lemma TwoValues(w: seq<int>, a: int, b: int)
    requires b == a + 1 && Increasing(w) && forall y :: y in w <==> y == a || y == b
    ensures w == [a, b]
  {
    assert a in w && b in w;
    forall i | 0 <= i < |w| ensures a <= w[i] <= b { assert w[i] in w; }
    IncreasingWithin(w, a, b);
    var i :| 0 <= i < |w| && w[i] == a;
    var j :| 0 <= j < |w| && w[j] == b;
    assert |w| == 2;
    assert w[0] in w && w[1] in w;
  }

  lemma PairKept(empty: set<int>, y: int)
    requires Observed(empty, 0) == {0, 3}
    ensures Kept(Observed(empty, 0), 0, 3, y) <==> y == 1 || y == 2
  {
    assert forall z :: Kept({0, 3}, 0, 3, z) <==> z == 1 || z == 2;
  }
}
