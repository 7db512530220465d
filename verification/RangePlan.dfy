/** Cutting the archive among workers: contiguous ranges of the offset-sorted issuers, balanced on
    uncompressed bytes. */
module RangePlan {
  import opened Sequences
  import opened Sorting
  import opened Wrappers

  datatype Member = Member(cik: string, offset: nat, bytes: nat)

  predicate OffsetLeq(a: Member, b: Member) {
    a.offset <= b.offset
  }

  function Bytes(ms: seq<Member>): nat {
    if ms == [] then 0 else Bytes(ms[..|ms| - 1]) + ms[|ms| - 1].bytes
  }

  function Largest(ms: seq<Member>): nat {
    if ms == [] then 0
    else
      var before, last := Largest(ms[..|ms| - 1]), ms[|ms| - 1].bytes;
      if before < last then last else before
  }

  function Max(a: nat, b: nat): nat { if a < b then b else a }

  lemma {:induction false} BytesAppend(a: seq<Member>, b: seq<Member>)
    ensures Bytes(a + b) == Bytes(a) + Bytes(b)
  {
    if b == [] {
      assert a + b == a;
    } else {
      BytesAppend(a, b[..|b| - 1]);
      assert (a + b)[..|a + b| - 1] == a + b[..|b| - 1];
    }
  }

  lemma {:induction false} BytesInserted(x: Member, ms: seq<Member>)
    ensures Bytes(Insert(OffsetLeq, x, ms)) == x.bytes + Bytes(ms)
  {
    BytesOne(x);
    if ms == [] || OffsetLeq(x, ms[0]) {
      BytesAppend([x], ms);
      assert ms == [] ==> [x] + ms == [x];
    } else {
      BytesInserted(x, ms[1..]);
      BytesOne(ms[0]);
      BytesAppend([ms[0]], Insert(OffsetLeq, x, ms[1..]));
      BytesAppend([ms[0]], ms[1..]);
      assert ms == [ms[0]] + ms[1..];
    }
  }

  lemma BytesOne(x: Member)
    ensures Bytes([x]) == x.bytes
  {
    assert [x][..0] == [];
  }

  lemma {:induction false} BytesSorted(ms: seq<Member>)
    ensures Bytes(Sort(OffsetLeq, ms)) == Bytes(ms)
  {
    if ms != [] {
      BytesSorted(ms[1..]);
      BytesInserted(ms[0], Sort(OffsetLeq, ms[1..]));
      BytesOne(ms[0]);
      BytesAppend([ms[0]], ms[1..]);
      assert ms == [ms[0]] + ms[1..];
    }
  }

  lemma {:induction false} LargestBounds(ms: seq<Member>, i: nat)
    requires i < |ms|
    ensures ms[i].bytes <= Largest(ms)
  {
    if i < |ms| - 1 { LargestBounds(ms[..|ms| - 1], i); }
  }

  /** It is the size of some member, unless there is none. */
  lemma {:induction false} LargestIsMember(ms: seq<Member>)
    ensures if ms == [] then Largest(ms) == 0 else exists m :: m in ms && m.bytes == Largest(ms)
  {
    if |ms| == 1 {
      assert ms[0] in ms && Largest(ms[..0]) == 0;
    } else if |ms| > 1 {
      var front, last := ms[..|ms| - 1], ms[|ms| - 1];
      LargestIsMember(front);
      var m :| m in front && m.bytes == Largest(front);
      assert m in ms && last in ms;
    }
  }

  /** A closed range reaches the share, and does so only with its last member. */
  predicate Closed(range: seq<Member>, per: nat, largest: nat) {
    range != [] && per <= Bytes(range) < per + largest && Bytes(range[..|range| - 1]) < per
  }

  /** `n` times `per`. */
  function Times(n: nat, per: nat): nat {
    if n == 0 then 0 else Times(n - 1, per) + per
  }

  lemma {:induction false} TimesIs(n: nat, per: nat)
    ensures Times(n, per) == n * per
  {
    if n > 0 {
      TimesIs(n - 1, per);
      assert n * per == (n - 1) * per + per;
    }
  }

  /** An equal part of the bytes, rounded down, but at least one. */
  function Share(total: nat, workers: nat): (per: nat)
    requires 0 < workers
    ensures 1 <= per && (workers <= total ==> workers * per <= total < workers * (per + 1))
    ensures total < workers ==> per == 1
  {
    Max(total / workers, 1)
  }

  lemma {:induction false} TimesGrows(n: nat, a: nat, b: nat)
    requires a <= b
    ensures Times(n, a) <= Times(n, b)
  {
    if n > 0 { TimesGrows(n - 1, a, b); }
  }

  lemma ShareBounds(total: nat, workers: nat)
    requires 0 < workers
    ensures total < Times(workers, Share(total, workers) + 1)
  {
    var per := total / workers;
    assert total < workers * (per + 1);
    TimesIs(workers, per + 1);
    TimesGrows(workers, per + 1, Share(total, workers) + 1);
  }

  lemma {:induction false} TimesSplit(n: nat, per: nat)
    ensures Times(n, per + 1) == Times(n, per) + n
  {
    if n > 0 { TimesSplit(n - 1, per); }
  }

  /** None is empty, there are at most `workers`, every range but the last carries at least the share, and every
      range but the last worker's would not without its last member. */
  ghost predicate Prompt(plan: seq<seq<Member>>, workers: nat, per: nat) {
    && |plan| <= workers && (forall i | 0 <= i < |plan| :: plan[i] != [])
    && (forall i | 0 <= i < |plan| - 1 :: per <= Bytes(plan[i]))
    && (forall i | 0 <= i < |plan| && i < workers - 1 :: Bytes(plan[i][..|plan[i]| - 1]) < per)
  }

  /** The ranges concatenate to the sorted selection, and each carries fewer bytes than the share plus the largest
      member or the worker count. */
  ghost predicate Balanced(ordered: seq<Member>, plan: seq<seq<Member>>, workers: nat, per: nat) {
    && Flatten(plan) == ordered && Prompt(plan, workers, per)
    && (forall i | 0 <= i < |plan| :: Bytes(plan[i]) < per + Max(Largest(ordered), workers))
  }

  lemma {:induction false} BytesOfStart(ms: seq<Member>, m: nat, n: nat)
    requires m <= n <= |ms|
    ensures Bytes(ms[..m]) <= Bytes(ms[..n])
  {
    if m < n {
      BytesOfStart(ms, m, n - 1);
      assert ms[..n][..n - 1] == ms[..n - 1];
    }
  }

  lemma FirstNotLonger(one: seq<seq<Member>>, other: seq<seq<Member>>, workers: nat, per: nat)
    requires Prompt(one, workers, per) && Prompt(other, workers, per) && one != [] && other != []
    requires Flatten(one) == Flatten(other)
    ensures |one[0]| <= |other[0]|
  {
    FlattenHead(one);
    FlattenHead(other);
    if |other| == 1 {
      assert other[1..] == [];
    } else {
      assert Bytes(one[0][..|one[0]| - 1]) < per <= Bytes(other[0]);
      StartNotLonger(one[0], other[0], Flatten(one[1..]), Flatten(other[1..]));
    }
  }

  /** Of two starts of one list, one that is lighter even without its last member is not the longer. */
  lemma StartNotLonger(a: seq<Member>, b: seq<Member>, afterA: seq<Member>, afterB: seq<Member>)
    requires a + afterA == b + afterB && a != [] && Bytes(a[..|a| - 1]) < Bytes(b)
    ensures |a| <= |b|
  {
    var all, n, last := a + afterA, |b|, |a| - 1;
    assert all[..n] == b && all[..last] == a[..last];
    if n <= last { BytesOfStart(all, n, last); }
  }

  lemma SameFirst(one: seq<seq<Member>>, other: seq<seq<Member>>, workers: nat, per: nat)
    requires Prompt(one, workers, per) && Prompt(other, workers, per) && one != [] && other != []
    requires Flatten(one) == Flatten(other)
    ensures one[0] == other[0] && Flatten(one[1..]) == Flatten(other[1..])
  {
    FirstNotLonger(one, other, workers, per);
    FirstNotLonger(other, one, workers, per);
    FlattenHead(one);
    FlattenHead(other);
    SameStart(one[0], Flatten(one[1..]), other[0], Flatten(other[1..]));
  }

  /** There is one such plan. */
  lemma {:induction false} PlanUnique(one: seq<seq<Member>>, other: seq<seq<Member>>, workers: nat, per: nat)
    requires Prompt(one, workers, per) && Prompt(other, workers, per) && Flatten(one) == Flatten(other)
    ensures one == other
    decreases |one|
  {
    if one != [] && other != [] {
      SameFirst(one, other, workers, per);
      PromptRest(one, workers, per);
      PromptRest(other, workers, per);
      PlanUnique(one[1..], other[1..], workers - 1, per);
      Rejoined(one, other);
    } else {
      EmptyPlan(one, workers, per);
      EmptyPlan(other, workers, per);
    }
  }

  lemma Rejoined(one: seq<seq<Member>>, other: seq<seq<Member>>)
    requires one != [] && other != [] && one[0] == other[0] && one[1..] == other[1..]
    ensures one == other
  {
    assert one == [one[0]] + one[1..] && other == [other[0]] + other[1..];
  }

  lemma EmptyPlan(plan: seq<seq<Member>>, workers: nat, per: nat)
    requires Prompt(plan, workers, per)
    ensures Flatten(plan) == [] <==> plan == []
  {
    if plan != [] { assert plan[|plan| - 1] != []; }
  }

  lemma SameStart(a: seq<Member>, b: seq<Member>, c: seq<Member>, d: seq<Member>)
    requires a + b == c + d && |a| == |c|
    ensures a == c && b == d
  {
    assert a == (a + b)[..|a|] && c == (c + d)[..|c|] && b == (a + b)[|a|..] && d == (c + d)[|c|..];
  }

  lemma PromptRest(plan: seq<seq<Member>>, workers: nat, per: nat)
    requires Prompt(plan, workers, per) && plan != []
    ensures Prompt(plan[1..], workers - 1, per)
  {
    var rest := plan[1..];
    forall i | 0 <= i < |rest| ensures rest[i] == plan[i + 1] {}
  }

  /** No workers is a division by zero; otherwise the plan is balanced. */
  method PlanRanges(selected: seq<Member>, workers: nat) returns (r: Option<seq<seq<Member>>>)
    ensures r.None? <==> workers == 0
    ensures r.Some? ==> Balanced(Sort(OffsetLeq, selected), r.value, workers, Share(Bytes(selected), workers))
  {
    if workers == 0 {
      return None;
    }
    var ordered := Sort(OffsetLeq, selected);
    BytesSorted(selected);
    var per := Share(Bytes(ordered), workers);
    var ranges, current, size, i := Cut(ordered, workers, per);
    LastRange(ordered, ranges, current, workers, per);
    Planned(ordered, ranges, current, workers, per);
    r := Some(if current != [] then ranges + [current] else ranges);
  }

  lemma Planned(ordered: seq<Member>, ranges: seq<seq<Member>>, current: seq<Member>, workers: nat, per: nat)
    requires 0 < workers && Bytes(current) < per + workers
    requires CutOk(ordered, ranges, current, workers, per, |ordered|)
    ensures Balanced(ordered, if current != [] then ranges + [current] else ranges, workers, per)
  {
    assert ordered[..|ordered|] == ordered;
    RangesOk(ranges, current, workers, per, Largest(ordered));
    if current != [] { FlattenAppend(ranges, current); }
  }

  lemma RangesOk(ranges: seq<seq<Member>>, current: seq<Member>, workers: nat, per: nat, largest: nat)
    requires |ranges| < workers && forall k | 0 <= k < |ranges| :: Closed(ranges[k], per, largest)
    requires Bytes(current) < per + workers && (|ranges| < workers - 1 ==> Bytes(current) < per)
    ensures var plan := if current != [] then ranges + [current] else ranges;
      Prompt(plan, workers, per) && forall i | 0 <= i < |plan| :: Bytes(plan[i]) < per + Max(largest, workers)
  {
    var plan := if current != [] then ranges + [current] else ranges;
    forall i | 0 <= i < |plan|
      ensures plan[i] != [] && Bytes(plan[i]) < per + Max(largest, workers)
      ensures (i < |plan| - 1 ==> per <= Bytes(plan[i])) && (i < workers - 1 ==> Bytes(plan[i][..|plan[i]| - 1]) < per)
    {
      if i < |ranges| { assert plan[i] == ranges[i] && Closed(ranges[i], per, largest); }
    }
  }

  /** What the loop keeps: the closed ranges hold at least their share each, and an open one is below
      it unless it belongs to the last worker. */
  ghost predicate CutOk(ordered: seq<Member>, ranges: seq<seq<Member>>, current: seq<Member>, workers: nat, per: nat,
      i: nat) {
    && i <= |ordered| && Flatten(ranges) + current == ordered[..i]
    && |ranges| <= workers - 1
    && (forall k | 0 <= k < |ranges| :: Closed(ranges[k], per, Largest(ordered)))
    && Times(|ranges|, per) <= Bytes(Flatten(ranges))
    && (|ranges| < workers - 1 ==> Bytes(current) < per)
  }

  method Cut(ordered: seq<Member>, workers: nat, per: nat)
      returns (ranges: seq<seq<Member>>, current: seq<Member>, size: nat, i: nat)
    requires 0 < workers && 0 < per
    ensures i == |ordered| && CutOk(ordered, ranges, current, workers, per, i)
  {
    ranges, current, size, i := [], [], 0, 0;
    while i < |ordered|
      invariant CutOk(ordered, ranges, current, workers, per, i)
      invariant size == Bytes(current)
    {
      CutStep(ordered, ranges, current, workers, per, i);
      current := current + [ordered[i]];
      size := size + ordered[i].bytes;
      if size >= per && |ranges| < workers - 1 {
        ranges := ranges + [current];
        current, size := [], 0;
      }
      i := i + 1;
    }
  }

  lemma CutStep(ordered: seq<Member>, ranges: seq<seq<Member>>, current: seq<Member>, workers: nat, per: nat, i: nat)
    requires 0 < workers && 0 < per && i < |ordered| && CutOk(ordered, ranges, current, workers, per, i)
    ensures var more := current + [ordered[i]];
      && Bytes(more) == Bytes(current) + ordered[i].bytes
      && if Bytes(more) >= per && |ranges| < workers - 1 then CutOk(ordered, ranges + [more], [], workers, per, i + 1)
         else CutOk(ordered, ranges, more, workers, per, i + 1)
  {
    var more := current + [ordered[i]];
    assert more[..|current|] == current;
    assert ordered[..i + 1] == ordered[..i] + [ordered[i]];
    assert Flatten(ranges) + more == ordered[..i + 1];
    LargestBounds(ordered, i);
    if Bytes(more) >= per && |ranges| < workers - 1 {
      FlattenAppend(ranges, more);
      BytesAppend(Flatten(ranges), more);
      assert Closed(more, per, Largest(ordered));
    }
  }

  /** When all ranges but one hold their share, less than a share and the number of workers is left. */
  lemma LastShare(total: nat, held: nat, done: nat, per: nat)
    requires per == Share(total, done + 1) && Times(done, per) <= held
    ensures total < held + per + (done + 1)
  {
    ShareBounds(total, done + 1);
    TimesSplit(done + 1, per);
  }

  lemma LastRange(ordered: seq<Member>, ranges: seq<seq<Member>>, current: seq<Member>, workers: nat, per: nat)
    requires 0 < workers && per == Share(Bytes(ordered), workers)
    requires CutOk(ordered, ranges, current, workers, per, |ordered|)
    ensures Bytes(current) < per + workers
  {
    assert ordered[..|ordered|] == ordered;
    BytesAppend(Flatten(ranges), current);
    if |ranges| == workers - 1 { LastShare(Bytes(ordered), Bytes(Flatten(ranges)), |ranges|, per); }
  }

  /** The plan is in offset order, so each worker reads its slice of the archive forward, and issuers
      at the same offset keep their order. */
  lemma OrderedByOffset(selected: seq<Member>, offset: nat)
    ensures forall i, j | 0 <= i < j < |Sort(OffsetLeq, selected)| ::
              Sort(OffsetLeq, selected)[i].offset <= Sort(OffsetLeq, selected)[j].offset
    ensures multiset(Sort(OffsetLeq, selected)) == multiset(selected)
    ensures Keeping((m: Member) => m.offset == offset, Sort(OffsetLeq, selected)) ==
            Keeping((m: Member) => m.offset == offset, selected)
  {
    SortSorts(OffsetLeq, selected);
    SortKeeps(OffsetLeq, selected);
    SortStable(OffsetLeq, (m: Member) => m.offset == offset, selected);
  }
}
