/** What a crash can leave behind, and what starting over makes of it. */
module Recovery {
  import opened Publication
  import opened Publishing
  import opened Wrappers

  lemma {:induction false} RunJoins(c: Codec, s: System, one: seq<Action>, other: seq<Action>)
    ensures Run(c, s, one + other) == Run(c, Run(c, s, one), other)
    decreases |one|
  {
    if one == [] {
      assert one + other == other;
    } else {
      assert (one + other)[0] == one[0] && (one + other)[1..] == one[1..] + other;
      RunJoins(c, Apply(c, s, one[0]), one[1..], other);
    }
  }

  // ---------------------------------------------------------------- every crash point of one publisher

  /** A publisher that dies after putting and reading back `n` objects. */
  function CrashAfter(i: nat, n: nat): seq<Action> {
    [Begin(i)] + (Pins(i, n) + [Crash(i)])
  }

  /** A publisher that dies between putting object `n` and reading it back. */
  function CrashUnread(i: nat, n: nat): seq<Action> {
    [Begin(i)] + (Pins(i, n) + [Put(i, Returned), Crash(i)])
  }

  /** A publisher on its own, strict or not, about to begin on a store that has room for its objects and with
      verified parents. */
  ghost predicate Ready(c: Codec, s: System, i: nat) {
    && i < |s.pubs| && s.pubs[i].status == Idle && Closed(c, s.store)
    && Justified(c, s.store, s.pubs[i].plan) && Fits(s.store, s.pubs[i].plan, 0)
  }

  ghost predicate RefsResolve(c: Codec, store: Store, body: string) {
    forall r | r in c.refs(body) :: Resolves(c, store, r)
  }

  lemma Begun(c: Codec, s: System, i: nat, n: nat, rest: seq<Action>)
    requires Ready(c, s, i) && n <= |s.pubs[i].plan.writes|
    ensures var t := Run(c, Apply(c, s, Begin(i)), Pins(i, n));
      && PinnedAlone(s.store, t, i, s.pubs[i].plan, n)
      && Run(c, s, [Begin(i)] + (Pins(i, n) + rest)) == Run(c, t, rest)
  {
    var s1 := Apply(c, s, Begin(i));
    RunFirst(c, s, Begin(i), Pins(i, n) + rest);
    RunJoins(c, s1, Pins(i, n), rest);
    assert s.pubs[i].plan.writes[..0] == [];
    PinsLeaveAfter(c, s1, i, s.store, s.pubs[i].plan, 0, n, n);
  }

  lemma CrashStore(c: Codec, s: System, i: nat, n: nat)
    requires Ready(c, s, i) && n <= |s.pubs[i].plan.writes|
    ensures Run(c, s, CrashAfter(i, n)).store == After(s.store, s.pubs[i].plan.writes[..n])
  {
    Begun(c, s, i, n, [Crash(i)]);
    var t := Run(c, Apply(c, s, Begin(i)), Pins(i, n));
    assert [Crash(i)] == [Crash(i)] + [];
    RunFirst(c, t, Crash(i), []);
  }

  /** One more object keeps a closed store closed exactly when what it refers to then resolves. */
  lemma ClosedStep(c: Codec, store: Store, writes: seq<Write>, i: nat)
    requires i < |writes| && NoConflict(store, writes, 0) && Closed(c, After(store, writes[..i]))
    ensures Closed(c, After(store, writes[..i + 1])) <==> RefsResolve(c, After(store, writes[..i + 1]), writes[i].body)
  {
    NoConflictPrefix(store, writes, i + 1);
    AfterMeans(store, writes, i + 1);
    TakeOne(store, writes, i);
    var before, after := After(store, writes[..i]), After(store, writes[..i + 1]);
    assert Stored(after, writes[i]);
    if RefsResolve(c, after, writes[i].body) {
      forall k, r | k in after && r in c.refs(after[k]) ensures Resolves(c, after, r) {
        if k in before { assert Resolves(c, before, r); }
      }
    }
  }

  lemma {:induction false} ClosedUpTo(c: Codec, store: Store, writes: seq<Write>, n: nat)
    requires n <= |writes| && NoConflict(store, writes, 0) && Closed(c, store)
    requires forall j: nat | j < n :: SafeWrite(c, store, writes, j)
    ensures Closed(c, After(store, writes[..n]))
    decreases n
  {
    if n == 0 {
      assert writes[..0] == [];
    } else {
      var m := n - 1;
      ClosedUpTo(c, store, writes, m);
      assert SafeWrite(c, store, writes, m);
      ClosedStep(c, store, writes, m);
    }
  }

  /** Everything the object refers to resolves once it is stored. */
  ghost predicate SafeWrite(c: Codec, store: Store, writes: seq<Write>, j: nat)
    requires j < |writes|
  {
    RefsResolve(c, After(store, writes[..j + 1]), writes[j].body)
  }

  lemma CrashClosed(c: Codec, s: System, i: nat, n: nat)
    requires Ready(c, s, i) && n <= |s.pubs[i].plan.writes|
    requires forall j: nat | j < n :: SafeWrite(c, s.store, s.pubs[i].plan.writes, j)
    ensures Closed(c, Run(c, s, CrashAfter(i, n)).store)
  {
    CrashStore(c, s, i, n);
    FitsIsNoConflict(s.store, s.pubs[i].plan);
    ClosedUpTo(c, s.store, s.pubs[i].plan.writes, n);
  }

  lemma CrashesShow(c: Codec, s: System, i: nat, j: nat)
    requires Ready(c, s, i) && j < |s.pubs[i].plan.writes|
    requires Closed(c, Run(c, s, CrashAfter(i, j)).store) && Closed(c, Run(c, s, CrashAfter(i, j + 1)).store)
    ensures SafeWrite(c, s.store, s.pubs[i].plan.writes, j)
  {
    CrashStore(c, s, i, j);
    CrashStore(c, s, i, j + 1);
    FitsIsNoConflict(s.store, s.pubs[i].plan);
    ClosedStep(c, s.store, s.pubs[i].plan.writes, j);
  }

  /** The exact condition for a write order to be safe: no crash of the publisher leaves a dangling
      reference if and only if whatever each object refers to resolves once that object is stored. */
  lemma CrashSafeExactly(c: Codec, s: System, i: nat)
    requires Ready(c, s, i)
    ensures (forall n: nat | n <= |s.pubs[i].plan.writes| :: Closed(c, Run(c, s, CrashAfter(i, n)).store)) <==>
            (forall j: nat | j < |s.pubs[i].plan.writes| :: SafeWrite(c, s.store, s.pubs[i].plan.writes, j))
  {
    var writes := s.pubs[i].plan.writes;
    if forall j: nat | j < |writes| :: SafeWrite(c, s.store, writes, j) {
      forall n: nat | n <= |writes| ensures Closed(c, Run(c, s, CrashAfter(i, n)).store) { CrashClosed(c, s, i, n); }
    }
    if forall n: nat | n <= |writes| :: Closed(c, Run(c, s, CrashAfter(i, n)).store) {
      forall j: nat | j < |writes| ensures SafeWrite(c, s.store, writes, j) { CrashesShow(c, s, i, j); }
    }
  }

  lemma UnreadLeaves(c: Codec, s: System, i: nat, n: nat)
    requires Ready(c, s, i) && n < |s.pubs[i].plan.writes|
    ensures var t := Run(c, s, CrashUnread(i, n));
      t.store == After(s.store, s.pubs[i].plan.writes[..n + 1]) && t.pubs[i].status == Failed
  {
    var writes := s.pubs[i].plan.writes;
    Begun(c, s, i, n, [Put(i, Returned), Crash(i)]);
    var t := Run(c, Apply(c, s, Begin(i)), Pins(i, n));
    if s.pubs[i].plan.strict { StillUnused(s.store, writes, n); }
    assert [Put(i, Returned), Crash(i)] == [Put(i, Returned)] + [Crash(i)];
    RunFirst(c, t, Put(i, Returned), [Crash(i)]);
    assert [Crash(i)] == [Crash(i)] + [];
    RunFirst(c, Apply(c, t, Put(i, Returned)), Crash(i), []);
    TakeOne(s.store, writes, n);
  }

  /** Dying before the read-back leaves the same store as dying after it. */
  lemma UnreadLeavesSame(c: Codec, s: System, i: nat, n: nat)
    requires Ready(c, s, i) && n < |s.pubs[i].plan.writes|
    ensures Run(c, s, CrashUnread(i, n)).store == Run(c, s, CrashAfter(i, n + 1)).store
  {
    CrashStore(c, s, i, n + 1);
    UnreadLeaves(c, s, i, n);
  }

  /** For a manifest written first: the crash right after it leaves a closed store exactly when everything
      the manifest lists was already there, or is the manifest itself. */
  lemma ManifestFirstExactly(c: Codec, s: System, i: nat)
    requires Ready(c, s, i) && s.pubs[i].plan.writes != []
    ensures var w := s.pubs[i].plan.writes[0];
      Closed(c, Run(c, s, CrashAfter(i, 1)).store) <==> RefsResolve(c, s.store[w.key := w.body], w.body)
  {
    var writes := s.pubs[i].plan.writes;
    assert writes[..0] == [] && writes[..1] == [writes[0]] && writes[..1][..0] == [];
    CrashStore(c, s, i, 1);
    FitsIsNoConflict(s.store, s.pubs[i].plan);
    TakeOne(s.store, writes, 0);
    ClosedStep(c, s.store, writes, 0);
    var w := writes[0];
    assert w.key in s.store ==> s.store[w.key := w.body] == s.store;
    assert After(s.store, writes[..1]) == s.store[w.key := w.body];
  }

  // ---------------------------------------------------------------- starting everyone over

  /** Each of the first `n` publishers starts over in turn; one that is done is not affected. */
  function RerunAll(s: System, n: nat): seq<Action>
    requires n <= |s.pubs|
  {
    if n == 0 then [] else RerunAll(s, n - 1) + Rerun(n - 1, |s.pubs[n - 1].plan.writes|)
  }

  ghost predicate Only(actions: seq<Action>, i: nat) {
    forall a | a in actions :: a.pub == i
  }

  lemma {:induction false} PinsOnly(i: nat, n: nat)
    ensures Only(Pins(i, n), i)
  {
    if n > 0 { PinsOnly(i, n - 1); }
  }

  lemma StepLeavesOthers(c: Codec, s: System, a: Action)
    ensures |Apply(c, s, a).pubs| == |s.pubs|
    ensures forall k | 0 <= k < |s.pubs| && k != a.pub :: Apply(c, s, a).pubs[k] == s.pubs[k]
    ensures a.pub < |s.pubs| && s.pubs[a.pub].status.Done? ==> Apply(c, s, a) == s
  {
    if a.pub < |s.pubs| && s.pubs[a.pub].status.Done? && a.Crash? {
      assert WithStatus(s, a.pub, Done).pubs == s.pubs;
    }
  }

  lemma {:induction false} OthersStay(c: Codec, s: System, actions: seq<Action>, i: nat)
    requires Only(actions, i)
    ensures forall k | 0 <= k < |s.pubs| && k != i :: Run(c, s, actions).pubs[k] == s.pubs[k]
    ensures i < |s.pubs| && s.pubs[i].status.Done? ==> Run(c, s, actions) == s
    decreases |actions|
  {
    if actions != [] {
      assert actions[0] in actions;
      StepLeavesOthers(c, s, actions[0]);
      OthersStay(c, Apply(c, s, actions[0]), actions[1..], i);
    }
  }

  // ---------------------------------------------------------------- a strict publisher that died

  /** A strict publisher whose first object is already stored, and that is not past it. */
  ghost predicate Stuck(s: System, i: nat) {
    && i < |s.pubs| && s.pubs[i].plan.strict && s.pubs[i].plan.writes != []
    && s.pubs[i].plan.writes[0].key in s.store
    && s.pubs[i].status in {Idle, Failed, Pinning(0, false)}
  }

  lemma StepStaysStuck(c: Codec, s: System, i: nat, a: Action)
    requires Stuck(s, i)
    ensures Stuck(Apply(c, s, a), i)
  {
    StepExtends(c, s, a);
    StepLeavesOthers(c, s, a);
    if a.pub != i { assert Apply(c, s, a).pubs[i] == s.pubs[i]; }
  }

  ghost predicate Writes(s: System, i: nat, key: string)
    requires i < |s.pubs|
  {
    exists w | w in s.pubs[i].plan.writes :: w.key == key
  }

  /** Everyone who would write this key is stuck. */
  ghost predicate OnlyStuckWrite(s: System, key: string) {
    forall p: nat | p < |s.pubs| && Writes(s, p, key) :: Stuck(s, p)
  }

  lemma StepAddsNone(c: Codec, s: System, a: Action, key: string)
    requires key !in s.store && OnlyStuckWrite(s, key)
    ensures key !in Apply(c, s, a).store && OnlyStuckWrite(Apply(c, s, a), key)
  {
    var t := Apply(c, s, a);
    StepKeepsPlans(c, s, a);
    forall p: nat | p < |t.pubs| && Writes(t, p, key) ensures Stuck(t, p) {
      assert Writes(s, p, key);
      StepStaysStuck(c, s, p, a);
    }
    if a.pub < |s.pubs| && a.Put? && t.store != s.store { PutAddsOwn(c, s, a, key); }
  }

  lemma PutAddsOwn(c: Codec, s: System, a: Action, key: string)
    requires a.Put? && a.pub < |s.pubs| && key !in s.store && OnlyStuckWrite(s, key)
    ensures key !in Apply(c, s, a).store
  {
    var i := a.pub;
    if key in Apply(c, s, a).store {
      assert s.pubs[i].plan.writes[s.pubs[i].status.next] in s.pubs[i].plan.writes;
      assert Writes(s, i, key);
    }
  }

  /** An absent object that only stuck publishers would write is never written, whatever anyone does. */
  lemma {:induction false} NeverWritten(c: Codec, s: System, actions: seq<Action>, key: string)
    requires key !in s.store && OnlyStuckWrite(s, key)
    ensures key !in Run(c, s, actions).store
    decreases |actions|
  {
    if actions != [] {
      StepAddsNone(c, s, actions[0], key);
      NeverWritten(c, Apply(c, s, actions[0]), actions[1..], key);
    }
  }

  // ---------------------------------------------------------------- when a strict publisher can still finish

  /** The publisher has not put object `n` yet; a dead one would start over. */
  predicate NotPast(status: Status, n: nat) {
    match status
    case Idle => true
    case Failed => true
    case Pinning(next, acked) => next < n || (next == n && !acked)
    case Done => false
  }

  /** Object `k` cannot be put: its key is taken, or will be by object `j` of the same plan. */
  ghost predicate Doomed(s: System, i: nat, j: nat, k: nat) {
    && i < |s.pubs| && s.pubs[i].plan.strict && j <= k < |s.pubs[i].plan.writes|
    && s.pubs[i].plan.writes[j].key == s.pubs[i].plan.writes[k].key
    && NotPast(s.pubs[i].status, k)
    && (s.pubs[i].plan.writes[k].key in s.store || (j < k && NotPast(s.pubs[i].status, j)))
  }

  lemma StepStaysDoomed(c: Codec, s: System, i: nat, j: nat, k: nat, a: Action)
    requires Doomed(s, i, j, k)
    ensures Doomed(Apply(c, s, a), i, j, k)
  {
    StepExtends(c, s, a);
    StepLeavesOthers(c, s, a);
    if a.pub != i { assert Apply(c, s, a).pubs[i] == s.pubs[i]; }
  }

  lemma {:induction false} DoomedForGood(c: Codec, s: System, i: nat, j: nat, k: nat, actions: seq<Action>)
    requires Doomed(s, i, j, k)
    ensures Doomed(Run(c, s, actions), i, j, k)
    decreases |actions|
  {
    if actions != [] {
      StepStaysDoomed(c, s, i, j, k, actions[0]);
      DoomedForGood(c, Apply(c, s, actions[0]), i, j, k, actions[1..]);
    }
  }

  /** Some later actions, of anyone, make the publisher done. */
  ghost predicate Finishable(c: Codec, s: System, i: nat)
    requires i < |s.pubs|
  {
    exists actions :: Run(c, s, actions).pubs[i].status.Done?
  }

  /** After any history, a strict publisher that is not running, its parents verified, can be made to finish
      by some later actions, of anyone, exactly when it is done already or none of its keys is taken, nor used
      twice. */
  lemma StrictFinishesExactly(c: Codec, s: System, i: nat)
    requires i < |s.pubs| && s.pubs[i].plan.strict && s.pubs[i].status in {Idle, Failed, Done}
    requires Justified(c, s.store, s.pubs[i].plan)
    ensures Finishable(c, s, i) <==> s.pubs[i].status.Done? || Unused(s.store, s.pubs[i].plan.writes, 0)
  {
    var writes := s.pubs[i].plan.writes;
    if s.pubs[i].status.Done? {
      var nothing: seq<Action> := [];
      assert Run(c, s, nothing).pubs[i].status.Done?;
    } else if Unused(s.store, writes, 0) {
      RerunCompletes(c, s, i);
      assert Run(c, s, Rerun(i, |writes|)).pubs[i].status.Done?;
    } else {
      var j: nat, k: nat := Taken(s.store, writes);
      assert Doomed(s, i, j, k);
      forall actions ensures !Run(c, s, actions).pubs[i].status.Done? { DoomedForGood(c, s, i, j, k, actions); }
    }
  }

  lemma Taken(store: Store, writes: seq<Write>) returns (j: nat, k: nat)
    requires !Unused(store, writes, 0)
    ensures j <= k < |writes| && writes[j].key == writes[k].key && (writes[k].key in store || j < k)
  {
    if n: int :| 0 <= n < |writes| && writes[n].key in store {
      j, k := n, n;
    } else {
      j, k :| 0 <= j < k < |writes| && writes[j].key == writes[k].key;
    }
  }

  // ---------------------------------------------------------------- a strict publisher that died alone

  /** A death after `n` objects were read back, or between the next one's put and its read-back. */
  function Death(i: nat, n: nat, unread: bool): seq<Action> {
    if unread then CrashUnread(i, n) else CrashAfter(i, n)
  }

  /** How many objects are stored then. */
  function Stands(n: nat, unread: bool): nat {
    if unread then n + 1 else n
  }

  lemma DeathLeaves(c: Codec, s: System, i: nat, n: nat, unread: bool)
    requires Ready(c, s, i) && Stands(n, unread) <= |s.pubs[i].plan.writes|
    ensures var t, writes := Run(c, s, Death(i, n, unread)), s.pubs[i].plan.writes;
      && |t.pubs| == |s.pubs| && t.store == After(s.store, writes[..Stands(n, unread)])
      && t.pubs[i].plan == s.pubs[i].plan && (forall k | 0 <= k < |s.pubs| && k != i :: t.pubs[k] == s.pubs[k])
      && t.pubs[i].status == if !unread && n == |writes| then Done else Failed
  {
    PinsOnly(i, n);
    OthersStay(c, s, Death(i, n, unread), i);
    PlansNeverChange(c, s, Death(i, n, unread));
    if unread { UnreadLeaves(c, s, i, n); } else { CrashLeaves(c, s, i, n); }
  }

  lemma CrashLeaves(c: Codec, s: System, i: nat, n: nat)
    requires Ready(c, s, i) && n <= |s.pubs[i].plan.writes|
    ensures var t, writes := Run(c, s, CrashAfter(i, n)), s.pubs[i].plan.writes;
      && t.store == After(s.store, writes[..n]) && t.pubs[i].status == if n == |writes| then Done else Failed
  {
    Begun(c, s, i, n, [Crash(i)]);
    var t := Run(c, Apply(c, s, Begin(i)), Pins(i, n));
    assert [Crash(i)] == [Crash(i)] + [];
    RunFirst(c, t, Crash(i), []);
  }

  /** The objects stored at a death are the first ones, and the rest are absent. */
  lemma DeathStores(c: Codec, s: System, i: nat, m: nat)
    requires Ready(c, s, i) && s.pubs[i].plan.strict && m <= |s.pubs[i].plan.writes|
    ensures var store, writes := After(s.store, s.pubs[i].plan.writes[..m]), s.pubs[i].plan.writes;
      && Extends(s.store, store) && (forall j | 0 <= j < m :: Stored(store, writes[j]))
      && (forall j | m <= j < |writes| :: writes[j].key !in store)
  {
    FitsIsNoConflict(s.store, s.pubs[i].plan);
    NoConflictPrefix(s.store, s.pubs[i].plan.writes, m);
    AfterMeans(s.store, s.pubs[i].plan.writes, m);
  }

  /** A strict publisher that died can be made to finish, by anything anyone does later, exactly when its first
      object was not stored yet or its last read-back had returned. In particular it cannot after a death
      between the last put and its read-back, when everything is stored. */
  lemma StrictRecoversExactly(c: Codec, s: System, i: nat, n: nat, unread: bool)
    requires Ready(c, s, i) && s.pubs[i].plan.strict && Stands(n, unread) <= |s.pubs[i].plan.writes|
    ensures Finishable(c, Run(c, s, Death(i, n, unread)), i) <==>
            Stands(n, unread) == 0 || (!unread && n == |s.pubs[i].plan.writes|)
  {
    var t, writes, m := Run(c, s, Death(i, n, unread)), s.pubs[i].plan.writes, Stands(n, unread);
    DeathLeaves(c, s, i, n, unread);
    DeathStores(c, s, i, m);
    JustifiedLater(c, s.store, t.store, s.pubs[i].plan);
    StrictFinishesExactly(c, t, i);
    if m == 0 {
      assert writes[..0] == [];
    } else {
      assert Stored(t.store, writes[0]);
    }
  }

  /** Another process of the same publication: strict, the same first object, and not past it. */
  ghost predicate SamePublication(s: System, i: nat, p: nat) {
    && i < |s.pubs| && p < |s.pubs| && s.pubs[p].plan.strict
    && s.pubs[i].plan.writes != [] && s.pubs[p].plan.writes != []
    && s.pubs[p].plan.writes[0].key == s.pubs[i].plan.writes[0].key
    && s.pubs[p].status in {Idle, Failed, Pinning(0, false)}
  }

  /** So a strict publisher's manifest that was written before what it lists dangles for good after such a
      death, as long as nobody but processes of the same publication would write the object: the manifest stays
      stored and the object it lists is never there. */
  lemma DanglesForGood(c: Codec, s: System, i: nat, n: nat, unread: bool, j: nat, actions: seq<Action>)
    requires Ready(c, s, i) && s.pubs[i].plan.strict && 0 < Stands(n, unread) <= j < |s.pubs[i].plan.writes|
    requires var writes := s.pubs[i].plan.writes;
      && RefTo(c, writes[j].key, writes[j].body) in c.refs(writes[0].body)
      && forall p: nat | p < |s.pubs| && Writes(s, p, writes[j].key) :: p == i || SamePublication(s, i, p)
    ensures var t := Run(c, Run(c, s, Death(i, n, unread)), actions);
      Stored(t.store, s.pubs[i].plan.writes[0]) && !Closed(c, t.store)
  {
    var t, writes := Run(c, s, Death(i, n, unread)), s.pubs[i].plan.writes;
    DeathLeaves(c, s, i, n, unread);
    DeathStores(c, s, i, Stands(n, unread));
    assert Stored(t.store, writes[0]);
    forall p: nat | p < |t.pubs| && Writes(t, p, writes[j].key) ensures Stuck(t, p) {
      assert Writes(s, p, writes[j].key);
    }
    NeverWritten(c, t, actions, writes[j].key);
    RunExtends(c, t, actions);
    assert !Resolves(c, Run(c, t, actions).store, RefTo(c, writes[j].key, writes[j].body));
  }

  lemma {:induction false} RunExtends(c: Codec, s: System, actions: seq<Action>)
    ensures Extends(s.store, Run(c, s, actions).store)
    decreases |actions|
  {
    if actions != [] {
      StepExtends(c, s, actions[0]);
      RunExtends(c, Apply(c, s, actions[0]), actions[1..]);
    }
  }

  // ---------------------------------------------------------------- everyone starts over

  /** The store once the first `n` publishers have written everything. */
  function AfterAll(s: System, n: nat): Store
    requires n <= |s.pubs|
  {
    if n == 0 then s.store else After(AfterAll(s, n - 1), s.pubs[n - 1].plan.writes)
  }

  /** Everyone idle on a closed store, tolerant of existing objects, with plans that agree with the store and
      with each other; each one's parents verify once those before it have written, so a publisher may inherit
      from what an earlier one publishes. */
  ghost predicate Recoverable(c: Codec, s: System) {
    && Fresh(c, s) && Compatible(s) && (forall p | p in s.pubs :: !p.plan.strict)
    && forall i | 0 <= i < |s.pubs| :: Justified(c, AfterAll(s, i), s.pubs[i].plan)
  }

  lemma JustifiedLater(c: Codec, store: Store, later: Store, p: Plan)
    requires Justified(c, store, p) && Extends(store, later)
    ensures Justified(c, later, p)
  {
    forall r | r in p.inherited ensures r in p.parents || exists q :: q in p.parents && r in c.refs(later[q.key]) {
      if r !in p.parents {
        var q :| q in p.parents && r in c.refs(store[q.key]);
        assert r in c.refs(later[q.key]);
      }
    }
  }

  /** Whatever happened so far, no publisher meets another object under its keys. */
  lemma NoConflictReached(c: Codec, s: System, actions: seq<Action>, i: nat)
    requires Fresh(c, s) && Compatible(s) && i < |s.pubs|
    ensures NoConflict(Run(c, s, actions).store, s.pubs[i].plan.writes, 0)
  {
    FreshInvariant(c, s);
    RunKeepsInvariant(c, s.store, s, actions);
    PlansNeverChange(c, s, actions);
    var t, writes := Run(c, s, actions), s.pubs[i].plan.writes;
    forall j | 0 <= j < |writes| && writes[j].key in t.store ensures t.store[writes[j].key] == writes[j].body {
      var k := writes[j].key;
      if k in s.store {
        assert Stored(s.store, writes[j]);
      } else {
        var p, w := t.author[k].0, t.author[k].1;
        assert AuthoredBy(t, k, p, w);
        assert Stored(t.store, t.pubs[p].plan.writes[w]);
        assert s.pubs[p].plan.writes[w].body == writes[j].body;
      }
    }
  }

  /** Starting publisher `i` over, after any history of compatible plans, makes it done exactly when it was
      done already or its parents verify by then. */
  lemma RerunFinishes(c: Codec, s: System, actions: seq<Action>, i: nat)
    requires Fresh(c, s) && Compatible(s) && i < |s.pubs| && !s.pubs[i].plan.strict
    ensures var t := Run(c, s, actions);
      Run(c, s, actions + Rerun(i, |s.pubs[i].plan.writes|)).pubs[i].status.Done? <==>
      t.pubs[i].status.Done? || Justified(c, t.store, s.pubs[i].plan)
  {
    var t, again := Run(c, s, actions), Rerun(i, |s.pubs[i].plan.writes|);
    RunJoins(c, s, actions, again);
    PlansNeverChange(c, s, actions);
    if t.pubs[i].status.Done? {
      PinsOnly(i, |s.pubs[i].plan.writes|);
      OthersStay(c, t, again, i);
    } else {
      NoConflictReached(c, s, actions, i);
      RerunCompletes(c, t, i);
    }
  }

  ghost predicate FirstDone(s: System, n: nat) {
    n <= |s.pubs| && forall k | 0 <= k < n :: s.pubs[k].status.Done?
  }

  /** What the first `n` publishers would leave is part of any later store in which they are done. */
  lemma {:induction false} DoneHoldsAfterAll(c: Codec, s: System, actions: seq<Action>, n: nat)
    requires Fresh(c, s) && Compatible(s) && FirstDone(Run(c, s, actions), n) && n <= |s.pubs|
    ensures Extends(AfterAll(s, n), Run(c, s, actions).store)
    decreases n
  {
    FreshInvariant(c, s);
    RunKeepsInvariant(c, s.store, s, actions);
    if n > 0 {
      var t, p := Run(c, s, actions), s.pubs[n - 1].plan;
      DoneHoldsAfterAll(c, s, actions, n - 1);
      PlansNeverChange(c, s, actions);
      assert t.pubs[n - 1].status.Done? && StatusOk(c, t.store, t.pubs[n - 1]);
      AfterWithin(AfterAll(s, n - 1), t.store, p.writes);
    }
  }

  lemma {:induction false} AfterWithin(store: Store, later: Store, writes: seq<Write>)
    requires Extends(store, later) && forall w | w in writes :: Stored(later, w)
    ensures Extends(After(store, writes), later)
  {
    if writes != [] {
      AfterWithin(store, later, writes[..|writes| - 1]);
      assert Stored(later, writes[|writes| - 1]);
    }
  }

  lemma OneMoreDone(c: Codec, s: System, actions: seq<Action>, i: nat)
    requires FirstDone(s, i) && i < |s.pubs| && Only(actions, i) && Run(c, s, actions).pubs[i].status.Done?
    ensures FirstDone(Run(c, s, actions), i + 1)
  {
    OthersStay(c, s, actions, i);
    var t := Run(c, s, actions);
    forall k | 0 <= k < i + 1 ensures t.pubs[k].status.Done? {
      if k < i { assert t.pubs[k] == s.pubs[k]; }
    }
  }

  lemma RerunNextFinishes(c: Codec, s: System, so: seq<Action>, i: nat)
    requires Recoverable(c, s) && i < |s.pubs| && FirstDone(Run(c, s, so), i)
    ensures FirstDone(Run(c, s, so + Rerun(i, |s.pubs[i].plan.writes|)), i + 1)
  {
    var again := Rerun(i, |s.pubs[i].plan.writes|);
    DoneHoldsAfterAll(c, s, so, i);
    JustifiedLater(c, AfterAll(s, i), Run(c, s, so).store, s.pubs[i].plan);
    assert s.pubs[i] in s.pubs;
    RerunFinishes(c, s, so, i);
    RunJoins(c, s, so, again);
    PinsOnly(i, |s.pubs[i].plan.writes|);
    OneMoreDone(c, Run(c, s, so), again, i);
  }

  lemma OneMoreRerun(s: System, actions: seq<Action>, i: nat)
    requires i < |s.pubs|
    ensures actions + RerunAll(s, i + 1) == (actions + RerunAll(s, i)) + Rerun(i, |s.pubs[i].plan.writes|)
  {
    Regroup(actions, RerunAll(s, i), Rerun(i, |s.pubs[i].plan.writes|));
  }

  lemma {:induction false} RerunAllFinishes(c: Codec, s: System, actions: seq<Action>, n: nat)
    requires Recoverable(c, s) && n <= |s.pubs|
    ensures FirstDone(Run(c, s, actions + RerunAll(s, n)), n)
    decreases n
  {
    if n > 0 {
      var i := n - 1;
      RerunAllFinishes(c, s, actions, i);
      RerunNextFinishes(c, s, actions + RerunAll(s, i), i);
      OneMoreRerun(s, actions, i);
    }
  }

  /** Re-running after crashes converges: from any two histories, however interleaved and wherever crashed,
      starting every publisher over in turn makes everyone done, with the same store. */
  lemma RecoveryConverges(c: Codec, s: System, one: seq<Action>, other: seq<Action>)
    requires Recoverable(c, s)
    ensures var a, b := Run(c, s, one + RerunAll(s, |s.pubs|)), Run(c, s, other + RerunAll(s, |s.pubs|));
      FirstDone(a, |s.pubs|) && FirstDone(b, |s.pubs|) && a.store == b.store
  {
    RerunAllFinishes(c, s, one, |s.pubs|);
    RerunAllFinishes(c, s, other, |s.pubs|);
    Converges(c, s, one + RerunAll(s, |s.pubs|), other + RerunAll(s, |s.pubs|));
  }
}
