/** Create-only publication by any number of writers, interleaved and crashing anywhere.

    A publisher reads and verifies its parents, then pins its objects one by one: put if absent,
    tolerate "already exists" (or, if it is strict, fail on it), read back, compare. An object may only
    refer to objects that were pinned earlier or are inherited from a verified parent, so the root manifest
    comes last. */
module Publication {

  type Store = map<string, string>

  /** A hash-pinned reference to a stored object. */
  datatype Ref = Ref(key: string, sha: string, bytes: nat)

  /** The digest, and the references an object's body contains; both uninterpreted. */
  datatype Codec = Codec(digest: string -> string, refs: string -> set<Ref>)

  function RefTo(c: Codec, key: string, body: string): Ref {
    Ref(key, c.digest(body), |body|)
  }

  /** The object a reference names is stored, with the length and digest it pins. */
  predicate Resolves(c: Codec, store: Store, r: Ref) {
    r.key in store && |store[r.key]| == r.bytes && c.digest(store[r.key]) == r.sha
  }

  ghost predicate Closed(c: Codec, store: Store) {
    forall k | k in store :: forall r | r in c.refs(store[k]) :: Resolves(c, store, r)
  }

  datatype Write = Write(key: string, body: string)

  predicate Stored(store: Store, w: Write) {
    w.key in store && store[w.key] == w.body
  }

  /** What a publisher will do: references it reads first, references it copies from them, and
      the objects it writes in order. A strict publisher fails on an object that already exists. */
  datatype Plan = Plan(parents: seq<Ref>, inherited: set<Ref>, writes: seq<Write>, strict: bool)

  /** Each object refers only to inherited references and to objects pinned before it. */
  ghost predicate WellOrdered(c: Codec, p: Plan) {
    forall i | 0 <= i < |p.writes| :: forall r | r in c.refs(p.writes[i].body) ::
      r in p.inherited || exists j :: 0 <= j < i && r == RefTo(c, p.writes[j].key, p.writes[j].body)
  }

  /** Every parent verifies, and what is inherited is a parent or is referred to by one. */
  ghost predicate Justified(c: Codec, store: Store, p: Plan) {
    && (forall q | q in p.parents :: Resolves(c, store, q))
    && (forall r | r in p.inherited ::
          r in p.parents || exists q :: q in p.parents && r in c.refs(store[q.key]))
  }

  datatype Status =
    | Idle
    | Pinning(next: nat, acked: bool)  // acked: the put of write `next` returned, its read-back is due
    | Done
    | Failed

  datatype Publisher = Publisher(plan: Plan, status: Status)

  /** `author` records which write of which publisher created an object. */
  datatype System = System(store: Store, author: map<string, (nat, nat)>, pubs: seq<Publisher>)

  /** A put returns, is lost before it takes effect, or takes effect and then errors. */
  datatype Delivery = Returned | LostBefore | LostAfter

  datatype Action =
    | Begin(pub: nat)
    | Put(pub: nat, delivery: Delivery)
    | ReadBack(pub: nat, reachable: bool)
    | Crash(pub: nat)
    | Restart(pub: nat)

  function WithStatus(s: System, i: nat, status: Status): System
    requires i < |s.pubs|
  {
    s.(pubs := s.pubs[i := s.pubs[i].(status := status)])
  }

  function PutIfAbsent(s: System, i: nat, w: nat): System
    requires i < |s.pubs| && w < |s.pubs[i].plan.writes|
  {
    var write := s.pubs[i].plan.writes[w];
    if write.key in s.store then s
    else s.(store := s.store[write.key := write.body], author := s.author[write.key := (i, w)])
  }

  /** The service answers that the object exists, and the publisher does not tolerate that. */
  predicate Refused(s: System, i: nat, w: nat)
    requires i < |s.pubs| && w < |s.pubs[i].plan.writes|
  {
    s.pubs[i].plan.strict && s.pubs[i].plan.writes[w].key in s.store
  }

  /** One step of the system; an action that is not enabled changes nothing. */
  ghost function Apply(c: Codec, s: System, a: Action): System {
    if a.pub >= |s.pubs| then s else
      var i, p := a.pub, s.pubs[a.pub];
      match (a, p.status)
      case (Begin(_), Idle) =>
        WithStatus(s, i, if !Justified(c, s.store, p.plan) then Failed
                         else if p.plan.writes == [] then Done else Pinning(0, false))
      case (Put(_, delivery), Pinning(next, false)) =>
        if next >= |p.plan.writes| then s
        else (match delivery
              case Returned =>
                WithStatus(PutIfAbsent(s, i, next), i, if Refused(s, i, next) then Failed else Pinning(next, true))
              case LostBefore => WithStatus(s, i, Failed)
              case LostAfter => WithStatus(PutIfAbsent(s, i, next), i, Failed))
      case (ReadBack(_, reachable), Pinning(next, true)) =>
        if next >= |p.plan.writes| then s
        else if !reachable || !Stored(s.store, p.plan.writes[next]) then WithStatus(s, i, Failed)
        else WithStatus(s, i, if next + 1 == |p.plan.writes| then Done else Pinning(next + 1, false))
      case (Crash(_), _) => WithStatus(s, i, if p.status.Done? then Done else Failed)
      case (Restart(_), Failed) => WithStatus(s, i, Idle)
      case _ => s
  }

  ghost function Run(c: Codec, s: System, actions: seq<Action>): (t: System)
    ensures |t.pubs| == |s.pubs|
    decreases |actions|
  {
    if actions == [] then s else Run(c, Apply(c, s, actions[0]), actions[1..])
  }

  // ---------------------------------------------------------------- what every step keeps

  /** Nothing stored is changed or removed. */
  ghost predicate Extends(before: Store, after: Store) {
    forall k | k in before :: k in after && after[k] == before[k]
  }

  ghost predicate PinnedUpTo(store: Store, p: Plan, n: nat) {
    n <= |p.writes| && forall j | 0 <= j < n :: Stored(store, p.writes[j])
  }

  ghost predicate InheritedResolve(c: Codec, store: Store, p: Plan) {
    forall r | r in p.inherited :: Resolves(c, store, r)
  }

  ghost predicate StatusOk(c: Codec, store: Store, p: Publisher) {
    match p.status
    case Pinning(next, acked) =>
      && next < |p.plan.writes| && PinnedUpTo(store, p.plan, next) && InheritedResolve(c, store, p.plan)
      && (acked ==> p.plan.writes[next].key in store)
    case Done => PinnedUpTo(store, p.plan, |p.plan.writes|)
    case _ => true
  }

  /** The object under `k` was put by write `w` of publisher `i`, after all the earlier ones. */
  ghost predicate AuthoredBy(s: System, k: string, i: nat, w: nat) {
    && i < |s.pubs| && w < |s.pubs[i].plan.writes|
    && s.pubs[i].plan.writes[w].key == k
    && PinnedUpTo(s.store, s.pubs[i].plan, w + 1)
  }

  ghost predicate Invariant(c: Codec, initial: Store, s: System) {
    && Closed(c, s.store)
    && Extends(initial, s.store)
    && (forall i | 0 <= i < |s.pubs| :: WellOrdered(c, s.pubs[i].plan) && StatusOk(c, s.store, s.pubs[i]))
    && (forall k | k in s.store :: k in initial || k in s.author)
    && (forall k | k in s.author :: AuthoredBy(s, k, s.author[k].0, s.author[k].1))
  }

  /** Everyone is idle on a store whose references resolve. */
  ghost predicate Fresh(c: Codec, s: System) {
    && Closed(c, s.store) && s.author == map[]
    && forall i | 0 <= i < |s.pubs| :: WellOrdered(c, s.pubs[i].plan) && s.pubs[i].status == Idle
  }

  lemma PutKeepsClosed(c: Codec, store: Store, key: string, body: string)
    requires Closed(c, store) && key !in store
    requires forall r | r in c.refs(body) :: Resolves(c, store, r)
    ensures Closed(c, store[key := body])
  {
    var after := store[key := body];
    forall k, r | k in after && r in c.refs(after[k]) ensures Resolves(c, after, r) {
      assert Resolves(c, store, r);
    }
  }

  /** A well-ordered plan only ever puts an object whose references already resolve. */
  lemma NextRefsResolve(c: Codec, store: Store, p: Plan, next: nat)
    requires WellOrdered(c, p) && next < |p.writes|
    requires PinnedUpTo(store, p, next) && InheritedResolve(c, store, p)
    ensures forall r | r in c.refs(p.writes[next].body) :: Resolves(c, store, r)
  {
    forall r | r in c.refs(p.writes[next].body) ensures Resolves(c, store, r) {
      if r !in p.inherited {
        var j :| 0 <= j < next && r == RefTo(c, p.writes[j].key, p.writes[j].body);
        assert Stored(store, p.writes[j]);
      }
    }
  }

  lemma PutKeepsInvariant(c: Codec, initial: Store, s: System, i: nat, next: nat)
    requires Invariant(c, initial, s) && i < |s.pubs| && s.pubs[i].status == Pinning(next, false)
    ensures Invariant(c, initial, PutIfAbsent(s, i, next))
    ensures s.pubs[i].plan.writes[next].key in PutIfAbsent(s, i, next).store
  {
    var w := s.pubs[i].plan.writes[next];
    if w.key !in s.store {
      var t := PutIfAbsent(s, i, next);
      NextRefsResolve(c, s.store, s.pubs[i].plan, next);
      PutKeepsClosed(c, s.store, w.key, w.body);
      GrowthKeepsStatuses(c, s, t);
      GrowthKeepsAuthors(s, t);
      assert AuthoredBy(t, w.key, i, next);
    }
  }

  lemma GrowthKeepsStatuses(c: Codec, s: System, t: System)
    requires t.pubs == s.pubs && Extends(s.store, t.store)
    ensures forall i | 0 <= i < |s.pubs| && StatusOk(c, s.store, s.pubs[i]) :: StatusOk(c, t.store, s.pubs[i])
  {
  }

  lemma GrowthKeepsAuthors(s: System, t: System)
    requires t.pubs == s.pubs && Extends(s.store, t.store)
    ensures forall k, i, w | AuthoredBy(s, k, i, w) :: AuthoredBy(t, k, i, w)
  {
  }

  lemma StatusKeepsInvariant(c: Codec, initial: Store, s: System, i: nat, status: Status)
    requires Invariant(c, initial, s) && i < |s.pubs|
    requires StatusOk(c, s.store, s.pubs[i].(status := status))
    ensures Invariant(c, initial, WithStatus(s, i, status))
  {
    var t := WithStatus(s, i, status);
    forall k | k in t.author ensures AuthoredBy(t, k, t.author[k].0, t.author[k].1) {
      assert AuthoredBy(s, k, s.author[k].0, s.author[k].1);
    }
  }

  lemma JustifiedInherits(c: Codec, store: Store, p: Plan)
    requires Closed(c, store) && Justified(c, store, p)
    ensures InheritedResolve(c, store, p)
  {
    forall r | r in p.inherited ensures Resolves(c, store, r) {
      if r !in p.parents {
        var q :| q in p.parents && r in c.refs(store[q.key]);
        assert q.key in store;
      }
    }
  }

  lemma BeginKeepsInvariant(c: Codec, initial: Store, s: System, i: nat)
    requires Invariant(c, initial, s) && i < |s.pubs| && s.pubs[i].status == Idle
    ensures Invariant(c, initial, Apply(c, s, Begin(i)))
  {
    var p := s.pubs[i].plan;
    if Justified(c, s.store, p) {
      JustifiedInherits(c, s.store, p);
      StatusKeepsInvariant(c, initial, s, i, if p.writes == [] then Done else Pinning(0, false));
    } else {
      StatusKeepsInvariant(c, initial, s, i, Failed);
    }
  }

  lemma NextStatusOk(c: Codec, store: Store, p: Publisher, next: nat)
    requires StatusOk(c, store, p) && p.status == Pinning(next, true) && Stored(store, p.plan.writes[next])
    ensures StatusOk(c, store, p.(status := if next + 1 == |p.plan.writes| then Done else Pinning(next + 1, false)))
  {
  }

  lemma ReadBackKeepsInvariant(c: Codec, initial: Store, s: System, i: nat, next: nat, reachable: bool)
    requires Invariant(c, initial, s) && i < |s.pubs| && s.pubs[i].status == Pinning(next, true)
    ensures Invariant(c, initial, Apply(c, s, ReadBack(i, reachable)))
  {
    var writes := s.pubs[i].plan.writes;
    if reachable && Stored(s.store, writes[next]) {
      NextStatusOk(c, s.store, s.pubs[i], next);
    }
    var status := if !reachable || !Stored(s.store, writes[next]) then Failed
                  else if next + 1 == |writes| then Done else Pinning(next + 1, false);
    assert Apply(c, s, ReadBack(i, reachable)) == WithStatus(s, i, status);
    StatusKeepsInvariant(c, initial, s, i, status);
  }

  lemma PutStepKeepsInvariant(c: Codec, initial: Store, s: System, i: nat, next: nat, delivery: Delivery)
    requires Invariant(c, initial, s) && i < |s.pubs| && s.pubs[i].status == Pinning(next, false)
    ensures Invariant(c, initial, Apply(c, s, Put(i, delivery)))
  {
    PutKeepsInvariant(c, initial, s, i, next);
    var t := if delivery == LostBefore then s else PutIfAbsent(s, i, next);
    var status := if delivery == Returned && !Refused(s, i, next) then Pinning(next, true) else Failed;
    assert Apply(c, s, Put(i, delivery)) == WithStatus(t, i, status);
    StatusKeepsInvariant(c, initial, t, i, status);
  }

  lemma StepExtends(c: Codec, s: System, a: Action)
    ensures Extends(s.store, Apply(c, s, a).store)
  {
  }

  lemma StepKeepsInvariant(c: Codec, initial: Store, s: System, a: Action)
    requires Invariant(c, initial, s)
    ensures Invariant(c, initial, Apply(c, s, a))
    ensures Extends(s.store, Apply(c, s, a).store)
  {
    StepExtends(c, s, a);
    if a.pub < |s.pubs| {
      var i, p := a.pub, s.pubs[a.pub];
      match (a, p.status)
      case (Begin(_), Idle) => BeginKeepsInvariant(c, initial, s, i);
      case (Put(_, delivery), Pinning(next, false)) =>
        PutStepKeepsInvariant(c, initial, s, i, next, delivery);
      case (ReadBack(_, reachable), Pinning(next, true)) =>
        ReadBackKeepsInvariant(c, initial, s, i, next, reachable);
      case (Crash(_), _) => StatusKeepsInvariant(c, initial, s, i, if p.status.Done? then Done else Failed);
      case (Restart(_), Failed) => StatusKeepsInvariant(c, initial, s, i, Idle);
      case _ =>
    }
  }

  lemma {:induction false} RunKeepsInvariant(c: Codec, initial: Store, s: System, actions: seq<Action>)
    requires Invariant(c, initial, s)
    ensures Invariant(c, initial, Run(c, s, actions))
    ensures Extends(s.store, Run(c, s, actions).store)
    decreases |actions|
  {
    if actions != [] {
      StepKeepsInvariant(c, initial, s, actions[0]);
      RunKeepsInvariant(c, initial, Apply(c, s, actions[0]), actions[1..]);
    }
  }

  lemma FreshInvariant(c: Codec, s: System)
    requires Fresh(c, s)
    ensures Invariant(c, s.store, s)
  {
  }

  // ---------------------------------------------------------------- safety over every run

  /** No stored object ever changes, and every reference in every stored object resolves, at every
      moment of every run. */
  lemma NothingChangesNothingDangles(c: Codec, s: System, actions: seq<Action>)
    requires Fresh(c, s)
    ensures Extends(s.store, Run(c, s, actions).store)
    ensures Closed(c, Run(c, s, actions).store)
  {
    FreshInvariant(c, s);
    RunKeepsInvariant(c, s.store, s, actions);
  }

  /** A reference resolves, and so do the references inside it, `depth` levels down. */
  ghost predicate ResolvesDeep(c: Codec, store: Store, r: Ref, depth: nat)
    decreases depth
  {
    && Resolves(c, store, r)
    && (depth > 0 ==> forall q | q in c.refs(store[r.key]) :: ResolvesDeep(c, store, q, depth - 1))
  }

  lemma {:induction false} ClosedResolvesDeep(c: Codec, store: Store, r: Ref, depth: nat)
    requires Closed(c, store) && Resolves(c, store, r)
    ensures ResolvesDeep(c, store, r, depth)
    decreases depth
  {
    if depth > 0 {
      forall q | q in c.refs(store[r.key]) ensures ResolvesDeep(c, store, q, depth - 1) {
        assert r.key in store;
        ClosedResolvesDeep(c, store, q, depth - 1);
      }
    }
  }

  /** A root manifest that appeared during a run was written by some publisher as write `w` of its
      plan; every earlier object of that plan is stored with exactly its bytes, and everything the
      manifest refers to resolves to any depth. */
  lemma PresentRootIsComplete(c: Codec, s: System, actions: seq<Action>, root: string, depth: nat)
      returns (i: nat, w: nat)
    requires Fresh(c, s)
    requires root in Run(c, s, actions).store && root !in s.store
    ensures var t := Run(c, s, actions);
      && i < |t.pubs| && w < |t.pubs[i].plan.writes|
      && t.pubs[i].plan.writes[w] == Write(root, t.store[root])
      && (forall j | 0 <= j < w :: Stored(t.store, t.pubs[i].plan.writes[j]))
      && (forall r | r in c.refs(t.store[root]) :: ResolvesDeep(c, t.store, r, depth))
  {
    FreshInvariant(c, s);
    RunKeepsInvariant(c, s.store, s, actions);
    var t := Run(c, s, actions);
    i, w := t.author[root].0, t.author[root].1;
    assert AuthoredBy(t, root, i, w);
    forall r | r in c.refs(t.store[root]) ensures ResolvesDeep(c, t.store, r, depth) {
      ClosedResolvesDeep(c, t.store, r, depth);
    }
  }

  lemma {:induction false} PlansNeverChange(c: Codec, s: System, actions: seq<Action>)
    ensures forall i | 0 <= i < |s.pubs| :: Run(c, s, actions).pubs[i].plan == s.pubs[i].plan
    decreases |actions|
  {
    if actions != [] {
      StepKeepsPlans(c, s, actions[0]);
      PlansNeverChange(c, Apply(c, s, actions[0]), actions[1..]);
    }
  }

  lemma StepKeepsPlans(c: Codec, s: System, a: Action)
    ensures forall i | 0 <= i < |s.pubs| :: Apply(c, s, a).pubs[i].plan == s.pubs[i].plan
  {
  }

  // ---------------------------------------------------------------- convergence

  /** No two planned writes, and no planned write and the initial store, disagree about a key. */
  ghost predicate Compatible(s: System) {
    && (forall i, w | 0 <= i < |s.pubs| && 0 <= w < |s.pubs[i].plan.writes| ::
          s.pubs[i].plan.writes[w].key in s.store ==> Stored(s.store, s.pubs[i].plan.writes[w]))
    && (forall i, w, j, v | 0 <= i < |s.pubs| && 0 <= w < |s.pubs[i].plan.writes|
                         && 0 <= j < |s.pubs| && 0 <= v < |s.pubs[j].plan.writes|
                         && s.pubs[i].plan.writes[w].key == s.pubs[j].plan.writes[v].key ::
          s.pubs[i].plan.writes[w].body == s.pubs[j].plan.writes[v].body)
  }

  /** However two runs were interleaved, crashed and resumed, once everyone is done the stores are
      the same. */
  lemma Converges(c: Codec, s: System, one: seq<Action>, other: seq<Action>)
    requires Fresh(c, s) && Compatible(s)
    requires forall p | p in Run(c, s, one).pubs :: p.status.Done?
    requires forall p | p in Run(c, s, other).pubs :: p.status.Done?
    ensures Run(c, s, one).store == Run(c, s, other).store
  {
    DoneStoreWithin(c, s, one, other);
    DoneStoreWithin(c, s, other, one);
    var a, b := Run(c, s, one).store, Run(c, s, other).store;
    assert forall k :: k in a <==> k in b;
  }

  lemma DoneStoreWithin(c: Codec, s: System, one: seq<Action>, other: seq<Action>)
    requires Fresh(c, s) && Compatible(s)
    requires forall p | p in Run(c, s, other).pubs :: p.status.Done?
    ensures Extends(Run(c, s, one).store, Run(c, s, other).store)
  {
    FreshInvariant(c, s);
    RunKeepsInvariant(c, s.store, s, one);
    RunKeepsInvariant(c, s.store, s, other);
    PlansNeverChange(c, s, one);
    PlansNeverChange(c, s, other);
    var a, b := Run(c, s, one), Run(c, s, other);
    forall k | k in a.store ensures k in b.store && b.store[k] == a.store[k] {
      if k in a.author {
        var i, w := a.author[k].0, a.author[k].1;
        assert AuthoredBy(a, k, i, w);
        assert Stored(a.store, a.pubs[i].plan.writes[w]);
        assert b.pubs[i] in b.pubs;
        assert StatusOk(c, b.store, b.pubs[i]);
        assert Stored(b.store, b.pubs[i].plan.writes[w]);
      }
    }
  }

  // ---------------------------------------------------------------- re-running after a crash

  /** One publisher starting over with nobody interfering. */
  function Rerun(i: nat, writes: nat): seq<Action> {
    [Crash(i), Restart(i), Begin(i)] + Pins(i, writes)
  }

  function Pins(i: nat, writes: nat): seq<Action> {
    if writes == 0 then [] else [Put(i, Returned), ReadBack(i, true)] + Pins(i, writes - 1)
  }

  /** The writes from `n` on meet no different object: neither a stored one nor one they put themselves. */
  ghost predicate NoConflict(store: Store, writes: seq<Write>, n: nat) {
    && (forall j | n <= j < |writes| :: writes[j].key in store ==> store[writes[j].key] == writes[j].body)
    && (forall j, k | n <= j < k < |writes| :: writes[j].key == writes[k].key ==> writes[j].body == writes[k].body)
  }

  /** None of the keys of the writes from `n` on is taken, nor used twice. */
  ghost predicate Unused(store: Store, writes: seq<Write>, n: nat) {
    && (forall j | n <= j < |writes| :: writes[j].key !in store)
    && (forall j, k | n <= j < k < |writes| :: writes[j].key != writes[k].key)
  }

  /** What a publisher on its own needs of the store: no other bytes under its keys, and if it is strict,
      nothing at all. */
  ghost predicate Fits(store: Store, p: Plan, n: nat) {
    if p.strict then Unused(store, p.writes, n) else NoConflict(store, p.writes, n)
  }

  /** A failed publisher that starts over alone completes exactly when its parents verify and none
      of its keys holds different bytes; a strict one only when none of its keys is taken. */
  lemma RerunCompletes(c: Codec, s: System, i: nat)
    requires i < |s.pubs| && !s.pubs[i].status.Done?
    ensures var p := s.pubs[i].plan;
      Run(c, s, Rerun(i, |p.writes|)).pubs[i].status.Done? <==>
      Justified(c, s.store, p) && Fits(s.store, p, 0)
  {
    var p := s.pubs[i].plan;
    var rest := Pins(i, |p.writes|);
    var s1 := WithStatus(s, i, Failed);
    var s2 := WithStatus(s1, i, Idle);
    var s3 := Apply(c, s2, Begin(i));
    calc {
      Run(c, s, Rerun(i, |p.writes|));
      {
        assert Rerun(i, |p.writes|) == [Crash(i)] + ([Restart(i), Begin(i)] + rest);
        RunFirst(c, s, Crash(i), [Restart(i), Begin(i)] + rest);
      }
      Run(c, s1, [Restart(i), Begin(i)] + rest);
      {
        assert [Restart(i), Begin(i)] + rest == [Restart(i)] + ([Begin(i)] + rest);
        RunFirst(c, s1, Restart(i), [Begin(i)] + rest);
      }
      Run(c, s2, [Begin(i)] + rest);
      { RunFirst(c, s2, Begin(i), rest); }
      Run(c, s3, rest);
    }
    if !Justified(c, s.store, p) {
      FailedStays(c, s3, i, |p.writes|);
    } else if p.writes == [] {
      assert rest == [];
    } else {
      PinsComplete(c, s3, i, 0, |p.writes|);
    }
  }

  lemma RunFirst(c: Codec, s: System, a: Action, rest: seq<Action>)
    ensures Run(c, s, [a] + rest) == Run(c, Apply(c, s, a), rest)
  {
    assert ([a] + rest)[1..] == rest;
  }

  lemma {:induction false} FailedStays(c: Codec, s: System, i: nat, n: nat)
    requires i < |s.pubs| && s.pubs[i].status == Failed
    ensures Run(c, s, Pins(i, n)).pubs[i].status == Failed
    decreases n
  {
    if n > 0 {
      RunPair(c, s, i, n);
      assert Apply(c, Apply(c, s, Put(i, Returned)), ReadBack(i, true)) == s;
      FailedStays(c, s, i, n - 1);
    }
  }

  lemma RunPair(c: Codec, s: System, i: nat, n: nat)
    requires n > 0
    ensures Run(c, s, Pins(i, n)) == Run(c, Apply(c, Apply(c, s, Put(i, Returned)), ReadBack(i, true)), Pins(i, n - 1))
  {
    var rest := Pins(i, n - 1);
    assert Pins(i, n) == [Put(i, Returned)] + ([ReadBack(i, true)] + rest);
    RunFirst(c, s, Put(i, Returned), [ReadBack(i, true)] + rest);
    RunFirst(c, Apply(c, s, Put(i, Returned)), ReadBack(i, true), rest);
  }

  /** The effect of putting and reading back one object with nobody interfering. */
  lemma PinOne(c: Codec, s: System, i: nat, next: nat)
    requires i < |s.pubs| && s.pubs[i].status == Pinning(next, false) && next < |s.pubs[i].plan.writes|
    ensures var writes := s.pubs[i].plan.writes; var w := writes[next];
      var put := if w.key in s.store then s.store else s.store[w.key := w.body];
      var t := Apply(c, Apply(c, s, Put(i, Returned)), ReadBack(i, true));
      && t.store == put && |t.pubs| == |s.pubs| && t.pubs[i].plan == s.pubs[i].plan
      && t.pubs[i].status == if Refused(s, i, next) || !Stored(put, w) then Failed
                             else if next + 1 == |writes| then Done else Pinning(next + 1, false)
  {
  }

  lemma {:induction false} PinsComplete(c: Codec, s: System, i: nat, next: nat, left: nat)
    requires i < |s.pubs| && s.pubs[i].status == Pinning(next, false)
    requires left > 0 && next + left == |s.pubs[i].plan.writes|
    ensures Run(c, s, Pins(i, left)).pubs[i].status.Done? <==> Fits(s.store, s.pubs[i].plan, next)
    decreases left
  {
    var p := s.pubs[i].plan;
    var t := Apply(c, Apply(c, s, Put(i, Returned)), ReadBack(i, true));
    RunPair(c, s, i, left);
    PinOne(c, s, i, next);
    if Refused(s, i, next) || !Stored(t.store, p.writes[next]) {
      FailedStays(c, t, i, left - 1);
    } else {
      FitsAfterPut(s.store, t.store, p, next);
      if left > 1 {
        PinsComplete(c, t, i, next + 1, left - 1);
      }
    }
  }

  lemma FitsAfterPut(store: Store, put: Store, p: Plan, next: nat)
    requires next < |p.writes| && (p.strict ==> p.writes[next].key !in store)
    requires var w := p.writes[next]; put == if w.key in store then store else store[w.key := w.body]
    requires Stored(put, p.writes[next])
    ensures Fits(put, p, next + 1) <==> Fits(store, p, next)
  {
    if !p.strict {
      ConflictAfterPut(store, put, p.writes, next);
    } else if Unused(put, p.writes, next + 1) {
      forall k | next < k < |p.writes| ensures p.writes[k].key != p.writes[next].key && p.writes[k].key !in store {
        assert p.writes[k].key !in put;
      }
    }
  }

  lemma ConflictAfterPut(store: Store, put: Store, writes: seq<Write>, next: nat)
    requires next < |writes|
    requires put == if writes[next].key in store then store else store[writes[next].key := writes[next].body]
    requires Stored(put, writes[next])
    ensures NoConflict(put, writes, next + 1) <==> NoConflict(store, writes, next)
  {
    var w := writes[next];
    if NoConflict(put, writes, next + 1) {
      forall k | next < k < |writes| && writes[k].key == w.key ensures writes[k].body == w.body {
        assert put[writes[k].key] == writes[k].body;
      }
      forall j | next <= j < |writes| && writes[j].key in store ensures store[writes[j].key] == writes[j].body {
        if j > next { assert put[writes[j].key] == writes[j].body; }
      }
    }
    if NoConflict(store, writes, next) {
      forall j | next + 1 <= j < |writes| && writes[j].key in put ensures put[writes[j].key] == writes[j].body {
        if writes[j].key == w.key { assert writes[j].body == w.body; }
      }
    }
  }

  // ---------------------------------------------------------------- the plans publishers make

  /** What a release assembles: payload objects, the shards that list them, the metric shards, the pinned
      implementation, and the root manifest. The research publisher has its files as payloads, the market
      manifest as its only shard and no metric shards. A strict publisher fails on an object that exists. */
  datatype Release = Release(parents: seq<Ref>, inherited: set<Ref>, payloads: seq<Write>, shards: seq<Write>,
                             screens: seq<Write>, implementation: seq<Write>, root: Write, strict: bool)

  function RefsTo(c: Codec, writes: seq<Write>): set<Ref> {
    set w | w in writes :: RefTo(c, w.key, w.body)
  }

  /** An object of a later kind lists inherited objects and the pins returned for the kinds before it. */
  ghost predicate Assembled(c: Codec, r: Release) {
    && (forall w | w in r.payloads :: c.refs(w.body) <= r.inherited)
    && (forall w | w in r.shards :: c.refs(w.body) <= r.inherited + RefsTo(c, r.payloads))
    && (forall w | w in r.screens :: c.refs(w.body) <= r.inherited + RefsTo(c, r.payloads + r.shards))
    && (forall w | w in r.implementation :: c.refs(w.body) <= r.inherited)
    && c.refs(r.root.body) <= r.inherited + RefsTo(c, Earlier(r))
  }

  function Earlier(r: Release): seq<Write> {
    r.payloads + r.shards + r.screens + r.implementation
  }

  /** The write order of a release: the root manifest is last. */
  function PlanOf(r: Release): Plan {
    Plan(r.parents, r.inherited, Earlier(r) + [r.root], r.strict)
  }

  lemma PinnedBefore(c: Codec, writes: seq<Write>, n: nat, q: Ref)
    requires n <= |writes| && q in RefsTo(c, writes[..n])
    ensures exists j :: 0 <= j < n && q == RefTo(c, writes[j].key, writes[j].body)
  {
    var w :| w in writes[..n] && q == RefTo(c, w.key, w.body);
    var j :| 0 <= j < n && writes[..n][j] == w;
    assert q == RefTo(c, writes[j].key, writes[j].body);
  }

  /** One kind of object after the kinds it may list. */
  lemma LayerOrdered(c: Codec, p: Plan, before: seq<Write>, layer: seq<Write>, after: seq<Write>, listed: seq<Write>,
      i: nat)
    requires p.writes == before + layer + after && |before| <= i < |before| + |layer|
    requires forall w | w in listed :: w in before
    requires forall w | w in layer :: c.refs(w.body) <= p.inherited + RefsTo(c, listed)
    ensures forall q | q in c.refs(p.writes[i].body) ::
      q in p.inherited || exists j :: 0 <= j < i && q == RefTo(c, p.writes[j].key, p.writes[j].body)
  {
    assert p.writes[i] == layer[i - |before|];
    forall q | q in c.refs(p.writes[i].body)
      ensures q in p.inherited || exists j :: 0 <= j < i && q == RefTo(c, p.writes[j].key, p.writes[j].body)
    {
      if q !in p.inherited {
        assert p.writes[..|before|] == before;
        assert q in RefsTo(c, before);
        PinnedBefore(c, p.writes, |before|, q);
      }
    }
  }

  /** The order a release is written in is one the safety results apply to, and it ends with the root. */
  lemma ReleaseWellOrdered(c: Codec, r: Release)
    requires Assembled(c, r)
    ensures WellOrdered(c, PlanOf(r))
    ensures PlanOf(r).writes[|PlanOf(r).writes| - 1] == r.root
  {
    var p := PlanOf(r);
    var a, b, d, e := r.payloads, r.shards, r.screens, r.implementation;
    forall i | 0 <= i < |p.writes|
      ensures forall q | q in c.refs(p.writes[i].body) ::
        q in p.inherited || exists j :: 0 <= j < i && q == RefTo(c, p.writes[j].key, p.writes[j].body)
    {
      if i < |a| {
        assert p.writes == [] + a + (b + d + e + [r.root]);
        LayerOrdered(c, p, [], a, b + d + e + [r.root], [], i);
      } else if i < |a| + |b| {
        assert p.writes == a + b + (d + e + [r.root]);
        LayerOrdered(c, p, a, b, d + e + [r.root], a, i);
      } else if i < |a| + |b| + |d| {
        assert p.writes == (a + b) + d + (e + [r.root]);
        LayerOrdered(c, p, a + b, d, e + [r.root], a + b, i);
      } else if i < |Earlier(r)| {
        assert p.writes == (a + b + d) + e + [r.root];
        LayerOrdered(c, p, a + b + d, e, [r.root], [], i);
      } else {
        assert p.writes == Earlier(r) + [r.root] + [];
        LayerOrdered(c, p, Earlier(r), [r.root], [], Earlier(r), i);
      }
    }
  }

  /** For publishers that assemble releases: a root manifest that appeared during a run implies that some
      publisher's whole release is stored, and that everything reachable from the root resolves. */
  lemma PresentRootImpliesRelease(c: Codec, s: System, actions: seq<Action>, releases: seq<Release>, root: string,
      depth: nat)
      returns (i: nat)
    requires |releases| == |s.pubs|
    requires forall k | 0 <= k < |s.pubs| ::
               Assembled(c, releases[k]) && s.pubs[k] == Publisher(PlanOf(releases[k]), Idle)
    requires Closed(c, s.store) && s.author == map[] && root !in s.store && root in Run(c, s, actions).store
    requires forall k, w | 0 <= k < |s.pubs| && w in Earlier(releases[k]) :: w.key != root
    ensures var t := Run(c, s, actions);
      && i < |releases| && releases[i].root == Write(root, t.store[root])
      && (forall w | w in Earlier(releases[i]) :: Stored(t.store, w))
      && (forall q | q in c.refs(t.store[root]) :: ResolvesDeep(c, t.store, q, depth))
  {
    forall k | 0 <= k < |s.pubs| ensures WellOrdered(c, s.pubs[k].plan) { ReleaseWellOrdered(c, releases[k]); }
    PlansNeverChange(c, s, actions);
    var w;
    i, w := PresentRootIsComplete(c, s, actions, root, depth);
    var earlier := Earlier(releases[i]);
    var t := Run(c, s, actions);
    assert t.pubs[i].plan.writes == earlier + [releases[i].root];
    assert forall j | 0 <= j < |earlier| :: earlier[j] in earlier;
    assert w == |earlier|;
    forall x | x in earlier ensures Stored(t.store, x) {
      var j :| 0 <= j < |earlier| && earlier[j] == x;
      assert t.pubs[i].plan.writes[j] == x;
    }
  }

  // ---------------------------------------------------------------- the order matters

  /** A publisher that writes its manifest before an object it lists leaves, if it crashes in
      between, a store whose manifest dangles. */
  lemma ManifestFirstDangles(c: Codec, s: System, j: nat)
    requires |s.pubs| == 1 && s.pubs[0].status == Idle && Justified(c, s.store, s.pubs[0].plan)
    requires 1 <= j < |s.pubs[0].plan.writes|
    requires var w := s.pubs[0].plan.writes;
      && w[0].key !in s.store && w[j].key !in s.store && w[0].key != w[j].key
      && RefTo(c, w[j].key, w[j].body) in c.refs(w[0].body)
    ensures var t := Run(c, s, [Begin(0), Put(0, Returned), Crash(0)]);
      Stored(t.store, s.pubs[0].plan.writes[0]) && !Closed(c, t.store)
  {
    var w := s.pubs[0].plan.writes;
    var s1 := WithStatus(s, 0, Pinning(0, false));
    var s2 := Apply(c, s1, Put(0, Returned));
    var s3 := Apply(c, s2, Crash(0));
    assert Apply(c, s, Begin(0)) == s1;
    var actions := [Begin(0), Put(0, Returned), Crash(0)];
    assert actions == [Begin(0)] + [Put(0, Returned), Crash(0)];
    RunFirst(c, s, Begin(0), [Put(0, Returned), Crash(0)]);
    assert [Put(0, Returned), Crash(0)] == [Put(0, Returned)] + [Crash(0)];
    RunFirst(c, s1, Put(0, Returned), [Crash(0)]);
    assert [Crash(0)] == [Crash(0)] + [];
    RunFirst(c, s2, Crash(0), []);
    assert s3.store == s.store[w[0].key := w[0].body];
    assert !Resolves(c, s3.store, RefTo(c, w[j].key, w[j].body));
    assert w[0].key in s3.store;
  }
}
