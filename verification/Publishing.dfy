/** The publishing code itself: the create budget, the verified read, `pin`, and the loop that pins
    a release. Each is proved against the store-level notions of module Publication. */
module Publishing {
  import opened Publication

  /** How the service answers a conditional put. */
  datatype Answer = Created | Exists | Raised

  class ObjectStore {
    var objects: Store

    constructor (initial: Store)
      ensures objects == initial
    {
      objects := initial;
    }

    /** A conditional put whose answer may be lost; "exists" is the service's "precondition failed". */
    method PutIfAbsent(key: string, body: string, delivery: Delivery) returns (answer: Answer)
      modifies this
      ensures answer == if !delivery.Returned? then Raised else if key in old(objects) then Exists else Created
      ensures objects == if delivery.LostBefore? || key in old(objects) then old(objects) else old(objects)[key := body]
    {
      answer := if !delivery.Returned? then Raised else if key in objects then Exists else Created;
      if !delivery.LostBefore? && key !in objects {
        objects := objects[key := body];
      }
    }
  }

  datatype ReadOutcome =
    | Body(body: string)
    | ReadBudget
    | Unreachable
    | Missing
    | HashMismatch

  datatype PinOutcome =
    | Pinned(ref: Ref)
    | PublicationBudget
    | PutRaised
    | Mismatch
    | Conflict
    | Interrupted

  class Budget {
    const maximumBytes: nat
    const maximumCreates: nat
    var bytes: nat
    var creates: nat

    ghost predicate Valid()
      reads this
    {
      bytes <= maximumBytes && creates <= maximumCreates
    }

    constructor (maximumBytes: nat, maximumCreates: nat)
      ensures Valid() && bytes == 0 && creates == 0
      ensures this.maximumBytes == maximumBytes && this.maximumCreates == maximumCreates
    {
      this.maximumBytes := maximumBytes;
      this.maximumCreates := maximumCreates;
      bytes := 0;
      creates := 0;
    }

    /** Room for `size` more bytes in `count` more creates. */
    predicate Allows(size: int, count: nat)
      reads this
    {
      0 <= size && bytes + size <= maximumBytes && creates + count <= maximumCreates
    }

    method Reserve(size: int) returns (ok: bool)
      requires Valid()
      modifies this
      ensures Valid()
      ensures ok == old(Allows(size, 1))
      ensures bytes == old(bytes) + (if ok then size else 0)
      ensures creates == old(creates) + (if ok then 1 else 0)
    {
      if size < 0 || bytes + size > maximumBytes || creates + 1 > maximumCreates {
        return false;
      }
      bytes := bytes + size;
      creates := creates + 1;
      ok := true;
    }
  }

  /** Reads at most one byte more than the reference declares, then checks length and digest. */
  method Read(c: Codec, s: ObjectStore, ref: Ref, limit: nat, reachable: bool) returns (r: ReadOutcome)
    ensures r.Body? <==> ref.bytes <= limit && reachable && Resolves(c, s.objects, ref)
    ensures r.Body? ==> r.body == s.objects[ref.key]
    ensures r.ReadBudget? <==> ref.bytes > limit
    ensures r.Unreachable? <==> ref.bytes <= limit && !reachable
    ensures r.Missing? <==> ref.bytes <= limit && reachable && ref.key !in s.objects
  {
    if !(0 <= ref.bytes <= limit) {
      return ReadBudget;
    }
    if !reachable {
      return Unreachable;
    }
    if ref.key !in s.objects {
      return Missing;
    }
    var whole := s.objects[ref.key];
    var raw := if |whole| <= ref.bytes + 1 then whole else whole[..ref.bytes + 1];
    if |raw| != ref.bytes || c.digest(raw) != ref.sha {
      return HashMismatch;
    }
    r := Body(raw);
  }

  /** What the outside does to one pin: the put's delivery, and whether the read-back is answered. */
  datatype Outside = Outside(put: Delivery, reachable: bool)

  /** The store after a conditional put. */
  function WithObject(store: Store, w: Write): Store {
    if w.key in store then store else store[w.key := w.body]
  }

  /** Reserve, put if absent, read back, compare. It succeeds exactly when the budget allows it, the put and
      the read-back are answered and the key is free or already holds these bytes, whatever the digest
      function does. An object whose put or read-back fails may be stored all the same. */
  method Pin(c: Codec, s: ObjectStore, key: string, raw: string, budget: Budget, outside: Outside)
      returns (r: PinOutcome)
    requires budget.Valid()
    modifies s, budget
    ensures budget.Valid()
    ensures r.PublicationBudget? <==> !old(budget.Allows(|raw|, 1))
    ensures r.PutRaised? <==> old(budget.Allows(|raw|, 1)) && !outside.put.Returned?
    ensures r.Pinned? <==>
            && old(budget.Allows(|raw|, 1)) && outside == Outside(Returned, true)
            && (key in old(s.objects) ==> old(s.objects)[key] == raw)
    ensures r.Pinned? ==> r.ref == RefTo(c, key, raw)
    ensures s.objects == if r.PublicationBudget? || outside.put.LostBefore? then old(s.objects)
                         else WithObject(old(s.objects), Write(key, raw))
    ensures budget.bytes == old(budget.bytes) + (if r.PublicationBudget? then 0 else |raw|)
    ensures budget.creates == old(budget.creates) + (if r.PublicationBudget? then 0 else 1)
  {
    var ok := budget.Reserve(|raw|);
    if !ok {
      return PublicationBudget;
    }
    var answer := s.PutIfAbsent(key, raw, outside.put);
    if answer.Raised? {
      return PutRaised;
    }
    var ref := Ref(key, c.digest(raw), |raw|);
    var back := Read(c, s, ref, |raw|, outside.reachable);
    match back
    case Body(body) =>
      if body != raw {
        return Conflict;
      }
      r := Pinned(ref);
    case _ =>
      r := Mismatch;
  }

  function TotalBytes(writes: seq<Write>): nat {
    if writes == [] then 0 else TotalBytes(writes[..|writes| - 1]) + |writes[|writes| - 1].body|
  }

  /** The store after `writes`, in order, each put if absent. */
  function After(store: Store, writes: seq<Write>): Store {
    if writes == [] then store
    else
      WithObject(After(store, writes[..|writes| - 1]), writes[|writes| - 1])
  }

  lemma TakeOne(store: Store, writes: seq<Write>, i: nat)
    requires i < |writes|
    ensures TotalBytes(writes[..i + 1]) == TotalBytes(writes[..i]) + |writes[i].body|
    ensures After(store, writes[..i + 1]) == WithObject(After(store, writes[..i]), writes[i])
  {
    assert writes[..i + 1][..i] == writes[..i];
  }

  lemma {:induction false} TotalGrows(writes: seq<Write>, i: nat)
    requires i <= |writes|
    ensures TotalBytes(writes[..i]) <= TotalBytes(writes)
    decreases |writes| - i
  {
    if i == |writes| {
      assert writes[..i] == writes;
    } else {
      TakeOne(map[], writes, i);
      TotalGrows(writes, i + 1);
    }
  }

  /** What is stored after the first `i` writes: the old objects and exactly those writes. */
  lemma {:induction false} AfterMeans(store: Store, writes: seq<Write>, i: nat)
    requires i <= |writes| && NoConflict(store, writes[..i], 0)
    ensures var after := After(store, writes[..i]);
      && Extends(store, after)
      && (forall j | 0 <= j < i :: Stored(after, writes[j]))
      && (forall k | k in after :: k in store || exists j :: 0 <= j < i && writes[j].key == k)
  {
    if i > 0 {
      TakeOne(store, writes, i - 1);
      NoConflictTake(store, writes, i - 1);
      AfterMeans(store, writes, i - 1);
      var before, after, w := After(store, writes[..i - 1]), After(store, writes[..i]), writes[i - 1];
      assert w == writes[..i][i - 1];
      if w.key in before && w.key !in store {
        var j :| 0 <= j < i - 1 && writes[j].key == w.key;
        assert Stored(before, writes[j]) && writes[..i][j] == writes[j];
      }
      assert Stored(after, w);
    } else {
      assert writes[..0] == [];
    }
  }

  lemma NoConflictTake(store: Store, writes: seq<Write>, i: nat)
    requires i < |writes| && NoConflict(store, writes[..i + 1], 0)
    ensures NoConflict(store, writes[..i], 0)
  {
    var big, small := writes[..i + 1], writes[..i];
    assert forall j | 0 <= j < i :: small[j] == big[j];
  }

  lemma OneMoreConflict(store: Store, small: seq<Write>, w: Write, after: Store)
    requires NoConflict(store, small, 0) && Extends(store, after)
    requires forall j | 0 <= j < |small| :: Stored(after, small[j])
    requires forall k | k in after :: k in store || exists j :: 0 <= j < |small| && small[j].key == k
    ensures NoConflict(store, small + [w], 0) <==> (w.key in after ==> after[w.key] == w.body)
  {
    var big := small + [w];
    assert big[|small|] == w && forall j | 0 <= j < |small| :: big[j] == small[j];
    if NoConflict(store, big, 0) && w.key in after && w.key !in store {
      var j :| 0 <= j < |small| && small[j].key == w.key;
      assert big[j].body == big[|small|].body;
    }
    if w.key in after ==> after[w.key] == w.body {
      forall j | 0 <= j < |small| && small[j].key == w.key ensures small[j].body == w.body {
        assert Stored(after, small[j]);
      }
      forall j, k | 0 <= j < k < |big| && big[j].key == big[k].key ensures big[j].body == big[k].body {
        assert big[j] == small[j];
        if k < |small| { assert big[k] == small[k]; }
      }
    }
  }

  /** One more write conflicts exactly when its key holds other bytes once the earlier ones are in. */
  lemma NoConflictStep(store: Store, writes: seq<Write>, i: nat)
    requires i < |writes| && NoConflict(store, writes[..i], 0)
    ensures NoConflict(store, writes[..i + 1], 0) <==>
            (writes[i].key in After(store, writes[..i]) ==> After(store, writes[..i])[writes[i].key] == writes[i].body)
  {
    var after := After(store, writes[..i]);
    AfterMeans(store, writes, i);
    OneMoreConflict(store, writes[..i], writes[i], after);
    assert writes[..i + 1] == writes[..i] + [writes[i]];
  }

  lemma NoConflictPrefix(store: Store, writes: seq<Write>, i: nat)
    requires i <= |writes| && NoConflict(store, writes, 0)
    ensures NoConflict(store, writes[..i], 0)
  {
    assert forall j | 0 <= j < i :: writes[..i][j] == writes[j];
  }

  /** Everything the loop needs about its next write. */
  lemma NextWrite(store: Store, writes: seq<Write>, i: nat)
    requires i < |writes| && NoConflict(store, writes[..i], 0)
    ensures var before, w := After(store, writes[..i]), writes[i];
      && (NoConflict(store, writes[..i + 1], 0) <==> (w.key in before ==> before[w.key] == w.body))
      && (NoConflict(store, writes[..i + 1], 0) ==> After(store, writes[..i + 1]) == before[w.key := w.body])
    ensures TotalBytes(writes[..i + 1]) == TotalBytes(writes[..i]) + |writes[i].body| <= TotalBytes(writes)
    ensures NoConflict(store, writes, 0) ==> NoConflict(store, writes[..i + 1], 0)
  {
    TakeOne(store, writes, i);
    NoConflictStep(store, writes, i);
    TotalGrows(writes, i + 1);
    if NoConflict(store, writes, 0) { NoConflictPrefix(store, writes, i + 1); }
    var before, w := After(store, writes[..i]), writes[i];
    assert w.key in before && before[w.key] == w.body ==> before == before[w.key := w.body];
  }

  /** The references returned are those of the first `n` writes. */
  ghost predicate PinnedFirst(c: Codec, writes: seq<Write>, n: nat, pinned: seq<Ref>) {
    n == |pinned| <= |writes| && forall j | 0 <= j < n :: pinned[j] == RefTo(c, writes[j].key, writes[j].body)
  }

  lemma PinnedOneMore(c: Codec, writes: seq<Write>, n: nat, pinned: seq<Ref>, ref: Ref)
    requires PinnedFirst(c, writes, n, pinned) && n < |writes| && ref == RefTo(c, writes[n].key, writes[n].body)
    ensures PinnedFirst(c, writes, n + 1, pinned + [ref])
  {
  }

  /** What the outside does to one pin: whether what is done before it (reading and checking old shards,
      sorting, cutting) goes well, the put's delivery, and whether the read-back is answered. */
  datatype Turn = Turn(proceeds: bool, outside: Outside)

  const SMOOTH := Turn(true, Outside(Returned, true))

  /** The first `n` pins of the loop go well. */
  ghost predicate GoWell(initial: Store, writes: seq<Write>, turns: nat -> Turn, n: nat)
    requires n <= |writes|
  {
    n == 0 || (GoWell(initial, writes, turns, n - 1) && GoesWell(initial, writes, turns, n - 1))
  }

  /** Pin `n` meets no failure outside and no other bytes under its key. */
  ghost predicate GoesWell(initial: Store, writes: seq<Write>, turns: nat -> Turn, n: nat)
    requires n < |writes|
  {
    && turns(n) == SMOOTH
    && (writes[n].key in After(initial, writes[..n]) ==> After(initial, writes[..n])[writes[n].key] == writes[n].body)
  }

  /** That is: nothing fails outside and nothing conflicts. */
  lemma {:induction false} GoWellMeans(initial: Store, writes: seq<Write>, turns: nat -> Turn, n: nat)
    requires n <= |writes|
    ensures GoWell(initial, writes, turns, n) <==>
            NoConflict(initial, writes[..n], 0) && forall j: nat | j < n :: turns(j) == SMOOTH
    decreases n
  {
    if n > 0 {
      GoWellMeans(initial, writes, turns, n - 1);
      if NoConflict(initial, writes[..n], 0) { NoConflictTake(initial, writes, n - 1); }
      if NoConflict(initial, writes[..n - 1], 0) { NoConflictStep(initial, writes, n - 1); }
    }
  }

  /** What fails at `n` fails the whole loop. */
  lemma {:induction false} GoWellPrefix(initial: Store, writes: seq<Write>, turns: nat -> Turn, n: nat, m: nat)
    requires n <= m <= |writes| && GoWell(initial, writes, turns, m)
    ensures GoWell(initial, writes, turns, n)
    decreases m - n
  {
    if n < m { GoWellPrefix(initial, writes, turns, n, m - 1); }
  }

  /** The next turn of the loop: the work before the pin, and the pin. */
  method PinNext(c: Codec, s: ObjectStore, writes: seq<Write>, n: nat, budget: Budget, turn: Turn,
                 ghost initial: Store)
      returns (last: PinOutcome)
    requires budget.Valid() && n < |writes| && s.objects == After(initial, writes[..n])
    modifies s, budget
    ensures budget.Valid()
    ensures last.Pinned? <==> turn == SMOOTH && old(budget.Allows(|writes[n].body|, 1)) &&
                              (writes[n].key in old(s.objects) ==> old(s.objects)[writes[n].key] == writes[n].body)
    ensures s.objects == After(initial, writes[..n]) || s.objects == After(initial, writes[..n + 1])
    ensures last.Pinned? ==>
              && last.ref == RefTo(c, writes[n].key, writes[n].body) && s.objects == After(initial, writes[..n + 1])
              && budget.bytes == old(budget.bytes) + |writes[n].body| && budget.creates == old(budget.creates) + 1
  {
    if !turn.proceeds {
      return Interrupted;
    }
    TakeOne(initial, writes, n);
    last := Pin(c, s, writes[n].key, writes[n].body, budget, turn.outside);
  }

  /** Pins a release in order, stopping at the first failure. It completes exactly when every turn goes well,
      the budget has room for the whole release and no object conflicts. In every case what is stored is a
      prefix of the release: the pinned objects and at most the one whose pin failed. */
  method PinAll(c: Codec, s: ObjectStore, writes: seq<Write>, budget: Budget, turns: nat -> Turn)
      returns (pinned: seq<Ref>, last: PinOutcome)
    requires budget.Valid()
    modifies s, budget
    ensures budget.Valid() && PinnedFirst(c, writes, |pinned|, pinned)
    ensures s.objects == After(old(s.objects), writes[..|pinned|])
            || (|pinned| < |writes| && s.objects == After(old(s.objects), writes[..|pinned| + 1]))
    ensures NoConflict(old(s.objects), writes[..|pinned|], 0)
    ensures |pinned| == |writes| <==>
            && old(budget.Allows(TotalBytes(writes), |writes|)) && NoConflict(old(s.objects), writes, 0)
            && forall j: nat | j < |writes| :: turns(j) == SMOOTH
  {
    ghost var initial := s.objects;
    pinned, last := PinTurns(c, s, writes, budget, turns);
    GoWellMeans(initial, writes, turns, |pinned|);
    GoWellMeans(initial, writes, turns, |writes|);
    assert writes[..|writes|] == writes;
  }

  method PinTurns(c: Codec, s: ObjectStore, writes: seq<Write>, budget: Budget, turns: nat -> Turn)
      returns (pinned: seq<Ref>, last: PinOutcome)
    requires budget.Valid()
    modifies s, budget
    ensures budget.Valid() && PinnedFirst(c, writes, |pinned|, pinned)
    ensures s.objects == After(old(s.objects), writes[..|pinned|])
            || (|pinned| < |writes| && s.objects == After(old(s.objects), writes[..|pinned| + 1]))
    ensures GoWell(old(s.objects), writes, turns, |pinned|)
    ensures |pinned| == |writes| <==>
            old(budget.Allows(TotalBytes(writes), |writes|)) && GoWell(old(s.objects), writes, turns, |writes|)
  {
    pinned, last := [], Interrupted;
    ghost var initial := s.objects;
    assert writes[..0] == [];
    for n := 0 to |writes|
      invariant budget.Valid() && PinnedFirst(c, writes, n, pinned)
      invariant s.objects == After(initial, writes[..n])
      invariant budget.bytes == old(budget.bytes) + TotalBytes(writes[..n])
      invariant budget.creates == old(budget.creates) + n
      invariant GoWell(initial, writes, turns, n)
    {
      TakeOne(initial, writes, n);
      TotalGrows(writes, n + 1);
      last := PinNext(c, s, writes, n, budget, turns(n), initial);
      if !last.Pinned? {
        if GoWell(initial, writes, turns, |writes|) { GoWellPrefix(initial, writes, turns, n + 1, |writes|); }
        return;
      }
      PinnedOneMore(c, writes, n, pinned, last.ref);
      pinned := pinned + [last.ref];
    }
    assert writes[..|writes|] == writes;
  }

  /** Publisher `i` has pinned `n` objects of its plan, alone, on a store that was `initial`. */
  ghost predicate PinnedAlone(initial: Store, s: System, i: nat, plan: Plan, n: nat) {
    && i < |s.pubs| && s.pubs[i].plan == plan && n <= |plan.writes| && s.store == After(initial, plan.writes[..n])
    && s.pubs[i].status == if n == |plan.writes| then Done else Pinning(n, false)
  }

  lemma FitsIsNoConflict(store: Store, p: Plan)
    requires Fits(store, p, 0)
    ensures NoConflict(store, p.writes, 0)
  {
  }

  /** Keys that were free and are used once are free until their turn. */
  lemma StillUnused(store: Store, writes: seq<Write>, n: nat)
    requires Unused(store, writes, 0) && n < |writes|
    ensures writes[n].key !in After(store, writes[..n])
  {
    assert forall j | 0 <= j < n :: writes[..n][j] == writes[j];
    AfterMeans(store, writes, n);
  }

  lemma PinStep(c: Codec, s: System, i: nat, initial: Store, plan: Plan, n: nat)
    requires PinnedAlone(initial, s, i, plan, n) && n < |plan.writes| && Fits(initial, plan, 0)
    ensures PinnedAlone(initial, Apply(c, Apply(c, s, Put(i, Returned)), ReadBack(i, true)), i, plan, n + 1)
  {
    PinOne(c, s, i, n);
    FitsIsNoConflict(initial, plan);
    if plan.strict { StillUnused(initial, plan.writes, n); }
    NoConflictPrefix(initial, plan.writes, n);
    NextWrite(initial, plan.writes, n);
    TakeOne(initial, plan.writes, n);
  }

  /** The protocol's publisher, running alone, has after `left` more pins the store this loop has. */
  lemma {:induction false} PinsLeaveAfter(c: Codec, s: System, i: nat, initial: Store, plan: Plan, n: nat, left: nat,
      to: nat)
    requires PinnedAlone(initial, s, i, plan, n) && n + left == to <= |plan.writes|
    requires Fits(initial, plan, 0)
    ensures PinnedAlone(initial, Run(c, s, Pins(i, left)), i, plan, to)
    decreases left
  {
    if left > 0 {
      var t, m := Apply(c, Apply(c, s, Put(i, Returned)), ReadBack(i, true)), left - 1;
      RunPair(c, s, i, left);
      PinStep(c, s, i, initial, plan, n);
      PinsLeaveAfter(c, t, i, initial, plan, n + 1, m, to);
    }
  }

  // ---------------------------------------------------------------- the research release publisher

  const OBJECT_LIMIT: nat := 2 * 1024 * 1024
  const BYTE_LIMIT: nat := 12 * 1024 * 1024
  const CREATE_LIMIT: nat := 100

  datatype WriteOutcome =
    | Written(ref: Ref)
    | KeyBlocked
    | OverBudget
    | CreateFailed
    | SourceReadBudget
    | SourceUnreachable
    | SourceReferenceMismatch
    | ReadbackMismatch

  class ReleasePublisher {
    const s: ObjectStore
    const blocked: string -> bool
    var bytes: nat
    var creates: nat
    var readbacks: nat
    var reservedBytes: nat
    var existingObjects: nat

    /** Only created objects count as bytes written; everything attempted counts as reserved. */
    ghost predicate Valid()
      reads this
    {
      && bytes <= reservedBytes <= BYTE_LIMIT
      && creates <= CREATE_LIMIT
      && readbacks <= creates && existingObjects <= creates
      && (existingObjects == 0 ==> bytes == reservedBytes)
    }

    constructor (s: ObjectStore, blocked: string -> bool)
      ensures Valid() && this.s == s && this.blocked == blocked
      ensures bytes == creates == readbacks == reservedBytes == existingObjects == 0
    {
      this.s := s;
      this.blocked := blocked;
      bytes, creates, readbacks, reservedBytes, existingObjects := 0, 0, 0, 0, 0;
    }

    /** Creates or finds the object and reads it back. An object over the read limit is already
        stored when its read-back is refused. A put that raises counts nothing, whether it took effect or not. */
    method Write(c: Codec, key: string, raw: string, outside: Outside) returns (r: WriteOutcome)
      requires Valid()
      modifies this, s
      ensures Valid()
      ensures r.KeyBlocked? <==> blocked(key)
      ensures r.OverBudget? <==>
              !blocked(key) && (old(creates) >= 100 || old(reservedBytes) + |raw| > 12 * 1024 * 1024)
      ensures r.CreateFailed? <==> !r.KeyBlocked? && !r.OverBudget? && !outside.put.Returned?
      ensures r.Written? <==> !r.KeyBlocked? && !r.OverBudget? && outside == Outside(Returned, true)
                              && |raw| <= 2 * 1024 * 1024 && (key in old(s.objects) ==> old(s.objects)[key] == raw)
      ensures r.Written? ==> r.ref == RefTo(c, key, raw) && Resolves(c, s.objects, r.ref)
      ensures s.objects == if r.KeyBlocked? || r.OverBudget? || outside.put.LostBefore? then old(s.objects)
                           else WithObject(old(s.objects), Publication.Write(key, raw))
      ensures if r.KeyBlocked? || r.OverBudget? || r.CreateFailed? then unchanged(this)
              else
                && creates == old(creates) + 1 && reservedBytes == old(reservedBytes) + |raw|
                && readbacks == old(readbacks) + (if r.Written? then 1 else 0)
                && (if key in old(s.objects) then bytes == old(bytes) && existingObjects == old(existingObjects) + 1
                    else bytes == old(bytes) + |raw| && existingObjects == old(existingObjects))
    {
      if blocked(key) {
        return KeyBlocked;
      }
      var reference := Ref(key, c.digest(raw), |raw|);
      if creates >= CREATE_LIMIT || (if bytes < reservedBytes then reservedBytes else bytes) + |raw| > BYTE_LIMIT {
        return OverBudget;
      }
      var answer := s.PutIfAbsent(key, raw, outside.put);
      if answer.Raised? {
        return CreateFailed;
      }
      creates := creates + 1;
      reservedBytes := reservedBytes + |raw|;
      if answer.Created? {
        bytes := bytes + |raw|;
      } else {
        existingObjects := existingObjects + 1;
      }
      if reference.bytes > OBJECT_LIMIT {
        return SourceReadBudget;
      }
      if !outside.reachable {
        return SourceUnreachable;
      }
      var whole := s.objects[key];
      var body := if |whole| <= OBJECT_LIMIT + 1 then whole else whole[..OBJECT_LIMIT + 1];
      if |body| != reference.bytes || |body| != |whole| || c.digest(body) != reference.sha {
        return SourceReferenceMismatch;
      }
      if body != raw {
        return ReadbackMismatch;
      }
      readbacks := readbacks + 1;
      r := Written(reference);
    }
  }
}
