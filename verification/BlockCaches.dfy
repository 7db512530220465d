/** Two least-recently-used block caches over one remote byte range, and the hash one of them takes
    on the side. Whatever is evicted and whatever the network does, a read that returns, returns the
    plain slice; and the bytes hashed are always a prefix of the range. */
module BlockCaches {
  import opened Sorting
  import opened Wrappers

  newtype Byte = n: int | 0 <= n < 256
  type Bytes = seq<Byte>

  // ---------------------------------------------------------------- the remote object

  datatype Delivery = Arrives | Truncated(length: nat) | Unavailable

  datatype Response = Received(raw: Bytes) | NoResponse

  /** An object pinned by its ETag. `script` says what happens to the coming requests; a request after
      the script has run out arrives. */
  class RemoteObject {
    const bytes: Bytes
    var script: seq<Delivery>

    predicate Reliable()
      reads this
    {
      script == []
    }

    constructor (bytes: Bytes, script: seq<Delivery>)
      ensures this.bytes == bytes && this.script == script
    {
      this.bytes := bytes;
      this.script := script;
    }

    /** What the service makes of a range that is not one of the object's blocks is its choice. */
    method GetOutside() returns (r: Response)
      modifies this
      ensures old(Reliable()) ==> Reliable()
    {
      r := *;
    }

    method GetRange(low: nat, high: nat) returns (r: Response)
      requires low < high <= |bytes|
      modifies this
      ensures r.Received? ==> |r.raw| <= high - low && r.raw == bytes[low..low + |r.raw|]
      ensures old(Reliable()) ==> Reliable() && r.Received? && |r.raw| == high - low
      ensures script == if old(script) == [] then [] else old(script)[1..]
    {
      var delivery := if script == [] then Arrives else script[0];
      script := if script == [] then [] else script[1..];
      match delivery
      case Arrives => r := Received(bytes[low..high]);
      case Truncated(length) =>
        r := Received(if length < high - low then bytes[low..low + length] else bytes[low..high]);
      case Unavailable => r := NoResponse;
    }
  }

  // ---------------------------------------------------------------- what a cache does to its bookkeeping

  /** The held block numbers, oldest first, and the counters. */
  datatype Cache = Cache(order: seq<int>, requests: nat, nextHash: nat, gaps: nat)

  function Without(order: seq<int>, index: int): (r: seq<int>)
    ensures forall k :: k in r <==> k in order && k != index
    ensures |r| <= |order| && (index in order ==> |r| < |order|)
  {
    if order == [] then []
    else (if order[0] == index then [] else [order[0]]) + Without(order[1..], index)
  }

  function MoveToEnd(order: seq<int>, index: int): seq<int> {
    Without(order, index) + [index]
  }

  /** The order after a new block joins a cache, the oldest leaving if there are too many. */
  function Joined(order: seq<int>, capacity: nat, index: int): seq<int> {
    if |order| + 1 > capacity then (order + [index])[1..] else order + [index]
  }

  /** One access: a hit is moved to the young end; a miss is fetched, counted, hashed if it is the
      next block of the prefix, and pushes out the oldest block of a full cache. */
  function Touch(c: Cache, capacity: nat, hashing: bool, index: int): Cache {
    if index in c.order then c.(order := MoveToEnd(c.order, index))
    else
      Cache(MoveToEnd(Joined(c.order, capacity, index), index), c.requests + 1,
            if hashing && index == c.nextHash then c.nextHash + 1 else c.nextHash,
            if hashing && index != c.nextHash then c.gaps + 1 else c.gaps)
  }

  /** The counters alone: a miss is one request and either extends the hashed prefix or is a gap. */
  datatype Counters = Counters(requests: nat, nextHash: nat, gaps: nat)

  function Count(c: Counters, hashing: bool, miss: bool, index: int): Counters {
    if !miss then c
    else Counters(c.requests + 1,
                  if hashing && index == c.nextHash then c.nextHash + 1 else c.nextHash,
                  if hashing && index != c.nextHash then c.gaps + 1 else c.gaps)
  }

  lemma {:induction false} WithoutDistinct(order: seq<int>, index: int)
    requires Distinct(order)
    ensures Distinct(Without(order, index))
    ensures index in order ==> |Without(order, index)| == |order| - 1
    ensures index !in order ==> Without(order, index) == order
  {
    if order != [] {
      WithoutDistinct(order[1..], index);
      assert order == [order[0]] + order[1..];
      var rest := Without(order[1..], index);
      assert forall j | 0 <= j < |rest| :: rest[j] in order[1..];
      assert forall j | 0 <= j < |order[1..]| :: order[1..][j] != order[0];
    }
  }

  lemma MoveToEndDistinct(order: seq<int>, index: int)
    requires Distinct(order) && index in order
    ensures Distinct(MoveToEnd(order, index)) && |MoveToEnd(order, index)| == |order|
    ensures forall k :: k in MoveToEnd(order, index) <==> k in order
  {
    WithoutDistinct(order, index);
  }

  /** The cache never holds more than its capacity, and always holds the block just touched. */
  lemma TouchBounded(c: Cache, capacity: nat, hashing: bool, index: int)
    requires 0 < capacity && Distinct(c.order) && |c.order| <= capacity
    ensures var t := Touch(c, capacity, hashing, index);
      && Distinct(t.order) && |t.order| <= capacity
      && t.order[|t.order| - 1] == index
      && (forall k | k in t.order :: k in c.order || k == index)
  {
    if index in c.order {
      MoveToEndDistinct(c.order, index);
    } else {
      var held := c.order + [index];
      var kept := if |held| > capacity then held[1..] else held;
      assert kept[|kept| - 1] == index;
      MoveToEndDistinct(kept, index);
    }
  }

  // ---------------------------------------------------------------- a view cut into blocks

  function Min(a: int, b: int): int { if a < b then a else b }

  function Max(a: int, b: int): int { if a < b then b else a }

  /** The blocks of a view: all of `block` bytes but the last, which may be short. */
  function Split(view: Bytes, block: nat): seq<Bytes>
    requires 0 < block
  {
    if |view| == 0 then []
    else if |view| <= block then [view]
    else [view[..block]] + Split(view[block..], block)
  }

  /** The first `n` blocks joined. */
  function Glue(parts: seq<Bytes>, n: nat): Bytes
    requires n <= |parts|
  {
    if n == 0 then [] else Glue(parts, n - 1) + parts[n - 1]
  }

  /** The number of blocks as the code computes it. */
  function BlockCount(size: nat, block: nat): nat
    requires 0 < block
  {
    (size + block - 1) / block
  }

  lemma FloorBounds(x: nat, block: nat)
    requires 0 < block
    ensures x / block * block <= x < x / block * block + block
  {
  }

  lemma FloorUnique(x: nat, block: nat, q: nat)
    requires 0 < block && q * block <= x < q * block + block
    ensures x / block == q
  {
    FloorBounds(x, block);
    var p := x / block;
    if p < q { Monotone(p + 1, q, block); Successor(p, block); }
    if q < p { Monotone(q + 1, p, block); Successor(q, block); }
  }

  lemma Monotone(a: int, b: int, block: nat)
    requires a <= b
    ensures a * block <= b * block
  {
  }

  lemma Successor(a: int, block: nat)
    ensures (a + 1) * block == a * block + block
  {
  }

  lemma {:induction false} SplitCount(view: Bytes, block: nat)
    requires 0 < block
    ensures |Split(view, block)| == BlockCount(|view|, block)
  {
    var n := BlockCount(|view|, block);
    if |view| == 0 {
      FloorUnique(block - 1, block, 0);
    } else if |view| <= block {
      FloorUnique(|view| + block - 1, block, 1);
    } else {
      SplitCount(view[block..], block);
      var m := BlockCount(|view| - block, block);
      FloorBounds(|view| - 1, block);
      Successor(m, block);
      FloorUnique(|view| + block - 1, block, m + 1);
    }
  }

  /** Block `k` starts at byte `k * block`, inside the view, and is the slice from there. */
  lemma SplitAt(view: Bytes, block: nat, k: nat)
    requires 0 < block && k < |Split(view, block)|
    ensures k * block < |view|
    ensures Split(view, block)[k] == view[k * block..Min(k * block + block, |view|)]
  {
    SplitFrom(view, block, k, k * block);
  }

  lemma SliceOfDrop(view: Bytes, n: nat, a: nat, b: nat)
    requires a <= b && b + n <= |view|
    ensures view[n..][a..b] == view[a + n..b + n]
  {
  }

  lemma {:induction false} SplitFrom(view: Bytes, block: nat, k: nat, low: nat)
    requires 0 < block && k < |Split(view, block)| && low == k * block
    ensures low < |view| && Split(view, block)[k] == view[low..Min(low + block, |view|)]
    decreases k
  {
    if k > 0 {
      var m, rest := k - 1, view[block..];
      Successor(m, block);
      var before: nat := low - block;
      SplitFrom(rest, block, m, before);
      assert Split(view, block)[k] == Split(rest, block)[m];
      SliceOfDrop(view, block, before, Min(before + block, |rest|));
    }
  }

  /** Every byte of the view is in some block. */
  lemma {:induction false} SplitCovers(view: Bytes, block: nat, k: nat)
    requires 0 < block && k * block < |view|
    ensures k < |Split(view, block)|
  {
    if k > 0 {
      Successor(k - 1, block);
      SplitCovers(view[block..], block, k - 1);
    }
  }

  lemma {:induction false} GlueIsPrefix(view: Bytes, block: nat, n: nat)
    requires 0 < block && n <= |Split(view, block)|
    ensures Glue(Split(view, block), n) == view[..Min(n * block, |view|)]
  {
    if n > 0 {
      GlueIsPrefix(view, block, n - 1);
      SplitAt(view, block, n - 1);
      Successor(n - 1, block);
    }
  }

  /** All blocks joined are the view, and fewer are not. */
  lemma GlueWhole(view: Bytes, block: nat, n: nat)
    requires 0 < block && n <= |Split(view, block)|
    ensures n == |Split(view, block)| <==> Glue(Split(view, block), n) == view
  {
    GlueIsPrefix(view, block, n);
    if n < |Split(view, block)| {
      SplitAt(view, block, n);
    } else if n * block < |view| {
      SplitCovers(view, block, n);
    }
  }

  /** How far a read of `[from, to)` has got once the blocks below `index` are joined. */
  function Reached(from: nat, to: nat, block: nat, index: nat): nat
    requires from <= to
  {
    Max(from, Min(to, index * block))
  }

  /** The piece a block contributes to a read is the next stretch of the view. */
  lemma PieceExtends(view: Bytes, block: nat, index: nat, from: nat, to: nat, low: nat, raw: Bytes)
    requires 0 < block && from <= to <= |view| && index < |Split(view, block)| && raw == Split(view, block)[index]
    requires from < low + block && low == index * block <= to
    ensures var lo, hi := Max(from - low, 0), Min(to - low, block);
      && 0 <= lo <= hi <= |raw|
      && from <= Reached(from, to, block, index) <= Reached(from, to, block, index + 1) <= to
      && raw[lo..hi] == view[Reached(from, to, block, index)..Reached(from, to, block, index + 1)]
  {
    Successor(index, block);
    SplitAt(view, block, index);
    Stretch(view, block, from, to, low, raw);
  }

  lemma Stretch(view: Bytes, block: nat, from: nat, to: nat, low: nat, raw: Bytes)
    requires from <= to <= |view| && low <= to && from < low + block && low < |view|
    requires raw == view[low..Min(low + block, |view|)]
    ensures var lo, hi := Max(from - low, 0), Min(to - low, block);
      && 0 <= lo <= hi <= |raw|
      && raw[lo..hi] == view[Max(from, Min(to, low))..Max(from, Min(to, low + block))]
  {
    var lo, hi := Max(from - low, 0), Min(to - low, block);
    var end := Min(low + block, |view|);
    SliceOfSlice(view, low, end, lo, hi);
    assert low + lo == Max(from, Min(to, low)) && low + hi == Max(from, Min(to, low + block));
  }

  lemma SliceOfSlice(view: Bytes, low: nat, end: nat, lo: nat, hi: nat)
    requires low <= end <= |view| && lo <= hi <= end - low
    ensures view[low..end][lo..hi] == view[low + lo..low + hi]
  {
    var inner, direct := view[low..end][lo..hi], view[low + lo..low + hi];
    assert |inner| == |direct|;
    forall i | 0 <= i < |inner| ensures inner[i] == direct[i] {
      assert inner[i] == view[low..end][lo + i] == view[low + (lo + i)];
    }
  }

  // ---------------------------------------------------------------- the cache's contents

  /** A block before the range is whatever the service answered, of the length asked for; one after it is
      empty. */
  predicate IsBlock(parts: seq<Bytes>, block: nat, k: int, raw: Bytes) {
    if k < 0 then |raw| == block else raw == if k < |parts| then parts[k] else []
  }

  /** Every held block of the range equals its slice of it, and no more than `capacity` are held. */
  ghost predicate CacheOk(parts: seq<Bytes>, block: nat, capacity: nat, blocks: map<int, Bytes>, order: seq<int>) {
    && Distinct(order) && |order| <= capacity
    && (forall k :: k in order <==> k in blocks)
    && (forall k | k in blocks :: IsBlock(parts, block, k, blocks[k]))
  }

  /** The contents after a new block joins a cache. */
  function JoinedBlocks(blocks: map<int, Bytes>, order: seq<int>, capacity: nat, index: int, raw: Bytes)
    : map<int, Bytes>
  {
    if |order| + 1 > capacity then blocks[index := raw] - {(order + [index])[0]} else blocks[index := raw]
  }

  lemma JoinKeepsCache(parts: seq<Bytes>, block: nat, capacity: nat, blocks: map<int, Bytes>, order: seq<int>,
      index: int, raw: Bytes)
    requires CacheOk(parts, block, capacity, blocks, order)
    requires index !in blocks && IsBlock(parts, block, index, raw)
    ensures CacheOk(parts, block, capacity, JoinedBlocks(blocks, order, capacity, index, raw),
                    Joined(order, capacity, index))
    ensures index in Joined(order, capacity, index) <==> 0 < capacity
  {
    var held := order + [index];
    assert Distinct(held) by { assert forall j | 0 <= j < |order| :: order[j] in order; }
    assert forall k :: k in held <==> k in order || k == index;
    if |held| > capacity {
      DropOldest(held);
    }
  }

  lemma DropOldest(order: seq<int>)
    requires order != [] && Distinct(order)
    ensures Distinct(order[1..]) && forall k :: k in order[1..] <==> k in order && k != order[0]
  {
    assert order == [order[0]] + order[1..];
    assert forall j | 0 <= j < |order[1..]| :: order[1..][j] != order[0];
  }

  lemma MoveKeepsCache(parts: seq<Bytes>, block: nat, capacity: nat, blocks: map<int, Bytes>, order: seq<int>,
      index: int)
    requires CacheOk(parts, block, capacity, blocks, order) && index in order
    ensures CacheOk(parts, block, capacity, blocks, MoveToEnd(order, index))
  {
    MoveToEndDistinct(order, index);
  }

  /** The remote range of a block number. */
  lemma RangeIsBlock(whole: Bytes, start: nat, end: nat, block: nat, index: nat, low: nat, high: nat)
    requires 0 < block && start <= end <= |whole| && index < |Split(whole[start..end], block)|
    requires low == index * block && high == Min(low + block, end - start)
    ensures low < high <= end - start
    ensures Split(whole[start..end], block)[index] == whole[start + low..start + high]
  {
    SplitAt(whole[start..end], block, index);
  }

  // ---------------------------------------------------------------- RangeReader

  datatype BlockOutcome = Fetched(raw: Bytes) | BlockLength | Unreachable | NotHeld

  datatype ReadOutcome = Data(data: Bytes) | ReadFailed(cause: BlockOutcome) | NegativeCount

  datatype Whence = FromStart | FromCurrent | FromEnd

  /** The first block a read of `[from, to)` touches, and the one after the last. */
  function FirstBlock(from: nat, block: nat): nat
    requires 0 < block
  {
    from / block
  }

  function StopBlock(from: nat, to: nat, block: nat): (stop: nat)
    requires 0 < block
    ensures FirstBlock(from, block) <= stop
  {
    Max(from / block, (to - 1) / block + 1)
  }

  class RangeReader {
    const source: RemoteObject
    const block: nat
    const cached: nat
    const start: nat
    const end: nat
    const hashing: bool
    var offset: int
    var blocks: map<int, Bytes>
    var order: seq<int>
    var requests: nat
    var bytesRead: nat
    var hashed: Bytes
    var nextHash: nat
    var gaps: nat

    ghost const view: Bytes        // the range this reader presents
    ghost const parts: seq<Bytes>  // that range cut into blocks

    /** Every held block equals its slice; the hashed bytes are the prefix of the first `nextHash` blocks. */
    ghost predicate Valid()
      reads this
    {
      && 0 < block && start <= end <= |source.bytes| && view == source.bytes[start..end]
      && parts == Split(view, block)
      && CacheOk(parts, block, cached, blocks, order)
      && nextHash <= |parts| && hashed == Glue(parts, nextHash)
    }

    ghost function State(): Cache
      reads this
    {
      Cache(order, requests, nextHash, gaps)
    }

    ghost function Tally(): Counters
      reads this
    {
      Counters(requests, nextHash, gaps)
    }

    constructor (source: RemoteObject, block: nat, cached: nat, start: nat, end: nat, hashing: bool)
      requires 0 < block && start <= end <= |source.bytes|
      ensures Valid() && offset == 0 && bytesRead == 0 && State() == Cache([], 0, 0, 0)
      ensures this.source == source && this.block == block && this.cached == cached
      ensures this.start == start && this.end == end && this.hashing == hashing && view == source.bytes[start..end]
    {
      this.source, this.block, this.cached := source, block, cached;
      this.start, this.end, this.hashing := start, end, hashing;
      view := source.bytes[start..end];
      parts := Split(source.bytes[start..end], block);
      offset, blocks, order, requests, bytesRead := 0, map[], [], 0, 0;
      hashed, nextHash, gaps := [], 0, 0;
    }

    function Size(): int
    {
      end - start
    }

    method Seek(target: int, whence: Whence) returns (position: int)
      requires Valid()
      modifies this`offset
      ensures Valid() && position == offset
      ensures offset == match whence
                        case FromStart => target
                        case FromCurrent => old(offset) + target
                        case FromEnd => Size() + target
    {
      match whence {
        case FromStart => offset := target;
        case FromCurrent => offset := offset + target;
        case FromEnd => offset := Size() + target;
      }
      position := offset;
    }

    /** The network half of a miss: exactly the block's bytes, or a failure. */
    method Download(index: int) returns (r: BlockOutcome)
      requires Valid() && index < |parts|
      modifies source
      ensures r.Fetched? ==> IsBlock(parts, block, index, r.raw)
      ensures !r.NotHeld?
      ensures old(source.Reliable()) ==> source.Reliable() && (0 <= index ==> r.Fetched?)
    {
      if index < 0 {
        var outside := source.GetOutside();
        return if outside.NoResponse? then Unreachable
               else if |outside.raw| != block then BlockLength else Fetched(outside.raw);
      }
      var low := index * block;
      var high := Min(low + block, end - start);
      RangeIsBlock(source.bytes, start, end, block, index, low, high);
      var response := source.GetRange(start + low, start + high);
      if response.NoResponse? {
        return Unreachable;
      }
      if |response.raw| != high - low {
        return BlockLength;
      }
      r := Fetched(response.raw);
    }

    /** The bookkeeping half of a miss: count and perhaps hash the block, store it as the youngest and
        drop the oldest if there are too many. */
    method Admit(index: int, raw: Bytes)
      requires Valid() && IsBlock(parts, block, index, raw) && index !in blocks && index < |parts|
      modifies this`blocks, this`order, this`requests, this`bytesRead, this`hashed, this`nextHash, this`gaps
      ensures Valid()
      ensures order == Joined(old(order), cached, index)
      ensures index in blocks <==> 0 < cached
      ensures index in blocks ==> blocks[index] == raw
      ensures blocks.Keys <= old(blocks.Keys) + {index}
      ensures bytesRead == old(bytesRead) + |raw|
      ensures Tally() == Count(old(Tally()), hashing, true, index)
    {
      bytesRead := bytesRead + |raw|;
      requests := requests + 1;
      HashBlock(index, raw);
      Keep(index, raw);
    }

    method Keep(index: int, raw: Bytes)
      requires Valid() && IsBlock(parts, block, index, raw) && index !in blocks
      modifies this`blocks, this`order
      ensures Valid()
      ensures order == Joined(old(order), cached, index)
      ensures index in blocks <==> 0 < cached
      ensures index in blocks ==> blocks[index] == raw
      ensures blocks.Keys <= old(blocks.Keys) + {index}
    {
      JoinKeepsCache(parts, block, cached, blocks, order, index, raw);
      blocks := blocks[index := raw];
      order := order + [index];
      if |order| > cached {
        blocks := blocks - {order[0]};
        order := order[1..];
      }
    }

    /** Hash the block if it is the next one of the prefix, count a gap if it is not. */
    method HashBlock(index: int, raw: Bytes)
      requires Valid() && IsBlock(parts, block, index, raw) && index < |parts|
      modifies this`hashed, this`nextHash, this`gaps
      ensures Valid()
      ensures nextHash == (if hashing && index == old(nextHash) then old(nextHash) + 1 else old(nextHash))
      ensures gaps == (if hashing && index != old(nextHash) then old(gaps) + 1 else old(gaps))
    {
      if hashing {
        if index == nextHash {
          hashed := hashed + raw;
          nextHash := nextHash + 1;
        } else {
          gaps := gaps + 1;
        }
      }
    }

    /** One block, from the cache or the network. A cache of capacity zero evicts the block it has just
        stored and then cannot find it. */
    method Block(index: int) returns (r: BlockOutcome)
      requires Valid() && index < |parts|
      modifies this`blocks, this`order, this`requests, this`bytesRead, this`hashed, this`nextHash, this`gaps, source
      ensures Valid()
      ensures r.Fetched? ==> IsBlock(parts, block, index, r.raw)
      ensures r.Fetched? ==> State() == Touch(old(State()), cached, hashing, index)
      ensures r.Fetched? ==> Tally() == Count(old(Tally()), hashing, index !in old(blocks), index)
      ensures r.Fetched? ==> blocks.Keys <= old(blocks.Keys) + {index}
      ensures r.NotHeld? ==> cached == 0
      ensures r.BlockLength? || r.Unreachable? ==> State() == old(State()) && bytesRead == old(bytesRead)
      ensures old(source.Reliable()) ==> source.Reliable() && (0 <= index ==> (r.Fetched? <==> 0 < cached))
    {
      if index in blocks {
        r := Fetched(blocks[index]);
      } else {
        r := Miss(index);
        if !r.Fetched? {
          return;
        }
      }
      if index !in blocks {
        return NotHeld;
      }
      Promote(index);
    }

    method Miss(index: int) returns (r: BlockOutcome)
      requires Valid() && index < |parts| && index !in blocks
      modifies this`blocks, this`order, this`requests, this`bytesRead, this`hashed, this`nextHash, this`gaps, source
      ensures Valid() && !r.NotHeld?
      ensures r.Fetched? ==>
        && IsBlock(parts, block, index, r.raw) && (index in blocks <==> 0 < cached)
        && order == Joined(old(order), cached, index) && blocks.Keys <= old(blocks.Keys) + {index}
        && Tally() == Count(old(Tally()), hashing, true, index)
      ensures !r.Fetched? ==> State() == old(State()) && bytesRead == old(bytesRead)
      ensures old(source.Reliable()) ==> source.Reliable() && (0 <= index ==> r.Fetched?)
    {
      r := Download(index);
      if r.Fetched? {
        Admit(index, r.raw);
      }
    }

    method Promote(index: int)
      requires Valid() && index in blocks
      modifies this`order
      ensures Valid() && order == MoveToEnd(old(order), index)
    {
      MoveKeepsCache(parts, block, cached, blocks, order, index);
      order := MoveToEnd(order, index);
    }

    /** Where a read of `n` bytes from the current offset ends. */
    function Until(n: int): int
      reads this`offset
    {
      if offset >= Size() then offset else Min(offset + n, Size())
    }

    /** A read that succeeds returns exactly the requested slice of the range, clipped at its end, with
        at most one request a block; one that fails leaves the offset where it was. From a negative offset the
        bytes before the range are the service's choice, and those of the range follow them. */
    method ReadInto(n: nat) returns (r: ReadOutcome)
      requires Valid()
      modifies this, source
      ensures Valid() && !r.NegativeCount?
      ensures offset == if r.Data? then old(Until(n)) else old(offset)
      ensures r.Data? && old(offset) >= Size() ==> r.data == [] && Tally() == old(Tally()) && blocks == old(blocks)
      ensures r.Data? && 0 <= old(offset) < Size() ==>
        && r.data == view[old(offset)..offset]
        && Fetches(FirstBlock(old(offset), block), StopBlock(old(offset), offset, block))
      ensures r.Data? && old(offset) < 0 ==> FromBefore(view, old(offset), offset, r.data)
      ensures old(source.Reliable()) ==> source.Reliable() && (0 < cached && 0 <= old(offset) ==> r.Data?)
    {
      if offset >= Size() {
        return Data([]);
      }
      var size := Min(n, Size() - offset);
      if offset < 0 {
        r := GatherBefore(offset, offset + size);
      } else {
        r := Gather(offset, offset + size);
      }
      if r.Data? {
        offset := offset + |r.data|;
      }
    }

    /** A read from before the range: the blocks before it, then the range from its start. */
    method GatherBefore(from: int, to: int) returns (r: ReadOutcome)
      requires Valid() && from < 0 && from <= to <= |view|
      modifies this`blocks, this`order, this`requests, this`bytesRead, this`hashed, this`nextHash, this`gaps, source
      ensures Valid() && !r.NegativeCount?
      ensures r.Data? ==> FromBefore(view, from, to, r.data)
      ensures old(source.Reliable()) ==> source.Reliable()
    {
      r := StrangeBlocks(from, to);
      if r.Data? && 0 < to {
        var rest := Gather(0, to);
        r := if rest.Data? then Data(r.data + rest.data) else rest;
      }
    }

    /** The blocks before the range that the read `[from, to)` touches. */
    method StrangeBlocks(from: int, to: int) returns (r: ReadOutcome)
      requires Valid() && from < 0 && from <= to
      modifies this`blocks, this`order, this`requests, this`bytesRead, this`hashed, this`nextHash, this`gaps, source
      ensures Valid() && !r.NegativeCount?
      ensures r.Data? ==> |r.data| == Min(to, 0) - from
      ensures old(source.Reliable()) ==> source.Reliable()
    {
      var first, last := from / block, (to - 1) / block;
      var index, chunk: Bytes := first, [];
      StrangeEnds(from, to, block);
      while index < Min(Max(first, last + 1), 0)
        invariant Valid() && first <= index <= Max(first, Min(last + 1, 0))
        invariant |chunk| == Covered(from, to, block, index) - from
        invariant old(source.Reliable()) ==> source.Reliable()
      {
        var fetched := Block(index);
        if !fetched.Fetched? {
          return ReadFailed(fetched);
        }
        StrangePiece(from, to, block, index, fetched.raw);
        chunk := chunk + PieceOf(fetched.raw, index * block, from, to, block);
        index := index + 1;
      }
      r := Data(chunk);
    }

    /** What a read of the blocks `first..stop` may do to the counters and the contents. */
    twostate predicate Fetches(first: int, stop: int)
      requires first <= stop
      reads this
    {
      && old(requests) <= requests <= old(requests) + (stop - first)
      && (stop == first ==> Tally() == old(Tally()) && blocks == old(blocks))
      && (stop == first + 1 ==>
            && Tally() == Count(old(Tally()), hashing, first !in old(blocks), first)
            && blocks.Keys <= old(blocks.Keys) + {first})
    }

    /** What block `index` contributes to a read of `[from, to)`: the bytes from `here` to `next`. */
    method Piece(index: nat, from: nat, to: nat, ghost here: nat, ghost next: nat) returns (r: ReadOutcome)
      requires Valid() && Contributes(view, parts, from, to, block, index, here, next)
      modifies this`blocks, this`order, this`requests, this`bytesRead, this`hashed, this`nextHash, this`gaps, source
      ensures Valid() && !r.NegativeCount?
      ensures r.Data? ==> r.data == view[here..next]
      ensures r.Data? ==> Tally() == Count(old(Tally()), hashing, index !in old(blocks), index)
      ensures r.Data? ==> blocks.Keys <= old(blocks.Keys) + {index}
      ensures old(source.Reliable()) ==> source.Reliable() && (0 < cached ==> r.Data?)
    {
      var low := index * block;
      ContributedPiece(view, parts, from, to, block, index, here, next, low);
      var fetched := Block(index);
      if !fetched.Fetched? {
        return ReadFailed(fetched);
      }
      r := Data(PieceOf(fetched.raw, low, from, to, block));
    }

    /** Joins the pieces of `[from, to)` block by block. */
    method Gather(from: nat, to: nat) returns (r: ReadOutcome)
      requires Valid() && from <= to <= |view| && from < |view|
      modifies this`blocks, this`order, this`requests, this`bytesRead, this`hashed, this`nextHash, this`gaps, source
      ensures Valid() && !r.NegativeCount?
      ensures r.Data? ==> r.data == view[from..to]
      ensures r.Data? ==> Fetches(FirstBlock(from, block), StopBlock(from, to, block))
      ensures old(source.Reliable()) ==> source.Reliable() && (0 < cached ==> r.Data?)
    {
      var first, last := from / block, (to - 1) / block;
      BlocksOfRead(view, from, to, block);
      r := GatherBlocks(from, to, first, Max(first, last + 1), Marks(from, to, block));
    }

    method GatherBlocks(from: nat, to: nat, first: nat, stop: nat, ghost marks: seq<nat>) returns (r: ReadOutcome)
      requires Valid() && from <= to <= |view| && SpansRead(view, parts, from, to, block, first, stop, marks)
      modifies this`blocks, this`order, this`requests, this`bytesRead, this`hashed, this`nextHash, this`gaps, source
      ensures Valid() && !r.NegativeCount?
      ensures r.Data? ==> r.data == view[from..to]
      ensures r.Data? ==> Fetches(first, stop)
      ensures old(source.Reliable()) ==> source.Reliable() && (0 < cached ==> r.Data?)
    {
      var index, chunk: Bytes := first, [];
      while index < stop
        invariant Valid() && first <= index <= stop
        invariant from <= marks[index - first] <= to
        invariant chunk == view[from..marks[index - first]]
        invariant Fetches(first, index)
        invariant old(source.Reliable()) ==> source.Reliable()
      {
        ghost var here, next := marks[index - first], marks[index - first + 1];
        MarkedContribution(view, parts, from, to, block, first, stop, marks, index);
        var piece := Piece(index, from, to, here, next);
        if !piece.Data? {
          return piece;
        }
        SliceJoin(view, from, here, next);
        chunk := chunk + piece.data;
        index := index + 1;
      }
      r := Data(chunk);
    }

    /** `read(size)`: no size or a negative one means "to the end", which fails past the end. */
    method Read(size: int) returns (r: ReadOutcome)
      requires Valid()
      modifies this, source
      ensures Valid()
      ensures r.NegativeCount? <==> size < 0 && old(offset) > Size()
      ensures offset == if r.Data? then old(Until(if size < 0 then Size() - offset else size)) else old(offset)
      ensures r.Data? && old(offset) >= Size() ==> r.data == [] && Tally() == old(Tally()) && blocks == old(blocks)
      ensures r.Data? && 0 <= old(offset) < Size() ==>
        && r.data == view[old(offset)..offset]
        && Fetches(FirstBlock(old(offset), block), StopBlock(old(offset), offset, block))
      ensures r.Data? && old(offset) < 0 ==> FromBefore(view, old(offset), offset, r.data)
      ensures old(source.Reliable()) ==> source.Reliable()
      ensures old(source.Reliable()) && 0 < cached && 0 <= old(offset) && !r.NegativeCount? ==> r.Data?
    {
      var n := size;
      if size < 0 {
        n := Size() - offset;
      }
      if n < 0 {
        return NegativeCount;
      }
      r := ReadInto(n);
    }

    /** The contiguity test of the archive check. */
    predicate Contiguous()
      requires 0 < block && start <= end
      reads this
    {
      nextHash == BlockCount(end - start, block)
    }

    /** Under every access pattern the test holds exactly when the bytes hashed are the whole range. */
    lemma ContiguousMeansWhole()
      requires Valid()
      ensures Contiguous() <==> hashed == view
    {
      SplitCount(view, block);
      GlueWhole(view, block, nextHash);
    }
  }

  lemma SliceJoin(view: Bytes, a: nat, b: nat, c: nat)
    requires a <= b <= c <= |view|
    ensures view[a..b] + view[b..c] == view[a..c]
  {
  }

  /** Block `i` holds the bytes of the read between `here` and `next`. */
  predicate Contributes(view: Bytes, parts: seq<Bytes>, from: nat, to: nat, block: nat, i: nat, here: nat, next: nat) {
    && i < |parts| && from <= here <= next <= to <= |view|
    && var lo, hi := Max(from - i * block, 0), Min(to - i * block, block);
       0 <= lo <= hi <= |parts[i]| && parts[i][lo..hi] == view[here..next]
  }

  /** The part of a block that starts at `low` which a read of `[from, to)` takes; a slice never fails. */
  function PieceOf(raw: Bytes, low: int, from: int, to: int, block: nat): Bytes {
    var lo, hi := Max(from - low, 0), Min(to - low, block);
    if 0 <= lo <= hi <= |raw| then raw[lo..hi] else []
  }

  /** What a read from a negative offset returns: something of the right length, then the range from its
      start. */
  predicate FromBefore(view: Bytes, from: int, to: int, data: Bytes) {
    from < 0 && from <= to <= |view| && |data| == to - from && (0 < to ==> data[-from..] == view[..to])
  }

  /** How far such a read has got once the blocks below `index` are joined. */
  function Covered(from: int, to: int, block: nat, index: int): int {
    Max(from, Min(to, index * block))
  }

  /** Rounding down, for negative numbers too. */
  lemma Floor(x: int, block: nat)
    requires 0 < block
    ensures x / block * block <= x < x / block * block + block
    ensures x < 0 ==> x / block < 0
  {
    assert x == x / block * block + x % block;
    if 0 <= x / block { Monotone(0, x / block, block); }
  }

  lemma StrangeEnds(from: int, to: int, block: nat)
    requires 0 < block && from < 0 && from <= to
    ensures var first, last := from / block, (to - 1) / block;
      && first < 0 && Covered(from, to, block, first) == from
      && Covered(from, to, block, Max(first, Min(last + 1, 0))) == Min(to, 0)
  {
    var first, last := from / block, (to - 1) / block;
    Floor(from, block);
    Floor(to - 1, block);
    Successor(last, block);
    if last < first {
      Monotone(last + 1, first, block);
    } else if 0 <= last {
      Monotone(0, last, block);
    }
  }

  lemma StrangePiece(from: int, to: int, block: nat, index: int, raw: Bytes)
    requires 0 < block && from < 0 && from <= to && |raw| == block
    requires from / block <= index < Max(from / block, Min((to - 1) / block + 1, 0))
    ensures |PieceOf(raw, index * block, from, to, block)| ==
            Covered(from, to, block, index + 1) - Covered(from, to, block, index)
  {
    var first, last := from / block, (to - 1) / block;
    Floor(from, block);
    Floor(to - 1, block);
    Successor(index, block);
    Monotone(first, index, block);
    Monotone(index, last, block);
    PieceLength(from, to, block, index * block, raw);
  }

  lemma PieceLength(from: int, to: int, block: nat, low: int, raw: Bytes)
    requires from <= to && |raw| == block && from < low + block && low <= to
    ensures |PieceOf(raw, low, from, to, block)| == Max(from, Min(to, low + block)) - Max(from, Min(to, low))
  {
  }

  lemma ContributedPiece(view: Bytes, parts: seq<Bytes>, from: nat, to: nat, block: nat, i: nat, here: nat, next: nat,
                         low: nat)
    requires Contributes(view, parts, from, to, block, i, here, next) && low == i * block
    ensures here <= next <= |view| && PieceOf(parts[i], low, from, to, block) == view[here..next]
  {
  }

  /** The blocks `first..stop` together hold the read; the marks are how far it has got before each. */
  ghost predicate SpansRead(view: Bytes, parts: seq<Bytes>, from: nat, to: nat, block: nat, first: nat, stop: nat,
                            marks: seq<nat>) {
    && first <= stop && |marks| == stop - first + 1 && marks[0] == from && marks[stop - first] == to
    && forall i | 0 <= i < stop - first :: Contributes(view, parts, from, to, block, first + i, marks[i], marks[i + 1])
  }

  lemma MarkedContribution(view: Bytes, parts: seq<Bytes>, from: nat, to: nat, block: nat, first: nat, stop: nat,
                           marks: seq<nat>, index: nat)
    requires SpansRead(view, parts, from, to, block, first, stop, marks) && first <= index < stop
    ensures Contributes(view, parts, from, to, block, index, marks[index - first], marks[index - first + 1])
  {
    var i := index - first;
    assert Contributes(view, parts, from, to, block, first + i, marks[i], marks[i + 1]);
  }

  function Marks(from: nat, to: nat, block: nat): (marks: seq<nat>)
    requires 0 < block && from <= to
    ensures |marks| == StopBlock(from, to, block) - FirstBlock(from, block) + 1
    ensures forall i | 0 <= i < |marks| :: marks[i] == Reached(from, to, block, FirstBlock(from, block) + i)
  {
    var first, stop := FirstBlock(from, block), StopBlock(from, to, block);
    seq<nat>(stop - first + 1, i requires 0 <= i => Reached(from, to, block, first + i))
  }

  lemma BlocksOfRead(view: Bytes, from: nat, to: nat, block: nat)
    requires 0 < block && from <= to <= |view| && from < |view|
    ensures SpansRead(view, Split(view, block), from, to, block, FirstBlock(from, block), StopBlock(from, to, block),
                      Marks(from, to, block))
  {
    var first, stop, marks := FirstBlock(from, block), StopBlock(from, to, block), Marks(from, to, block);
    ReadEnds(from, to, block);
    forall i | 0 <= i < stop - first
      ensures Contributes(view, Split(view, block), from, to, block, first + i, marks[i], marks[i + 1])
    {
      BlockContributes(view, from, to, block, first + i);
    }
  }

  lemma ReadEnds(from: nat, to: nat, block: nat)
    requires 0 < block && from <= to
    ensures Reached(from, to, block, FirstBlock(from, block)) == from
    ensures Reached(from, to, block, StopBlock(from, to, block)) == to
  {
    FloorBounds(from, block);
    if from < to {
      FloorBounds(to - 1, block);
      Successor((to - 1) / block, block);
      FloorMonotone(from, to - 1, block);
    }
  }

  lemma BlockContributes(view: Bytes, from: nat, to: nat, block: nat, i: nat)
    requires 0 < block && from <= to <= |view| && from < |view|
    requires FirstBlock(from, block) <= i < StopBlock(from, to, block)
    ensures Contributes(view, Split(view, block), from, to, block, i, Reached(from, to, block, i),
                        Reached(from, to, block, i + 1))
  {
    FloorBounds(from, block);
    Monotone(FirstBlock(from, block), i, block);
    BlockInRead(view, from, to, block, i);
    PieceExtends(view, block, i, from, to, i * block, Split(view, block)[i]);
  }

  lemma FloorMonotone(a: nat, b: nat, block: nat)
    requires 0 < block && a <= b
    ensures a / block <= b / block
  {
    FloorBounds(a, block);
    FloorBounds(b, block);
    if b / block < a / block { Monotone(b / block + 1, a / block, block); }
  }

  lemma BlockInRead(view: Bytes, from: nat, to: nat, block: nat, i: nat)
    requires 0 < block && from <= to <= |view| && from < |view|
    requires FirstBlock(from, block) <= i < StopBlock(from, to, block)
    ensures i < |Split(view, block)| && i * block <= to
  {
    if to > 0 {
      FloorBounds(to - 1, block);
      Monotone(i, (to - 1) / block, block);
      SplitCovers(view, block, i);
    }
  }

  // ---------------------------------------------------------------- any sequence of seeks and reads

  datatype Access = SeekTo(target: int, whence: Whence) | ReadSome(size: int)

  /** The same accesses on the plain bytes. */
  function PlainSeek(view: Bytes, offset: int, target: int, whence: Whence): int {
    match whence
    case FromStart => target
    case FromCurrent => offset + target
    case FromEnd => |view| + target
  }

  function PlainEnd(view: Bytes, offset: int, size: int): int {
    var n := if size < 0 then |view| - offset else size;
    if offset >= |view| then offset else Min(offset + n, |view|)
  }

  /** A read to the end raises from past the end. */
  function PlainRead(view: Bytes, offset: nat, size: int): Option<Bytes> {
    if offset > |view| && size < 0 then None
    else if offset >= |view| then Some([])
    else Some(view[offset..Max(offset, PlainEnd(view, offset, size))])
  }

  /** What one read may return: from an offset in or past the range, what it returns on the plain bytes; from
      before it, something of the right length followed by the plain bytes from the start. */
  predicate Answers(view: Bytes, offset: int, size: int, r: Option<Bytes>) {
    if 0 <= offset then r == PlainRead(view, offset, size)
    else r.Some? && FromBefore(view, offset, PlainEnd(view, offset, size), r.value)
  }

  /** The offset after the first `n` accesses. A read that failed, and so returned nothing, moved nothing. */
  function PlainOffset(view: Bytes, accesses: seq<Access>, results: seq<seq<Option<Bytes>>>, n: nat): int
    requires n <= |results| <= |accesses|
  {
    if n == 0 then 0
    else
      var offset := PlainOffset(view, accesses, results, n - 1);
      match accesses[n - 1]
      case SeekTo(target, whence) => PlainSeek(view, offset, target, whence)
      case ReadSome(size) => if results[n - 1] == [] then offset else PlainEnd(view, offset, size)
  }

  lemma {:induction false} OffsetSame(view: Bytes, accesses: seq<Access>, results: seq<seq<Option<Bytes>>>,
      one: seq<Option<Bytes>>, n: nat)
    requires n <= |results| < |accesses|
    ensures PlainOffset(view, accesses, results + [one], n) == PlainOffset(view, accesses, results, n)
  {
    if n > 0 { OffsetSame(view, accesses, results, one, n - 1); }
  }

  /** What an access may return: nothing for a seek; for a read one answer, or nothing when it
      failed. `sure` says that a read from an offset in or past the range cannot fail. */
  predicate MayReturn(view: Bytes, offset: int, a: Access, sure: bool, returned: seq<Option<Bytes>>) {
    match a
    case SeekTo(_, _) => returned == []
    case ReadSome(size) =>
      || (returned == [] && !(sure && 0 <= offset))
      || (|returned| == 1 && Answers(view, offset, size, returned[0]))
  }

  predicate AnswersAt(view: Bytes, accesses: seq<Access>, sure: bool, results: seq<seq<Option<Bytes>>>, i: nat)
    requires i < |results| <= |accesses|
  {
    MayReturn(view, PlainOffset(view, accesses, results, i), accesses[i], sure, results[i])
  }

  /** Every access so far returned what it may. */
  predicate AllAnswer(view: Bytes, accesses: seq<Access>, sure: bool, results: seq<seq<Option<Bytes>>>) {
    |results| <= |accesses| && forall i: nat | i < |results| :: AnswersAt(view, accesses, sure, results, i)
  }

  /** One access; a read that the network or a cache without capacity fails returns nothing. */
  method Perform(reader: RangeReader, a: Access, ghost sure: bool) returns (returned: seq<Option<Bytes>>)
    requires reader.Valid() && (sure ==> reader.source.Reliable() && 0 < reader.cached)
    modifies reader, reader.source
    ensures reader.Valid() && (sure ==> reader.source.Reliable())
    ensures MayReturn(reader.view, old(reader.offset), a, sure, returned)
    ensures reader.offset == match a
                             case SeekTo(target, whence) =>
                               PlainSeek(reader.view, old(reader.offset), target, whence)
                             case ReadSome(size) =>
                               if returned == [] then old(reader.offset)
                               else PlainEnd(reader.view, old(reader.offset), size)
  {
    match a {
      case SeekTo(target, whence) =>
        var _ := reader.Seek(target, whence);
        returned := [];
      case ReadSome(size) =>
        var read := reader.Read(size);
        returned := match read
                    case Data(data) => [Some(data)]
                    case NegativeCount => [None]
                    case ReadFailed(_) => [];
    }
  }

  /** The reader is indistinguishable from the plain bytes: whatever is cached, evicted or hashed, whatever reads
      failed before and wherever the accesses wander, each read from an offset in or past the range that does not
      fail returns what it returns on the range itself, and raises where that raises. With a capacity and a
      network that answers none of them fails. */
  method Replay(reader: RangeReader, accesses: seq<Access>) returns (results: seq<seq<Option<Bytes>>>)
    requires reader.Valid() && reader.offset == 0
    modifies reader, reader.source
    ensures reader.Valid() && |results| == |accesses|
    ensures AllAnswer(reader.view, accesses, old(reader.source.Reliable()) && 0 < reader.cached, results)
    ensures reader.Contiguous() <==> reader.hashed == reader.view
  {
    results := [];
    ghost var sure := reader.source.Reliable() && 0 < reader.cached;
    while |results| < |accesses|
      invariant reader.Valid() && |results| <= |accesses| && (sure ==> reader.source.Reliable() && 0 < reader.cached)
      invariant reader.offset == PlainOffset(reader.view, accesses, results, |results|)
      invariant AllAnswer(reader.view, accesses, sure, results)
      decreases |accesses| - |results|
    {
      var returned := Perform(reader, accesses[|results|], sure);
      AnswersOneMore(reader.view, accesses, sure, results, returned);
      results := results + [returned];
    }
    reader.ContiguousMeansWhole();
  }

  lemma AnswersOneMore(view: Bytes, accesses: seq<Access>, sure: bool, results: seq<seq<Option<Bytes>>>,
      one: seq<Option<Bytes>>)
    requires |results| < |accesses| && AllAnswer(view, accesses, sure, results)
    requires var n := |results|; MayReturn(view, PlainOffset(view, accesses, results, n), accesses[n], sure, one)
    ensures AllAnswer(view, accesses, sure, results + [one])
    ensures PlainOffset(view, accesses, results + [one], |results|) == PlainOffset(view, accesses, results, |results|)
  {
    forall i: nat | i < |results| + 1 ensures AnswersAt(view, accesses, sure, results + [one], i) {
      OffsetSame(view, accesses, results, one, i);
      if i < |results| { assert AnswersAt(view, accesses, sure, results, i); }
    }
    OffsetSame(view, accesses, results, one, |results|);
  }

  // ---------------------------------------------------------------- the archive check

  datatype ArchiveReport = ArchiveReport(hashed: Bytes, requests: nat, gaps: nat, contiguous: bool)

  /** The pass has read `turns` blocks of the whole object, each once and in order. */
  ghost predicate InTurn(reader: RangeReader, turns: nat)
    reads reader
  {
    && reader.Valid() && reader.hashing && reader.cached == 6
    && reader.start == 0 && reader.end == |reader.source.bytes| && reader.view == reader.source.bytes
    && reader.Tally() == Counters(turns, turns, 0) && turns <= |reader.parts|
    && reader.offset == Min(turns * reader.block, |reader.view|)
    && forall k | k in reader.blocks :: k < turns
  }

  /** The next read of one block; it returns nothing only when there is no further block. */
  method TakeTurn(reader: RangeReader, turns: nat) returns (read: ReadOutcome)
    requires InTurn(reader, turns)
    modifies reader, reader.source
    ensures reader.Valid()
    ensures read.Data? && read.data != [] ==> turns < |reader.parts| && InTurn(reader, turns + 1)
    ensures read.Data? && read.data == [] ==> turns == |reader.parts| && InTurn(reader, turns)
    ensures old(reader.source.Reliable()) ==> reader.source.Reliable() && read.Data?
  {
    NextSequentialRead(reader.view, reader.block, turns);
    read := reader.Read(reader.block);
  }

  /** One sequential pass with reads of exactly one block: it ends, and if every request is answered it
      has hashed the whole object, in order, without a gap, with one request a block. */
  method ArchiveStatus(source: RemoteObject, block: nat) returns (complete: bool, report: ArchiveReport)
    requires 0 < block
    modifies source
    ensures old(source.Reliable()) ==> complete
    ensures complete ==>
      && report.hashed == source.bytes && report.contiguous && report.gaps == 0
      && report.requests == BlockCount(|source.bytes|, block)
  {
    var reader := new RangeReader(source, block, 6, 0, |source.bytes|, true);
    complete := false;
    assert reader.view == source.bytes;
    var turns := 0;
    while true
      invariant fresh(reader) && reader.source == source && reader.block == block && InTurn(reader, turns)
      invariant old(source.Reliable()) ==> source.Reliable()
      decreases |reader.parts| - turns
    {
      var read := TakeTurn(reader, turns);
      if !read.Data? {
        return false, ArchiveReport([], 0, 0, false);
      }
      if read.data == [] {
        break;
      }
      turns := turns + 1;
    }
    NextSequentialRead(source.bytes, block, turns);
    SplitCount(source.bytes, block);
    reader.ContiguousMeansWhole();
    complete := true;
    report := ArchiveReport(reader.hashed, reader.requests, reader.gaps,
                            reader.nextHash == (|source.bytes| + block - 1) / block);
  }

  /** A read of one block at the start of block `k` spans block `k` alone. */
  lemma NextSequentialRead(view: Bytes, block: nat, k: nat)
    requires 0 < block && k <= |Split(view, block)|
    ensures k < |Split(view, block)| <==> k * block < |view|
    ensures k * block < |view| ==>
      var to := Min(k * block + block, |view|);
      FirstBlock(k * block, block) == k && StopBlock(k * block, to, block) == k + 1
    ensures Min(k * block + block, |view|) == Min((k + 1) * block, |view|)
  {
    Successor(k, block);
    if k < |Split(view, block)| { SplitAt(view, block, k); }
    if k * block < |view| {
      SplitCovers(view, block, k);
      FloorUnique(k * block, block, k);
      FloorUnique(Min(k * block + block, |view|) - 1, block, k);
    }
  }

  // ---------------------------------------------------------------- CachedRangeArchive

  /** An end in the last block may be past the object; the last byte is in that block too. */
  lemma LastHeld(view: Bytes, block: nat, end: nat)
    requires 0 < block && end / block < |Split(view, block)|
    ensures view != [] && (end >= |view| ==> (|view| - 1) / block == end / block)
  {
    var k := end / block;
    SplitAt(view, block, k);
    FloorBounds(end, block);
    if end >= |view| { FloorUnique(|view| - 1, block, k); }
  }

  const CAPACITY: nat := 3

  lemma RangeSpans(view: Bytes, block: nat, start: nat, end: nat)
    requires 0 < block && end / block < |Split(view, block)| && start <= end && start < |view|
    ensures var to := Min(end + 1, |view|);
      SpansRead(view, Split(view, block), start, to, block, start / block, end / block + 1, Marks(start, to, block))
  {
    FloorMonotone(start, end, block);
    LastHeld(view, block, end);
    BlocksOfRead(view, start, Min(end + 1, |view|), block);
  }

  /** The bytes from `start` to `end`, both included, that an object has. */
  function Within(view: Bytes, start: nat, end: nat): Bytes {
    if start <= end && start < |view| then view[start..Min(end + 1, |view|)] else []
  }

  /** How many blocks a range touches. */
  function Touched(start: nat, end: nat, block: nat): nat
    requires 0 < block
  {
    Max(end / block + 1 - start / block, 0)
  }

  lemma RangeBackward(view: Bytes, block: nat, start: nat, end: nat)
    requires 0 < block && start / block > end / block
    ensures Within(view, start, end) == []
  {
    if start <= end { FloorMonotone(start, end, block); }
  }

  /** A range without bytes that touches a block touches one only. */
  lemma RangeTouches(view: Bytes, block: nat, start: nat, end: nat)
    requires 0 < block && start / block <= end / block < |Split(view, block)| && (end < start || start >= |view|)
    ensures start / block == end / block && Touched(start, end, block) == 1 && Within(view, start, end) == []
  {
    LastHeld(view, block, end);
    if end < start {
      FloorMonotone(end, start, block);
    } else {
      FloorMonotone(|view| - 1, start, block);
      FloorMonotone(start, end, block);
    }
  }

  /** The last byte of the last block is at or past the object's last byte, and everything from the next
      block on is past it. */
  lemma PastEnd(view: Bytes, block: nat, start: nat, end: nat)
    requires 0 < block && start / block <= end / block && |Split(view, block)| <= end / block
    ensures var count := |Split(view, block)|;
      && |view| <= count * block
      && (start / block >= count ==> Within(view, start, end) == [])
      && (start / block < count ==>
            && start <= count * block - 1 && (count * block - 1) / block == count - 1
            && Within(view, start, count * block - 1) == Within(view, start, end))
  {
    var count := |Split(view, block)|;
    if count * block < |view| { SplitCovers(view, block, count); }
    FloorBounds(start, block);
    FloorBounds(end, block);
    Monotone(count, end / block, block);
    if start / block >= count {
      Monotone(count, start / block, block);
    } else {
      Successor(start / block, block);
      Successor(count - 1, block);
      Monotone(start / block + 1, count, block);
      FloorUnique(count * block - 1, block, count - 1);
    }
  }

  class CachedRangeArchive {
    const source: RemoteObject
    const block: nat
    ghost const parts: seq<Bytes>
    var blocks: map<int, Bytes>
    var order: seq<int>
    var bytesRead: nat
    var requests: nat

    ghost predicate Valid()
      reads this
    {
      0 < block && parts == Split(source.bytes, block) && CacheOk(parts, block, CAPACITY, blocks, order)
    }

    constructor (source: RemoteObject, block: nat)
      requires 0 < block
      ensures Valid() && this.source == source && this.block == block && blocks == map[]
      ensures bytesRead == 0 && requests == 0
    {
      this.source, this.block := source, block;
      parts := Split(source.bytes, block);
      blocks, order, bytesRead, requests := map[], [], 0, 0;
    }

    /** A miss: at most three blocks are held, the newest among them. */
    method Load(index: nat) returns (r: BlockOutcome)
      requires Valid() && index !in blocks
      modifies this, source
      ensures Valid() && !r.NotHeld?
      ensures r.Fetched? ==> index in blocks && order == Joined(old(order), 3, index)
      ensures !r.Fetched? ==> blocks == old(blocks) && order == old(order)
      ensures requests == old(requests) + (if r.Fetched? then 1 else 0)
      ensures bytesRead == old(bytesRead) + (if r.Fetched? then |r.raw| else 0)
      ensures old(source.Reliable()) ==> source.Reliable() && (index < |parts| ==> r.Fetched?)
    {
      r := Download(index);
      if r.Fetched? {
        Keep(index, r.raw);
        bytesRead := bytesRead + |r.raw|;
        requests := requests + 1;
      }
    }

    /** The network half: a block of the object, or a range past its end, which can only be answered with
        nothing. */
    method Download(index: nat) returns (r: BlockOutcome)
      requires Valid()
      modifies source
      ensures !r.NotHeld? && (r.Fetched? ==> IsBlock(parts, block, index, r.raw))
      ensures old(source.Reliable()) ==> source.Reliable() && (index < |parts| ==> r.Fetched?)
    {
      var low := index * block;
      var high := Min(low + block, |source.bytes|);
      var response;
      if low < |source.bytes| {
        SplitCovers(source.bytes, block, index);
        assert source.bytes[0..|source.bytes|] == source.bytes;
        RangeIsBlock(source.bytes, 0, |source.bytes|, block, index, low, high);
        response := source.GetRange(low, high);
      } else {
        if index < |parts| { SplitAt(source.bytes, block, index); }
        response := source.GetOutside();
      }
      if response.NoResponse? {
        return Unreachable;
      }
      if |response.raw| != high - low {
        return BlockLength;
      }
      r := Fetched(response.raw);
    }

    method Keep(index: nat, raw: Bytes)
      requires Valid() && IsBlock(parts, block, index, raw) && index !in blocks
      modifies this`blocks, this`order
      ensures Valid() && index in blocks && order == Joined(old(order), 3, index)
    {
      JoinKeepsCache(parts, block, CAPACITY, blocks, order, index, raw);
      blocks := blocks[index := raw];
      order := order + [index];
      if |order| > CAPACITY {
        blocks := blocks - {order[0]};
        order := order[1..];
      }
    }

    /** A block, loaded if need be, becomes the newest. */
    method Held(index: nat) returns (r: BlockOutcome)
      requires Valid()
      modifies this, source
      ensures Valid() && !r.NotHeld?
      ensures r.Fetched? ==> index in blocks && order != [] && order[|order| - 1] == index
      ensures r.Fetched? && index in old(blocks) ==> blocks == old(blocks) && order == MoveToEnd(old(order), index)
      ensures r.Fetched? ==> r.raw == if index < |parts| then parts[index] else []
      ensures r.Fetched? ==> requests == old(requests) + (if index in old(blocks) then 0 else 1)
      ensures old(source.Reliable()) ==> source.Reliable() && (index < |parts| ==> r.Fetched?)
    {
      if index !in blocks {
        r := Load(index);
        if !r.Fetched? {
          return;
        }
      }
      MoveKeepsCache(parts, block, CAPACITY, blocks, order, index);
      order := MoveToEnd(order, index);
      assert IsBlock(parts, block, index, blocks[index]);
      r := Fetched(blocks[index]);
    }

    /** The part of `[start, end]` that lies in one block. */
    method Part(index: nat, start: nat, end: nat, ghost here: nat, ghost next: nat) returns (r: ReadOutcome)
      requires Valid()
      requires Contributes(source.bytes, parts, start, Min(end + 1, |source.bytes|), block, index, here, next)
      modifies this, source
      ensures Valid() && !r.NegativeCount?
      ensures r.Data? ==> r.data == source.bytes[here..next]
      ensures r.Data? ==> requests == old(requests) + (if index in old(blocks) then 0 else 1)
      ensures old(source.Reliable()) ==> source.Reliable() && r.Data?
    {
      var low := index * block;
      SplitAt(source.bytes, block, index);
      var held := Held(index);
      if !held.Fetched? {
        return ReadFailed(held);
      }
      var high := Min(low + block, |source.bytes|);
      r := Data(held.raw[Max(start - low, 0)..Min(end - low + 1, high - low)]);
    }

    /** A range request for the bytes `start` to `end`, both included, is answered with exactly those of them
        the object has, even when it spans more blocks than the cache holds. A range without any, such as the
        one of an empty member, is answered with none, though its block is loaded when both ends are in one.
        Only a range that reaches a block past the last can fail on a network that answers. */
    method GetObject(start: nat, end: nat) returns (r: ReadOutcome)
      requires Valid()
      modifies this, source
      ensures Valid() && |order| <= 3 && !r.NegativeCount?
      ensures r.Data? ==> r.data == Within(source.bytes, start, end)
      ensures r.Data? ==> requests <= old(requests) + Touched(start, end, block)
      ensures old(source.Reliable()) ==> source.Reliable()
      ensures old(source.Reliable()) && (Touched(start, end, block) > 0 ==> end / block < |parts|) ==> r.Data?
    {
      SplitCount(source.bytes, block);
      var count := BlockCount(|source.bytes|, block);
      if start / block > end / block {
        RangeBackward(source.bytes, block, start, end);
        r := Data([]);
      } else if end / block < count {
        r := InBlocks(start, end);
      } else {
        r := PastBlocks(start, end, count);
      }
    }

    /** A range within the object's blocks. */
    method InBlocks(start: nat, end: nat) returns (r: ReadOutcome)
      requires Valid() && start / block <= end / block < |parts|
      modifies this, source
      ensures Valid() && !r.NegativeCount?
      ensures r.Data? ==> r.data == Within(source.bytes, start, end)
      ensures r.Data? ==> requests <= old(requests) + Touched(start, end, block)
      ensures old(source.Reliable()) ==> source.Reliable() && r.Data?
    {
      if start <= end && start < |source.bytes| {
        r := Gather(start, end);
      } else {
        r := TouchOnly(start, end);
      }
    }

    /** A range that reaches past the last block: the blocks there add nothing. */
    method PastBlocks(start: nat, end: nat, count: nat) returns (r: ReadOutcome)
      requires Valid() && start / block <= end / block && |parts| == count <= end / block
      modifies this, source
      ensures Valid() && !r.NegativeCount?
      ensures r.Data? ==> r.data == Within(source.bytes, start, end)
      ensures r.Data? ==> requests <= old(requests) + Touched(start, end, block)
      ensures old(source.Reliable()) ==> source.Reliable()
    {
      var first, stop := start / block, end / block + 1;
      PastEnd(source.bytes, block, start, end);
      var index: nat := Max(first, count);
      r := Data([]);
      if first < count {
        r := InBlocks(start, count * block - 1);
      }
      while index < stop && r.Data?
        invariant Max(first, count) <= index <= stop
        invariant Valid() && !r.NegativeCount?
        invariant r.Data? ==> r.data == Within(source.bytes, start, end) && requests <= old(requests) + (index - first)
        invariant old(source.Reliable()) ==> source.Reliable()
      {
        var held := Held(index);
        if !held.Fetched? {
          r := ReadFailed(held);
        }
        index := index + 1;
      }
    }

    /** A range without bytes still loads its block. */
    method TouchOnly(start: nat, end: nat) returns (r: ReadOutcome)
      requires Valid() && start / block <= end / block < |parts| && (end < start || start >= |source.bytes|)
      modifies this, source
      ensures Valid() && !r.NegativeCount?
      ensures r.Data? ==> r.data == Within(source.bytes, start, end)
      ensures r.Data? ==> requests <= old(requests) + Touched(start, end, block)
      ensures old(source.Reliable()) ==> source.Reliable() && r.Data?
    {
      RangeTouches(source.bytes, block, start, end);
      var held := Held(start / block);
      r := if held.Fetched? then Data([]) else ReadFailed(held);
    }

    method Gather(start: nat, end: nat) returns (r: ReadOutcome)
      requires Valid() && end / block < |parts| && start <= end && start < |source.bytes|
      modifies this, source
      ensures Valid() && !r.NegativeCount?
      ensures r.Data? ==> r.data == Within(source.bytes, start, end)
      ensures r.Data? ==> requests <= old(requests) + Touched(start, end, block)
      ensures old(source.Reliable()) ==> source.Reliable() && r.Data?
    {
      RangeSpans(source.bytes, block, start, end);
      r := GatherParts(start, end, start / block, end / block + 1, Marks(start, Min(end + 1, |source.bytes|), block));
    }

    method GatherParts(start: nat, end: nat, first: nat, stop: nat, ghost marks: seq<nat>) returns (r: ReadOutcome)
      requires Valid() && start <= end && start < |source.bytes|
      requires SpansRead(source.bytes, parts, start, Min(end + 1, |source.bytes|), block, first, stop, marks)
      modifies this, source
      ensures Valid() && !r.NegativeCount?
      ensures r.Data? ==> r.data == source.bytes[start..Min(end + 1, |source.bytes|)]
      ensures r.Data? ==> requests <= old(requests) + (stop - first)
      ensures old(source.Reliable()) ==> source.Reliable() && r.Data?
    {
      var index, joined: Bytes := first, [];
      ghost var to := Min(end + 1, |source.bytes|);
      while index < stop
        invariant Valid() && first <= index <= stop
        invariant start <= marks[index - first] <= Min(end + 1, |source.bytes|)
        invariant joined == source.bytes[start..marks[index - first]]
        invariant requests <= old(requests) + (index - first)
        invariant old(source.Reliable()) ==> source.Reliable()
      {
        ghost var here, next := marks[index - first], marks[index - first + 1];
        MarkedContribution(source.bytes, parts, start, to, block, first, stop, marks, index);
        var part := Part(index, start, end, here, next);
        if !part.Data? {
          return part;
        }
        SliceJoin(source.bytes, start, here, next);
        joined := joined + part.data;
        index := index + 1;
      }
      r := Data(joined);
    }
  }
}
