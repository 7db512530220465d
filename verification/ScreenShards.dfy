/** The per-metric screening index: built from all companies by the catalog publisher, and updated
    shard by shard by a release update. Both cut a sorted list into size-bounded chunks. */
module ScreenShards {
  import opened Sequences
  import opened Sorting
  import opened Text
  import opened CanonicalJson
  import opened Wrappers

  /** One company's row of one metric's index: its metric value if it has one, and its encoded text. */
  datatype Row = Row(cik: string, value: Option<real>, text: string)

  // ---------------------------------------------------------------- the order

  function Number(row: Row): real {
    match row.value
    case Some(n) => n
    case None => 0.0
  }

  /** Companies with a value first, by value, then by CIK. */
  predicate RowLeq(a: Row, b: Row) {
    if a.value.None? != b.value.None? then a.value.Some?
    else if Number(a) != Number(b) then Number(a) < Number(b)
    else Leq(a.cik, b.cik)
  }

  predicate DistinctCiks(rows: seq<Row>) {
    forall i, j | 0 <= i < j < |rows| :: rows[i].cik != rows[j].cik
  }

  lemma RowsTotal(rows: seq<Row>)
    requires DistinctCiks(rows)
    ensures TotalOn(RowLeq, rows)
  {
    forall a, b | a in rows && b in rows ensures RowLeq(a, b) || RowLeq(b, a) { LeqTotal(a.cik, b.cik); }
    forall a, b | a in rows && b in rows && RowLeq(a, b) && RowLeq(b, a) ensures a == b {
      LeqAntisymmetric(a.cik, b.cik);
    }
    forall a, b, c | a in rows && b in rows && c in rows && RowLeq(a, b) && RowLeq(b, c) ensures RowLeq(a, c) {
      if Leq(a.cik, b.cik) && Leq(b.cik, c.cik) { LeqTransitive(a.cik, b.cik, c.cik); }
    }
  }

  function OrderedRows(rows: seq<Row>): seq<Row> {
    Sort(RowLeq, rows)
  }

  /** The order in plain comparisons: companies with a value come first and ascend by it, and companies with the
      same value, or both without one, ascend by CIK. */
  lemma OrderedRowsMean(rows: seq<Row>)
    requires DistinctCiks(rows)
    ensures multiset(OrderedRows(rows)) == multiset(rows)
    ensures forall i, j | 0 <= i < j < |rows| && OrderedRows(rows)[j].value.Some? ::
              OrderedRows(rows)[i].value.Some? && OrderedRows(rows)[i].value.value <= OrderedRows(rows)[j].value.value
    ensures forall i, j | 0 <= i < j < |rows| && OrderedRows(rows)[i].value == OrderedRows(rows)[j].value ::
              Leq(OrderedRows(rows)[i].cik, OrderedRows(rows)[j].cik)
  {
    RowsTotal(rows);
    SortSorts(RowLeq, rows);
    SortKeeps(RowLeq, rows);
    assert |multiset(OrderedRows(rows))| == |multiset(rows)|;
    forall i, j | 0 <= i < j < |rows| ensures RowLeq(OrderedRows(rows)[i], OrderedRows(rows)[j]) {}
  }

  // ---------------------------------------------------------------- chunks

  /** The canonical encoding of a list of rows. */
  function EncodedList(rows: seq<Row>): string {
    "[" + Join(Texts(rows)) + "]"
  }

  function Texts(rows: seq<Row>): (t: seq<string>)
    ensures |t| == |rows| && forall i | 0 <= i < |rows| :: t[i] == rows[i].text
  {
    seq(|rows|, i requires 0 <= i < |rows| => rows[i].text)
  }

  lemma {:induction false} JoinLength(parts: seq<string>, last: string)
    ensures |Join(parts + [last])| == |Join(parts)| + (if parts == [] then 0 else 1) + |last|
  {
    if parts != [] {
      assert (parts + [last])[1..] == parts[1..] + [last];
      JoinLength(parts[1..], last);
      if |parts| == 1 { assert parts[1..] + [last] == [last]; }
    } else {
      assert parts + [last] == [last];
    }
  }

  /** The length of that encoding: each row costs its text, and a comma unless it is the first. */
  function Size(rows: seq<Row>): nat {
    if rows == [] then 2
    else Size(rows[..|rows| - 1]) + (if |rows| == 1 then 0 else 1) + |rows[|rows| - 1].text|
  }

  lemma {:induction false} SizeIsLength(rows: seq<Row>)
    ensures |EncodedList(rows)| == Size(rows)
  {
    if rows != [] {
      var front, last := rows[..|rows| - 1], rows[|rows| - 1];
      SizeIsLength(front);
      JoinLength(Texts(front), last.text);
      assert Texts(rows) == Texts(front) + [last.text];
    }
  }

  lemma SizeAppend(rows: seq<Row>, row: Row)
    ensures Size(rows + [row]) == Size(rows) + (if rows == [] then 0 else 1) + |row.text|
  {
    assert (rows + [row])[..|rows|] == rows;
  }

  const ROOM: nat := 512
  const CATALOG_LIMIT: nat := 2 * 1048576 - 1024
  const MAXIMUM: nat := 2 * 1048576
  const REREAD_LIMIT: nat := 4 * 1048576

  /** A chunk of the update: several rows leave room for the wrapper, a single one may just exceed it. */
  predicate ChunkOk(chunk: seq<Row>, maximum: nat) {
    && chunk != []
    && (|chunk| == 1 ==> Size(chunk) <= maximum + 1)
    && (|chunk| > 1 ==> Size(chunk) + ROOM + 1 <= maximum)
  }

  /** The next chunk's first row would not have fitted. */
  predicate Full(chunk: seq<Row>, next: Row, maximum: nat) {
    Size(chunk) + 1 + |next.text| + 1 > maximum - ROOM
  }

  predicate FullAt(chunks: seq<seq<Row>>, i: nat, maximum: nat)
    requires i + 1 < |chunks|
  {
    chunks[i + 1] != [] && Full(chunks[i], chunks[i + 1][0], maximum)
  }

  ghost predicate ChunksOk(chunks: seq<seq<Row>>, maximum: nat) {
    && (forall i | 0 <= i < |chunks| :: ChunkOk(chunks[i], maximum))
    && forall i | 0 <= i < |chunks| - 1 :: FullAt(chunks, i, maximum)
  }

  /** In encoded lengths: a chunk of several rows leaves 513 bytes, a single row may exceed the maximum by one,
      and with the next chunk's first row it would have left fewer than 513. */
  lemma ChunksMean(chunks: seq<seq<Row>>, maximum: nat)
    ensures ChunksOk(chunks, maximum) <==>
      && (forall i | 0 <= i < |chunks| ::
            && chunks[i] != []
            && |EncodedList(chunks[i])| <= if |chunks[i]| == 1 then maximum + 1 else maximum - 513)
      && forall i, j | 0 <= i < j < |chunks| && j == i + 1 ::
           chunks[j] != [] && |EncodedList(chunks[i] + [chunks[j][0]])| > maximum - 513
  {
    forall i | 0 <= i < |chunks| { SizeIsLength(chunks[i]); }
    forall i | 0 <= i < |chunks| - 1 && chunks[i] != [] && chunks[i + 1] != []
      ensures FullAt(chunks, i, maximum) <==> |EncodedList(chunks[i] + [chunks[i + 1][0]])| > maximum - 513
    {
      SizeIsLength(chunks[i] + [chunks[i + 1][0]]);
      SizeAppend(chunks[i], chunks[i + 1][0]);
    }
  }

  predicate Fits(row: Row, maximum: nat) {
    |row.text| + 1 <= maximum
  }

  /** The rows consumed so far are those emitted and those held. */
  ghost predicate Consumed(rows: seq<Row>, i: nat, chunks: seq<seq<Row>>, held: seq<Row>) {
    i <= |rows| && Flatten(chunks) + held == rows[..i]
  }

  lemma ConsumeOne(rows: seq<Row>, i: nat, chunks: seq<seq<Row>>, held: seq<Row>)
    requires i < |rows| && Consumed(rows, i, chunks, held)
    ensures Consumed(rows, i + 1, chunks, held + [rows[i]])
    ensures Size(held + [rows[i]]) == Size(held) + (if held == [] then 0 else 1) + |rows[i].text|
  {
    assert rows[..i + 1] == rows[..i] + [rows[i]];
    SizeAppend(held, rows[i]);
  }

  lemma EmitHeld(rows: seq<Row>, i: nat, chunks: seq<seq<Row>>, held: seq<Row>)
    requires Consumed(rows, i, chunks, held)
    ensures Consumed(rows, i, chunks + [held], []) && Flatten(chunks + [held]) == rows[..i]
  {
    FlattenAppend(chunks, held);
  }

  lemma ChunksAppend(chunks: seq<seq<Row>>, chunk: seq<Row>, maximum: nat)
    requires ChunksOk(chunks, maximum) && ChunkOk(chunk, maximum)
    requires chunks != [] ==> Full(chunks[|chunks| - 1], chunk[0], maximum)
    ensures ChunksOk(chunks + [chunk], maximum)
  {
    var more := chunks + [chunk];
    forall i | 0 <= i < |more| - 1 ensures FullAt(more, i, maximum) {
      if i + 1 < |chunks| { assert FullAt(chunks, i, maximum); }
    }
  }

  /** What the loop keeps between two rows: the rows consumed are those emitted and those held, and the
      held ones started a chunk only because the emitted one before was full. */
  ghost predicate Chunking(rows: seq<Row>, i: nat, chunks: seq<seq<Row>>, current: seq<Row>, maximum: nat) {
    && Consumed(rows, i, chunks, current) && ChunksOk(chunks, maximum)
    && (if current == [] then i == 0 && chunks == [] else ChunkOk(current, maximum))
    && (current != [] && chunks != [] ==> Full(chunks[|chunks| - 1], current[0], maximum))
  }

  lemma OneRow(row: Row)
    ensures Size([row]) == 2 + |row.text| && [] + [row] == [row]
  {
    SizeAppend([], row);
    assert [] + [row] == [row];
  }

  lemma ChunkingHolds(rows: seq<Row>, i: nat, chunks: seq<seq<Row>>, current: seq<Row>, maximum: nat)
    requires Chunking(rows, i, chunks, current, maximum) && i < |rows| && Fits(rows[i], maximum)
    requires current != [] ==> !Full(current, rows[i], maximum)
    ensures Chunking(rows, i + 1, chunks, current + [rows[i]], maximum)
  {
    OneRow(rows[i]);
    ConsumeOne(rows, i, chunks, current);
    if current != [] { assert (current + [rows[i]])[0] == current[0]; }
  }

  lemma ChunkingEmits(rows: seq<Row>, i: nat, chunks: seq<seq<Row>>, current: seq<Row>, maximum: nat)
    requires Chunking(rows, i, chunks, current, maximum) && i < |rows| && Fits(rows[i], maximum)
    requires current != [] && Full(current, rows[i], maximum)
    ensures Chunking(rows, i + 1, chunks + [current], [rows[i]], maximum)
  {
    OneRow(rows[i]);
    EmitHeld(rows, i, chunks, current);
    ConsumeOne(rows, i, chunks + [current], []);
    ChunksAppend(chunks, current, maximum);
  }

  lemma ChunkingEnds(rows: seq<Row>, chunks: seq<seq<Row>>, current: seq<Row>, maximum: nat)
    requires Chunking(rows, |rows|, chunks, current, maximum)
    ensures var all := if current != [] then chunks + [current] else chunks;
      Flatten(all) == rows && ChunksOk(all, maximum)
  {
    assert rows[..|rows|] == rows;
    if current != [] {
      EmitHeld(rows, |rows|, chunks, current);
      ChunksAppend(chunks, current, maximum);
    }
  }

  /** One row within the budget is put into the chunk held, or starts the next one. */
  method Place(rows: seq<Row>, i: nat, done: seq<seq<Row>>, held: seq<Row>, sizeHeld: nat, maximum: nat)
      returns (chunks: seq<seq<Row>>, current: seq<Row>, size: nat)
    requires i < |rows| && Fits(rows[i], maximum)
    requires Chunking(rows, i, done, held, maximum) && Running(held, sizeHeld)
    ensures Chunking(rows, i + 1, chunks, current, maximum) && Running(current, size) && current != []
  {
    var row := rows[i];
    var length := |row.text| + 1;
    chunks, current, size := done, held, sizeHeld;
    OneRow(row);
    SizeAppend(current, row);
    if current != [] && size + length > maximum - ROOM {
      ChunkingEmits(rows, i, chunks, current, maximum);
      chunks, current, size := chunks + [current], [], 2;
    } else {
      ChunkingHolds(rows, i, chunks, current, maximum);
    }
    current := current + [row];
    size := size + length;
  }

  /** The running size counts a comma after every row. */
  predicate Running(current: seq<Row>, size: nat) {
    size == Size(current) + if current == [] then 0 else 1
  }

  lemma {:induction false} SizePrefix(rows: seq<Row>, n: nat)
    requires n <= |rows|
    ensures Size(rows[..n]) <= Size(rows)
    decreases |rows| - n
  {
    if n < |rows| {
      assert rows[..n + 1][..n] == rows[..n];
      SizePrefix(rows, n + 1);
    } else {
      assert rows[..n] == rows;
    }
  }

  /** Every chunk but the last ends because the next row would not have fitted, and no chunk takes such a row. */
  ghost predicate Greedy(chunks: seq<seq<Row>>, full: (seq<Row>, Row) -> bool) {
    && (forall i | 0 <= i < |chunks| :: chunks[i] != [] && Roomy(chunks[i], full))
    && forall i | 0 <= i < |chunks| - 1 :: EndsFull(chunks, i, full)
  }

  ghost predicate Roomy(chunk: seq<Row>, full: (seq<Row>, Row) -> bool) {
    forall n | 0 < n < |chunk| :: !full(chunk[..n], chunk[n])
  }

  ghost predicate EndsFull(chunks: seq<seq<Row>>, i: nat, full: (seq<Row>, Row) -> bool)
    requires i + 1 < |chunks|
  {
    chunks[i + 1] != [] && full(chunks[i], chunks[i + 1][0])
  }

  /** There is one greedy cut of the rows. */
  lemma {:induction false} GreedyUnique(one: seq<seq<Row>>, other: seq<seq<Row>>, full: (seq<Row>, Row) -> bool)
    requires Greedy(one, full) && Greedy(other, full) && Flatten(one) == Flatten(other)
    ensures one == other
    decreases |one|
  {
    if one != [] { FlattenHead(one); }
    if other != [] { FlattenHead(other); }
    if one != [] && other != [] {
      FirstNotShorter(one, other, full);
      FirstNotShorter(other, one, full);
      assert (one[0] + Flatten(one[1..]))[..|one[0]|] == one[0];
      assert (other[0] + Flatten(other[1..]))[..|other[0]|] == other[0];
      assert Flatten(one)[|one[0]|..] == Flatten(one[1..]) && Flatten(other)[|other[0]|..] == Flatten(other[1..]);
      GreedyRest(one, full);
      GreedyRest(other, full);
      GreedyUnique(one[1..], other[1..], full);
      assert one == [one[0]] + one[1..] && other == [other[0]] + other[1..];
    }
  }

  lemma GreedyRest(chunks: seq<seq<Row>>, full: (seq<Row>, Row) -> bool)
    requires Greedy(chunks, full) && chunks != []
    ensures Greedy(chunks[1..], full)
  {
    forall i | 0 <= i < |chunks| - 2 ensures EndsFull(chunks[1..], i, full) { assert EndsFull(chunks, i + 1, full); }
  }

  lemma RoomWithin(chunk: seq<Row>, rows: seq<Row>, n: nat, full: (seq<Row>, Row) -> bool)
    requires Roomy(chunk, full) && chunk <= rows && 0 < n < |rows|
    ensures n < |chunk| ==> !full(rows[..n], rows[n])
  {
    if n < |chunk| { assert chunk[..n] == rows[..n]; }
  }

  lemma FirstNotShorter(one: seq<seq<Row>>, other: seq<seq<Row>>, full: (seq<Row>, Row) -> bool)
    requires Greedy(one, full) && Greedy(other, full) && one != [] && other != []
    requires Flatten(one) == Flatten(other)
    ensures |one[0]| >= |other[0]|
  {
    var rows, n := Flatten(one), |one[0]|;
    FlattenHead(one);
    FlattenHead(other);
    if |one| == 1 {
      assert one[1..] == [];
    } else {
      FlattenHead(one[1..]);
      assert EndsFull(one, 0, full) && one[1..][0] == one[1];
      assert rows[n] == one[1][0] && rows[..n] == one[0];
      RoomWithin(other[0], rows, n, full);
    }
  }

  /** The update's cut is the only one that meets its bounds. */
  lemma ChunksUnique(one: seq<seq<Row>>, other: seq<seq<Row>>, maximum: nat)
    requires ChunksOk(one, maximum) && ChunksOk(other, maximum) && Flatten(one) == Flatten(other)
    ensures one == other
  {
    ChunksGreedy(one, maximum);
    ChunksGreedy(other, maximum);
    GreedyUnique(one, other, (chunk, next) => Full(chunk, next, maximum));
  }

  lemma ChunksGreedy(chunks: seq<seq<Row>>, maximum: nat)
    requires ChunksOk(chunks, maximum)
    ensures Greedy(chunks, (chunk, next) => Full(chunk, next, maximum))
  {
    var full := (chunk, next) => Full(chunk, next, maximum);
    forall i | 0 <= i < |chunks| ensures Roomy(chunks[i], full) {
      forall n | 0 < n < |chunks[i]| ensures !Full(chunks[i][..n], chunks[i][n], maximum) {
        SizeOfStart(chunks[i], n);
      }
    }
    forall i | 0 <= i < |chunks| - 1 ensures EndsFull(chunks, i, full) { assert FullAt(chunks, i, maximum); }
  }

  /** A start of a chunk and the row after it take no more than the chunk. */
  lemma SizeOfStart(rows: seq<Row>, n: nat)
    requires 0 < n < |rows|
    ensures Size(rows[..n]) + 1 + |rows[n].text| <= Size(rows)
  {
    SizePrefix(rows, n + 1);
    assert rows[..n + 1] == rows[..n] + [rows[n]];
    SizeAppend(rows[..n], rows[n]);
  }

  /** The update's chunking. It fails exactly on a row over the budget; the chunks it emits are
      non-empty, within their size, as full as they can be, and concatenate to the rows consumed. */
  method Chunks(rows: seq<Row>, maximum: nat) returns (ok: bool, chunks: seq<seq<Row>>)
    ensures ok <==> forall i | 0 <= i < |rows| :: Fits(rows[i], maximum)
    ensures ChunksOk(chunks, maximum)
    ensures ok ==> Flatten(chunks) == rows
  {
    chunks := [];
    var current: seq<Row>, size, i := [], 2, 0;
    while i < |rows|
      invariant 0 <= i <= |rows| && Chunking(rows, i, chunks, current, maximum) && Running(current, size)
      invariant forall j | 0 <= j < i :: Fits(rows[j], maximum)
    {
      if |rows[i].text| + 1 > maximum {
        return false, chunks;
      }
      chunks, current, size := Place(rows, i, chunks, current, size, maximum);
      i := i + 1;
    }
    ChunkingEnds(rows, chunks, current, maximum);
    if current != [] {
      chunks := chunks + [current];
    }
    ok := true;
  }

  /** A chunk of the catalog: within the limit unless it is a single row. */
  predicate CatalogChunkOk(chunk: seq<Row>) {
    chunk != [] && (|chunk| > 1 ==> Size(chunk) <= CATALOG_LIMIT)
  }

  predicate CatalogFullAt(chunks: seq<seq<Row>>, i: nat)
    requires i + 1 < |chunks|
  {
    chunks[i + 1] != [] && CatalogFull(chunks[i], chunks[i + 1][0])
  }

  /** Within the limit unless a single row, and not one row more would have fitted. */
  ghost predicate CatalogOk(chunks: seq<seq<Row>>) {
    && (forall i | 0 <= i < |chunks| :: CatalogChunkOk(chunks[i]))
    && forall i | 0 <= i < |chunks| - 1 :: CatalogFullAt(chunks, i)
  }

  predicate CatalogFull(chunk: seq<Row>, next: Row) {
    Size(chunk) + 1 + |next.text| > CATALOG_LIMIT
  }

  /** In encoded lengths: a chunk exceeds two MiB less one KiB only as a single row, and with the next chunk's
      first row it would have. */
  lemma CatalogMeans(chunks: seq<seq<Row>>)
    ensures CatalogOk(chunks) <==>
      && (forall i | 0 <= i < |chunks| :: chunks[i] != [] && (|chunks[i]| == 1 || |EncodedList(chunks[i])| <= 2096128))
      && forall i, j | 0 <= i < j < |chunks| && j == i + 1 ::
           chunks[j] != [] && |EncodedList(chunks[i] + [chunks[j][0]])| > 2096128
  {
    forall i | 0 <= i < |chunks| { SizeIsLength(chunks[i]); }
    forall i | 0 <= i < |chunks| - 1 && chunks[i] != [] && chunks[i + 1] != []
      ensures CatalogFullAt(chunks, i) <==> |EncodedList(chunks[i] + [chunks[i + 1][0]])| > 2096128
    {
      SizeIsLength(chunks[i] + [chunks[i + 1][0]]);
      SizeAppend(chunks[i], chunks[i + 1][0]);
    }
  }

  /** The catalog's cut is the only one that meets its limit. */
  lemma CatalogUnique(one: seq<seq<Row>>, other: seq<seq<Row>>)
    requires CatalogOk(one) && CatalogOk(other) && Flatten(one) == Flatten(other)
    ensures one == other
  {
    CatalogGreedy(one);
    CatalogGreedy(other);
    GreedyUnique(one, other, CatalogFull);
  }

  lemma CatalogGreedy(chunks: seq<seq<Row>>)
    requires CatalogOk(chunks)
    ensures Greedy(chunks, CatalogFull)
  {
    forall i | 0 <= i < |chunks| ensures Roomy(chunks[i], CatalogFull) {
      forall n | 0 < n < |chunks[i]| ensures !CatalogFull(chunks[i][..n], chunks[i][n]) {
        SizeOfStart(chunks[i], n);
      }
    }
    forall i | 0 <= i < |chunks| - 1 ensures EndsFull(chunks, i, CatalogFull) { assert CatalogFullAt(chunks, i); }
  }

  lemma CatalogAppend(chunks: seq<seq<Row>>, chunk: seq<Row>)
    requires CatalogOk(chunks) && CatalogChunkOk(chunk)
    requires chunks != [] ==> CatalogFull(chunks[|chunks| - 1], chunk[0])
    ensures CatalogOk(chunks + [chunk])
  {
    var more := chunks + [chunk];
    forall i | 0 <= i < |more| - 1 ensures CatalogFullAt(more, i) {
      if i + 1 < |chunks| { assert CatalogFullAt(chunks, i); }
    }
  }

  ghost predicate Cataloguing(rows: seq<Row>, i: nat, chunks: seq<seq<Row>>, chunk: seq<Row>) {
    && Consumed(rows, i, chunks, chunk) && CatalogOk(chunks)
    && (if chunk == [] then i == 0 && chunks == [] else CatalogChunkOk(chunk))
    && (chunk != [] && chunks != [] ==> CatalogFull(chunks[|chunks| - 1], chunk[0]))
  }

  lemma CataloguingHolds(rows: seq<Row>, i: nat, chunks: seq<seq<Row>>, chunk: seq<Row>)
    requires Cataloguing(rows, i, chunks, chunk) && i < |rows|
    requires chunk != [] ==> !CatalogFull(chunk, rows[i])
    ensures Cataloguing(rows, i + 1, chunks, chunk + [rows[i]])
  {
    OneRow(rows[i]);
    ConsumeOne(rows, i, chunks, chunk);
    if chunk != [] { assert (chunk + [rows[i]])[0] == chunk[0]; }
  }

  lemma CataloguingEmits(rows: seq<Row>, i: nat, chunks: seq<seq<Row>>, chunk: seq<Row>)
    requires Cataloguing(rows, i, chunks, chunk) && i < |rows|
    requires chunk != [] && CatalogFull(chunk, rows[i])
    ensures Cataloguing(rows, i + 1, chunks + [chunk], [rows[i]])
  {
    OneRow(rows[i]);
    EmitHeld(rows, i, chunks, chunk);
    ConsumeOne(rows, i, chunks + [chunk], []);
    CatalogAppend(chunks, chunk);
  }

  /** One row of the catalog; the running size stays the exact encoded length. */
  method PlaceInCatalog(rows: seq<Row>, i: nat, done: seq<seq<Row>>, held: seq<Row>, sizeHeld: nat)
      returns (chunks: seq<seq<Row>>, chunk: seq<Row>, size: nat)
    requires i < |rows| && Cataloguing(rows, i, done, held) && sizeHeld == Size(held)
    ensures Cataloguing(rows, i + 1, chunks, chunk) && size == Size(chunk) == |EncodedList(chunk)|
  {
    var row := rows[i];
    chunks, chunk, size := done, held, sizeHeld;
    var length := |row.text| + (if chunk != [] then 1 else 0);
    OneRow(row);
    SizeAppend(chunk, row);
    if chunk != [] && size + length > CATALOG_LIMIT {
      CataloguingEmits(rows, i, chunks, chunk);
      chunks, chunk, size := chunks + [chunk], [], 2;
      length := length - 1;
    } else {
      CataloguingHolds(rows, i, chunks, chunk);
    }
    chunk := chunk + [row];
    size := size + length;
    SizeIsLength(chunk);
  }

  /** The catalog publisher's chunking; its running size is the exact encoded length. */
  method CatalogChunks(rows: seq<Row>) returns (chunks: seq<seq<Row>>)
    ensures Flatten(chunks) == rows && CatalogOk(chunks)
  {
    chunks := [];
    var chunk: seq<Row>, size, i := [], 2, 0;
    while i < |rows|
      invariant 0 <= i <= |rows| && Cataloguing(rows, i, chunks, chunk)
      invariant size == Size(chunk)
    {
      chunks, chunk, size := PlaceInCatalog(rows, i, chunks, chunk, size);
      i := i + 1;
    }
    assert rows[..i] == rows;
    if chunk != [] {
      EmitHeld(rows, i, chunks, chunk);
      CatalogAppend(chunks, chunk);
      chunks := chunks + [chunk];
    }
  }

  // ---------------------------------------------------------------- shards fit the re-read limit

  /** A published shard: the rows with the two digests that pin their release and registry. */
  function Wrapped(rows: seq<Row>, release: string, registry: string): string {
    "{\"companies\":" + EncodedList(rows) + ",\"registry_sha256\":\"" + registry +
    "\",\"release_id\":\"" + release + "\"}"
  }

  const WRAPPER: nat := 179

  lemma WrappedLength(rows: seq<Row>, release: string, registry: string)
    requires |release| == 64 && |registry| == 64
    ensures |Wrapped(rows, release, registry)| == Size(rows) + WRAPPER
  {
    SizeIsLength(rows);
  }

  /** Every shard an update publishes can be read back by the next update. */
  lemma UpdateShardsReread(chunk: seq<Row>, release: string, registry: string)
    requires ChunkOk(chunk, MAXIMUM) && |release| == 64 && |registry| == 64
    ensures |Wrapped(chunk, release, registry)| <= 4 * 1048576
  {
    WrappedLength(chunk, release, registry);
  }

  lemma {:induction false} SizePositive(rows: seq<Row>)
    ensures Size(rows) >= 2
  {
    if rows != [] { SizePositive(rows[..|rows| - 1]); }
  }

  lemma {:induction false} SizeAtLeast(rows: seq<Row>, k: nat)
    requires k < |rows|
    ensures Size(rows) >= 2 + |rows[k].text|
  {
    var front, last := rows[..|rows| - 1], rows[|rows| - 1];
    SizePositive(front);
    if k < |front| { SizeAtLeast(front, k); }
  }

  lemma {:induction false} FlattenHas(chunks: seq<seq<Row>>, i: nat, k: nat)
    requires i < |chunks| && k < |chunks[i]|
    ensures chunks[i][k] in Flatten(chunks)
  {
    if i < |chunks| - 1 { FlattenHas(chunks[..|chunks| - 1], i, k); }
  }

  lemma {:induction false} FlattenFrom(chunks: seq<seq<Row>>, row: Row) returns (i: nat, k: nat)
    requires row in Flatten(chunks)
    ensures i < |chunks| && k < |chunks[i]| && chunks[i][k] == row
  {
    var front, last := chunks[..|chunks| - 1], chunks[|chunks| - 1];
    if row in last {
      i := |chunks| - 1;
      k :| 0 <= k < |last| && last[k] == row;
    } else {
      i, k := FlattenFrom(front, row);
    }
  }

  /** The catalog publisher has no row budget: its shards can be read back by an update exactly when no
      single row is too long for that. */
  lemma CatalogShardsReread(rows: seq<Row>, chunks: seq<seq<Row>>, release: string, registry: string)
    requires Flatten(chunks) == rows && CatalogOk(chunks)
    requires |release| == 64 && |registry| == 64
    ensures (forall i | 0 <= i < |chunks| :: |Wrapped(chunks[i], release, registry)| <= 4 * 1048576)
            <==> forall row | row in rows :: |row.text| + 181 <= 4 * 1048576
  {
    if forall i | 0 <= i < |chunks| :: |Wrapped(chunks[i], release, registry)| <= REREAD_LIMIT {
      forall row | row in rows ensures |row.text| + 2 + WRAPPER <= REREAD_LIMIT {
        var i, k := FlattenFrom(chunks, row);
        SizeAtLeast(chunks[i], k);
        WrappedLength(chunks[i], release, registry);
      }
    }
    if forall row | row in rows :: |row.text| + 2 + WRAPPER <= REREAD_LIMIT {
      forall i | 0 <= i < |chunks| ensures |Wrapped(chunks[i], release, registry)| <= REREAD_LIMIT {
        WrappedLength(chunks[i], release, registry);
        if |chunks[i]| == 1 {
          FlattenHas(chunks, i, 0);
          SizeAppend([], chunks[i][0]);
          assert chunks[i] == [] + [chunks[i][0]];
        }
      }
    }
  }

  /** A row whose text alone fills the re-read limit. */
  function LongRow(cik: string): Row {
    Row(cik, None, seq(REREAD_LIMIT, _ => ' '))
  }

  /** However the catalog publisher cuts it, a shard comes out that the next update cannot read. */
  lemma LongRowUnreadable(cik: string, chunks: seq<seq<Row>>, release: string, registry: string)
    requires Flatten(chunks) == [LongRow(cik)] && CatalogOk(chunks)
    requires |release| == 64 && |registry| == 64
    ensures exists i :: 0 <= i < |chunks| && |Wrapped(chunks[i], release, registry)| > 4 * 1048576
  {
    assert LongRow(cik) in [LongRow(cik)];
    CatalogShardsReread([LongRow(cik)], chunks, release, registry);
  }

  // ---------------------------------------------------------------- a rebuild

  /** The metric rows of all companies, keyed by CIK. */
  type Index = map<string, Row>

  ghost predicate IndexOk(index: Index) {
    forall cik | cik in index :: index[cik].cik == cik
  }

  function RowsOf(index: Index, ciks: seq<string>): (rows: seq<Row>)
    requires forall cik | cik in ciks :: cik in index
    ensures |rows| == |ciks| && forall i | 0 <= i < |rows| :: rows[i] == index[ciks[i]]
  {
    seq(|ciks|, i requires 0 <= i < |ciks| => index[ciks[i]])
  }

  /** What the catalog publisher would emit for these companies. */
  function Rebuild(index: Index): seq<Row> {
    OrderedRows(RowsOf(index, Ascending(index.Keys)))
  }

  /** Some list of the index's rows, each once. */
  ghost predicate Lists(index: Index, rows: seq<Row>) {
    DistinctCiks(rows) && forall row :: row in rows <==> row.cik in index && index[row.cik] == row
  }

  lemma RowsOfLists(index: Index)
    requires IndexOk(index)
    ensures Lists(index, RowsOf(index, Ascending(index.Keys)))
  {
    var ciks := Ascending(index.Keys);
    var rows := RowsOf(index, ciks);
    forall row ensures row in rows <==> row.cik in index && index[row.cik] == row {
      if row.cik in index && index[row.cik] == row {
        assert row.cik in ciks;
        var i :| 0 <= i < |ciks| && ciks[i] == row.cik;
        assert rows[i] == row;
      }
    }
  }

  lemma DistinctRows(rows: seq<Row>)
    requires DistinctCiks(rows)
    ensures forall i, j | 0 <= i < j < |rows| :: rows[i] != rows[j]
  {
  }

  /** Any listing of the same companies sorts to the same index. */
  lemma SortedListingsAgree(index: Index, rows: seq<Row>)
    requires IndexOk(index) && Lists(index, rows)
    ensures OrderedRows(rows) == Rebuild(index)
  {
    var all := RowsOf(index, Ascending(index.Keys));
    RowsOfLists(index);
    DistinctRows(rows);
    DistinctRows(all);
    DistinctPermutation(rows, all);
    RowsTotal(rows);
    RowsTotal(all);
    SortNormalForm(RowLeq, rows, all);
  }

  /** The index lists each company once and nothing else: those with a value first, by ascending value, those
      without one last, and equal ones by CIK. */
  lemma RebuildMeans(index: Index)
    requires IndexOk(index)
    ensures Lists(index, Rebuild(index)) && SortedBy(RowLeq, Rebuild(index))
    ensures forall i, j | 0 <= i < j < |Rebuild(index)| && Rebuild(index)[j].value.Some? ::
              Rebuild(index)[i].value.Some? && Rebuild(index)[i].value.value <= Rebuild(index)[j].value.value
    ensures forall i, j | 0 <= i < j < |Rebuild(index)| && Rebuild(index)[i].value == Rebuild(index)[j].value ::
              Leq(Rebuild(index)[i].cik, Rebuild(index)[j].cik)
  {
    var all := RowsOf(index, Ascending(index.Keys));
    OrderedRowsMean(all);
    RowsOfLists(index);
    RowsTotal(all);
    SortKeeps(RowLeq, all);
    SortSorts(RowLeq, all);
    SameElements(Rebuild(index), all);
    PermutedDistinct(all, Rebuild(index));
  }

  lemma PermutedDistinct(xs: seq<Row>, ys: seq<Row>)
    requires DistinctCiks(xs) && multiset(xs) == multiset(ys)
    ensures DistinctCiks(ys)
  {
    DistinctRows(xs);
    DistinctMultiset(xs);
    SameElements(xs, ys);
    forall i, j | 0 <= i < j < |ys| ensures ys[i].cik != ys[j].cik {
      if ys[i].cik == ys[j].cik {
        assert ys[i] in xs && ys[j] in xs;
        var a :| 0 <= a < |xs| && xs[a] == ys[i];
        var b :| 0 <= b < |xs| && xs[b] == ys[j];
        assert ys[i] == ys[j];
        TwiceInMultiset(ys, i, j);
      }
    }
  }

  lemma TwiceInMultiset(ys: seq<Row>, i: nat, j: nat)
    requires i < j < |ys| && ys[i] == ys[j]
    ensures multiset(ys)[ys[i]] >= 2
  {
    assert ys == ys[..i] + [ys[i]] + ys[i + 1..j] + [ys[j]] + ys[j + 1..];
  }

  // ---------------------------------------------------------------- an update

  datatype UpdateOutcome =
    | Updated(shards: seq<seq<Row>>) | MemoryBudget | ShardUnreadable | ContextMismatch | DuplicateCompany | RowBudget

  /** What reading an old shard yields: the rows under a release and registry, or an exception (its length or
      digest is not the pinned one, or it is too long). */
  datatype OldShard = Unreadable | OldShard(release: string, registry: string, rows: seq<Row>)

  predicate OfContext(shard: OldShard, release: string, registry: string) {
    shard.OldShard? && shard.release == release && shard.registry == registry
  }

  predicate AllOfContext(shards: seq<OldShard>, release: string, registry: string) {
    forall i | 0 <= i < |shards| :: OfContext(shards[i], release, registry)
  }

  /** The rows of the old shards, in order. */
  function Contents(shards: seq<OldShard>): seq<Row> {
    if shards == [] then []
    else
      var last := shards[|shards| - 1];
      Contents(shards[..|shards| - 1]) + if last.OldShard? then last.rows else []
  }

  function Keep(rows: seq<Row>, replaced: set<string>): seq<Row> {
    if rows == [] then []
    else Keep(rows[..|rows| - 1], replaced) + if rows[|rows| - 1].cik in replaced then [] else [rows[|rows| - 1]]
  }

  lemma {:induction false} KeepMeans(rows: seq<Row>, replaced: set<string>)
    ensures forall row :: row in Keep(rows, replaced) <==> row in rows && row.cik !in replaced
    ensures DistinctCiks(rows) ==> DistinctCiks(Keep(rows, replaced))
  {
    if rows != [] {
      var front, last := rows[..|rows| - 1], rows[|rows| - 1];
      KeepMeans(front, replaced);
      assert rows == front + [last];
      var kept := Keep(front, replaced);
      assert forall i | 0 <= i < |kept| :: kept[i] in front;
    }
  }

  function Ciks(rows: seq<Row>): set<string> {
    set row | row in rows :: row.cik
  }

  /** Reads the old shards and keeps the rows of companies that are not replaced; the first shard that cannot
      be read or is of another release or registry ends it. */
  method ReadShards(shards: seq<OldShard>, release: string, registry: string, replaced: set<string>)
      returns (failure: Option<UpdateOutcome>, rows: seq<Row>)
    ensures failure.None? <==> AllOfContext(shards, release, registry)
    ensures failure.None? ==> rows == Keep(Contents(shards), replaced)
    ensures failure.Some? ==> exists i | 0 <= i < |shards| ::
      && AllOfContext(shards[..i], release, registry) && !OfContext(shards[i], release, registry)
      && failure.value == if shards[i].Unreadable? then ShardUnreadable else ContextMismatch
  {
    failure, rows := None, [];
    var i := 0;
    assert shards[..0] == [];
    while i < |shards|
      invariant 0 <= i <= |shards| && failure.None?
      invariant AllOfContext(shards[..i], release, registry) && rows == Keep(Contents(shards[..i]), replaced)
    {
      if shards[i].Unreadable? {
        return Some(ShardUnreadable), rows;
      }
      if shards[i].release != release || shards[i].registry != registry {
        return Some(ContextMismatch), rows;
      }
      assert shards[..i + 1] == shards[..i] + [shards[i]] && shards[..i + 1][..i] == shards[..i];
      KeepAppend(Contents(shards[..i]), shards[i].rows, replaced);
      rows := rows + Keep(shards[i].rows, replaced);
      i := i + 1;
    }
    assert shards[..i] == shards;
  }

  /** Read the old shards, drop the replaced companies, append the replacements, check for duplicates, sort
      and cut again. */
  method UpdateMetric(shards: seq<OldShard>, release: string, registry: string, replacements: seq<Row>, bytes: nat)
      returns (r: UpdateOutcome)
    ensures r.MemoryBudget? <==> bytes > 32 * 1048576
    ensures r.ShardUnreadable? || r.ContextMismatch? <==>
            bytes <= 32 * 1048576 && !AllOfContext(shards, release, registry)
    ensures bytes <= 32 * 1048576 && AllOfContext(shards, release, registry) ==>
      var rows := Keep(Contents(shards), Ciks(replacements)) + replacements;
      && (r.DuplicateCompany? <==> !DistinctCiks(rows))
      && (r.Updated? ==> Flatten(r.shards) == OrderedRows(rows) && ChunksOk(r.shards, 2 * 1048576))
      && (r.RowBudget? <==> DistinctCiks(rows) && exists row :: row in rows && |row.text| >= 2 * 1048576)
  {
    if bytes > 32 * 1048576 {
      return MemoryBudget;
    }
    var failure, rows := ReadShards(shards, release, registry, Ciks(replacements));
    if failure.Some? {
      return failure.value;
    }
    rows := rows + replacements;
    if !DistinctCiks(rows) {
      return DuplicateCompany;
    }
    SortKeeps(RowLeq, rows);
    SameElements(OrderedRows(rows), rows);
    var ok, chunks := Chunks(OrderedRows(rows), MAXIMUM);
    if !ok {
      var k :| 0 <= k < |OrderedRows(rows)| && !Fits(OrderedRows(rows)[k], MAXIMUM);
      assert OrderedRows(rows)[k] in rows;
      return RowBudget;
    }
    assert forall row | row in rows :: row in OrderedRows(rows);
    r := Updated(chunks);
  }

  lemma {:induction false} KeepAppend(a: seq<Row>, b: seq<Row>, replaced: set<string>)
    ensures Keep(a + b, replaced) == Keep(a, replaced) + Keep(b, replaced)
  {
    if b == [] {
      assert a + b == a;
    } else {
      assert (a + b)[..|a + b| - 1] == a + b[..|b| - 1];
      KeepAppend(a, b[..|b| - 1], replaced);
    }
  }

  /** Old rows without the replaced companies, plus the replacements, list exactly the updated index. */
  lemma UpdatedListing(index: Index, parent: seq<Row>, replacements: seq<Row>, replaced: Index)
    requires IndexOk(index) && IndexOk(replaced) && Lists(index, parent) && Lists(replaced, replacements)
    ensures Lists(index + replaced, Keep(parent, Ciks(replacements)) + replacements)
  {
    var kept := Keep(parent, Ciks(replacements));
    KeepMeans(parent, Ciks(replacements));
    assert forall cik :: cik in Ciks(replacements) <==> cik in replaced by {
      forall cik | cik in replaced ensures cik in Ciks(replacements) { assert replaced[cik] in replacements; }
    }
    assert forall i | 0 <= i < |kept| :: kept[i] in kept;
    assert forall j | 0 <= j < |replacements| :: replacements[j] in replacements;
    var rows := kept + replacements;
    forall i, j | 0 <= i < j < |rows| ensures rows[i].cik != rows[j].cik {
      if i < |kept| <= j { assert rows[i] in kept && rows[j] in replacements; }
    }
  }

  /** What the update needs to know about the rows it sorts. */
  lemma UpdateSorts(index: Index, replaced: Index, replacements: seq<Row>)
    requires IndexOk(index) && IndexOk(replaced) && Lists(replaced, replacements)
    ensures var rows := Keep(Rebuild(index), Ciks(replacements)) + replacements;
      && DistinctCiks(rows) && OrderedRows(rows) == Rebuild(index + replaced)
      && ((forall row | row in rows :: Fits(row, MAXIMUM)) <==>
          forall cik | cik in index + replaced :: Fits((index + replaced)[cik], MAXIMUM))
  {
    var rows := Keep(Rebuild(index), Ciks(replacements)) + replacements;
    RebuildMeans(index);
    UpdatedListing(index, Rebuild(index), replacements, replaced);
    SortedListingsAgree(index + replaced, rows);
    ListedFit(index + replaced, rows);
  }

  lemma ListedFit(index: Index, rows: seq<Row>)
    requires IndexOk(index) && Lists(index, rows)
    ensures (forall row | row in rows :: Fits(row, MAXIMUM)) <==> forall cik | cik in index :: Fits(index[cik], MAXIMUM)
  {
    forall cik | cik in index ensures index[cik] in rows { assert index[cik].cik == cik; }
  }

  /** The incremental update equals a rebuild: if the old shards concatenate to the index of some
      companies, the new shards concatenate to the index of those companies with the replacements put
      in, whatever the chunk boundaries; it can only fail on its memory or row budget or on an old shard. */
  method UpdateIsRebuild(index: Index, replaced: Index, shards: seq<OldShard>, release: string, registry: string,
                         replacements: seq<Row>, bytes: nat) returns (r: UpdateOutcome)
    requires IndexOk(index) && IndexOk(replaced)
    requires Contents(shards) == Rebuild(index) && Lists(replaced, replacements)
    ensures !r.DuplicateCompany?
    ensures r.Updated? ==> Flatten(r.shards) == Rebuild(index + replaced) && ChunksOk(r.shards, 2 * 1048576)
    ensures r.Updated? <==>
      && bytes <= 32 * 1048576 && AllOfContext(shards, release, registry)
      && forall cik | cik in index + replaced :: |(index + replaced)[cik].text| < 2 * 1048576
  {
    UpdateSorts(index, replaced, replacements);
    r := UpdateMetric(shards, release, registry, replacements, bytes);
  }
}
