/** The CRSP index: every part of the daily table is cut into spans of one security and one calendar
    year, and the spans of a security are collected in part order. */
module CrspIndex {
  import opened Wrappers

  /** A daily row, reduced to its security and its day. */
  datatype Row = Row(permno: int, day: int)

  datatype Group = Group(rows: seq<Row>, nulls: bool)

  datatype Span = Span(permno: int, offset: nat, rows: nat, source: nat, group: nat,
                       dateMin: int, dateMax: int, year: int, monotonic: bool)

  datatype Scanned =
    | Scanned(spans: seq<Span>, rows: nat)
    | SourceSize
    | SourceCount
    | NullIdentityDate
    | EmptyGroup
    | MetadataTorn
    | Died

  // ---------------------------------------------------------------- one run of rows

  function MinDay(rows: seq<Row>): int
    requires rows != []
  {
    if |rows| == 1 then rows[0].day
    else
      var m := MinDay(rows[1..]);
      if rows[0].day < m then rows[0].day else m
  }

  function MaxDay(rows: seq<Row>): int
    requires rows != []
  {
    if |rows| == 1 then rows[0].day
    else
      var m := MaxDay(rows[1..]);
      if rows[0].day > m then rows[0].day else m
  }

  lemma {:induction false} DayBounds(rows: seq<Row>)
    requires rows != []
    ensures forall i | 0 <= i < |rows| :: MinDay(rows) <= rows[i].day <= MaxDay(rows)
    ensures exists i :: 0 <= i < |rows| && rows[i].day == MinDay(rows)
    ensures exists i :: 0 <= i < |rows| && rows[i].day == MaxDay(rows)
  {
    if |rows| > 1 {
      DayBounds(rows[1..]);
      assert rows == [rows[0]] + rows[1..];
      var i :| 0 <= i < |rows[1..]| && rows[1..][i].day == MinDay(rows[1..]);
      var j :| 0 <= j < |rows[1..]| && rows[1..][j].day == MaxDay(rows[1..]);
      assert rows[i + 1].day == MinDay(rows[1..]) && rows[j + 1].day == MaxDay(rows[1..]);
      assert rows[0].day == rows[0].day;
    } else {
      assert rows[0].day == MinDay(rows);
    }
  }

  predicate Ascending(rows: seq<Row>) {
    forall i | 0 < i < |rows| :: rows[i].day >= rows[i - 1].day
  }

  lemma {:induction false} AscendingMeans(rows: seq<Row>)
    ensures Ascending(rows) <==> forall i, j | 0 <= i < j < |rows| :: rows[i].day <= rows[j].day
  {
    if |rows| > 1 {
      var front, last := rows[..|rows| - 1], |rows| - 1;
      AscendingMeans(front);
      assert forall i | 0 <= i < last :: front[i] == rows[i];
      if Ascending(rows) {
        forall i | 0 <= i < last ensures rows[i].day <= rows[last].day {
          assert rows[last].day >= rows[last - 1].day && (i < last - 1 ==> front[i].day <= front[last - 1].day);
        }
      }
    }
  }

  /** Row `i` starts a new run: its security or its calendar year differs from the row before. */
  predicate Boundary(year: int -> int, rows: seq<Row>, i: nat)
    requires 0 < i < |rows|
  {
    rows[i].permno != rows[i - 1].permno || year(rows[i].day) != year(rows[i - 1].day)
  }

  /** The interior cuts of a group, in order. */
  function Cuts(year: int -> int, rows: seq<Row>, n: nat): seq<nat>
    requires n <= |rows|
  {
    if n <= 1 then []
    else Cuts(year, rows, n - 1) + if Boundary(year, rows, n - 1) then [n - 1] else []
  }

  lemma {:induction false} CutsAreBoundaries(year: int -> int, rows: seq<Row>, n: nat, k: nat)
    requires n <= |rows| && k < |Cuts(year, rows, n)|
    ensures 0 < Cuts(year, rows, n)[k] < n && Boundary(year, rows, Cuts(year, rows, n)[k])
  {
    if n > 1 && k < |Cuts(year, rows, n - 1)| { CutsAreBoundaries(year, rows, n - 1, k); }
  }

  /** Between two neighbouring bounds there is no boundary. */
  lemma {:induction false} CutsMissNone(year: int -> int, rows: seq<Row>, n: nat, k: nat)
    requires 0 < n <= |rows| && k <= |Cuts(year, rows, n)|
    ensures var cuts := Cuts(year, rows, n); var bounds := [0] + cuts + [n];
      bounds[k] < bounds[k + 1] <= n && Homogeneous(year, rows, bounds[k], bounds[k + 1])
  {
    var cuts := Cuts(year, rows, n);
    var bounds := [0] + cuts + [n];
    if n > 1 {
      var before := Cuts(year, rows, n - 1);
      var earlier := [0] + before + [n - 1];
      if k < |before| {
        CutsMissNone(year, rows, n - 1, k);
        assert bounds[k] == earlier[k] && bounds[k + 1] == earlier[k + 1];
      } else if k == |before| {
        CutsMissNone(year, rows, n - 1, k);
        assert bounds[k] == earlier[k] && earlier[k + 1] == n - 1;
        if Boundary(year, rows, n - 1) {
          assert bounds[k + 1] == n - 1;
        } else {
          assert bounds[k + 1] == n;
          ExtendRun(year, rows, bounds[k], n - 1);
        }
      } else {
        assert bounds[k] == n - 1 && bounds[k + 1] == n;
      }
    } else {
      assert bounds == [0, 1];
    }
  }

  lemma ExtendRun(year: int -> int, rows: seq<Row>, begin: nat, end: nat)
    requires begin < end < |rows| && Homogeneous(year, rows, begin, end) && !Boundary(year, rows, end)
    ensures Homogeneous(year, rows, begin, end + 1)
  {
    assert rows[end - 1].permno == rows[begin].permno;
  }

  function SpanOf(year: int -> int, rows: seq<Row>, begin: nat, end: nat, base: nat, source: nat, group: nat): Span
    requires begin < end <= |rows|
  {
    var days := rows[begin..end];
    Span(rows[begin].permno, base + begin, end - begin, source, group, MinDay(days), MaxDay(days),
         year(rows[begin].day), Ascending(days))
  }

  /** All rows of the run have the span's security and year. */
  predicate Homogeneous(year: int -> int, rows: seq<Row>, begin: nat, end: nat)
    requires begin < end <= |rows|
  {
    forall i | begin <= i < end :: rows[i].permno == rows[begin].permno && year(rows[i].day) == year(rows[begin].day)
  }

  /** What the spans of a group are: between bounds that run from its first row to its last, each is a
      run of one security and year with exact date bounds, and no two neighbours could be joined. */
  ghost predicate Segments(year: int -> int, rows: seq<Row>, spans: seq<Span>, bounds: seq<nat>, base: nat,
      source: nat, group: nat) {
    && |bounds| == |spans| + 1 && bounds[0] == 0 && bounds[|spans|] == |rows|
    && (forall k | 0 <= k < |spans| :: IsRun(year, rows, spans[k], bounds[k], bounds[k + 1], base, source, group))
    && (forall k | 0 < k < |spans| :: 0 < bounds[k] < |rows| && Boundary(year, rows, bounds[k]))
  }

  ghost predicate IsRun(year: int -> int, rows: seq<Row>, s: Span, begin: nat, end: nat, base: nat, source: nat,
      group: nat) {
    && begin < end <= |rows| && s == SpanOf(year, rows, begin, end, base, source, group)
    && Homogeneous(year, rows, begin, end)
  }

  /** Cutting one group: the starts and ends of the runs are paired off in order. */
  method GroupSpans(year: int -> int, rows: seq<Row>, base: nat, source: nat, group: nat)
      returns (spans: seq<Span>)
    requires rows != []
    ensures exists bounds :: Segments(year, rows, spans, bounds, base, source, group)
  {
    var cuts := Cuts(year, rows, |rows|);
    var starts, ends := [0] + cuts, cuts + [|rows|];
    ghost var bounds: seq<nat> := [0] + cuts + [|rows|];
    assert forall i | 0 <= i < |starts| :: starts[i] == bounds[i] && ends[i] == bounds[i + 1];
    spans := [];
    var k := 0;
    while k < |starts|
      invariant |spans| == k <= |starts|
      invariant forall i | 0 <= i < k :: IsRun(year, rows, spans[i], bounds[i], bounds[i + 1], base, source, group)
    {
      CutsMissNone(year, rows, |rows|, k);
      spans := spans + [SpanOf(year, rows, starts[k], ends[k], base, source, group)];
      k := k + 1;
    }
    forall i | 0 < i < |spans| ensures 0 < bounds[i] < |rows| && Boundary(year, rows, bounds[i]) {
      CutsAreBoundaries(year, rows, |rows|, i - 1);
    }
    assert Segments(year, rows, spans, bounds, base, source, group);
  }

  // ---------------------------------------------------------------- one part

  function RowsOf(groups: seq<Group>): seq<Row> {
    if groups == [] then [] else RowsOf(groups[..|groups| - 1]) + groups[|groups| - 1].rows
  }

  /** Spans that cover `from..to` of a table without gap or overlap. */
  predicate Tiles(spans: seq<Span>, from: nat, to: nat)
  {
    if spans == [] then from == to
    else spans[|spans| - 1].rows > 0 && from <= spans[|spans| - 1].offset
         && spans[|spans| - 1].offset + spans[|spans| - 1].rows == to
         && Tiles(spans[..|spans| - 1], from, spans[|spans| - 1].offset)
  }

  lemma {:induction false} SegmentsTile(year: int -> int, rows: seq<Row>, spans: seq<Span>, bounds: seq<nat>, base: nat,
                                        source: nat, group: nat, k: nat)
    requires Segments(year, rows, spans, bounds, base, source, group) && k <= |spans|
    ensures Tiles(spans[..k], base, base + bounds[k])
  {
    if k > 0 {
      SegmentsTile(year, rows, spans, bounds, base, source, group, k - 1);
      assert IsRun(year, rows, spans[k - 1], bounds[k - 1], bounds[k], base, source, group);
      TileOne(spans[..k - 1], spans[k - 1], base, base + bounds[k - 1]);
      assert spans[..k] == spans[..k - 1] + [spans[k - 1]];
    }
  }

  lemma TileOne(spans: seq<Span>, s: Span, from: nat, mid: nat)
    requires Tiles(spans, from, mid) && s.offset == mid && 0 < s.rows
    ensures Tiles(spans + [s], from, mid + s.rows)
  {
    TilesOrdered(spans, from, mid);
    assert (spans + [s])[..|spans|] == spans;
  }

  lemma {:induction false} TilesAppend(a: seq<Span>, b: seq<Span>, from: nat, mid: nat, to: nat)
    requires Tiles(a, from, mid) && Tiles(b, mid, to)
    ensures Tiles(a + b, from, to)
  {
    if b == [] {
      assert a + b == a;
    } else {
      TilesAppend(a, b[..|b| - 1], from, mid, b[|b| - 1].offset);
      assert (a + b)[..|a + b| - 1] == a + b[..|b| - 1];
      TilesOrdered(a, from, mid);
      TilesOrdered(b[..|b| - 1], mid, b[|b| - 1].offset);
    }
  }

  lemma {:induction false} TilesOrdered(a: seq<Span>, from: nat, to: nat)
    requires Tiles(a, from, to)
    ensures from <= to
  {
    if a != [] { TilesOrdered(a[..|a| - 1], from, a[|a| - 1].offset); }
  }

  /** A span of a part: its rows are one security in one calendar year, its date bounds are attained and
      exact, and its flag says whether the days ascend. */
  ghost predicate DescribesRows(year: int -> int, table: seq<Row>, s: Span) {
    && 0 < s.rows && s.offset + s.rows <= |table|
    && var run := table[s.offset..s.offset + s.rows];
       && (forall i | 0 <= i < |run| :: run[i].permno == s.permno && year(run[i].day) == s.year
                                       && s.dateMin <= run[i].day <= s.dateMax)
       && (exists i :: 0 <= i < |run| && run[i].day == s.dateMin)
       && (exists i :: 0 <= i < |run| && run[i].day == s.dateMax)
       && (s.monotonic <==> forall i, j | 0 <= i < j < |run| :: run[i].day <= run[j].day)
  }

  lemma RunDescribes(year: int -> int, before: seq<Row>, rows: seq<Row>, s: Span, begin: nat, end: nat, source: nat,
      group: nat)
    requires IsRun(year, rows, s, begin, end, |before|, source, group)
    ensures DescribesRows(year, before + rows, s)
  {
    assert (before + rows)[s.offset..s.offset + s.rows] == rows[begin..end];
    DayBounds(rows[begin..end]);
    AscendingMeans(rows[begin..end]);
  }

  lemma DescribesLonger(year: int -> int, table: seq<Row>, more: seq<Row>, s: Span)
    requires DescribesRows(year, table, s)
    ensures DescribesRows(year, table + more, s)
  {
    assert (table + more)[s.offset..s.offset + s.rows] == table[s.offset..s.offset + s.rows];
  }

  ghost predicate GroupOk(g: Group) {
    |g.rows| > 0 && !g.nulls
  }

  /** The first `n` groups have rows and no null. */
  ghost predicate GroupsOk(groups: seq<Group>, n: nat)
    requires n <= |groups|
  {
    forall i | 0 <= i < n :: GroupOk(groups[i])
  }

  /** The spans of a part tile it and describe its rows. */
  ghost predicate Tiled(year: int -> int, table: seq<Row>, spans: seq<Span>, source: nat) {
    && Tiles(spans, 0, |table|)
    && forall k | 0 <= k < |spans| :: spans[k].source == source && DescribesRows(year, table, spans[k])
  }

  /** The spans `from..to` of a part are the segments of its group `g`, which starts where the groups before
      it end: runs from its first row to its last that no two neighbours could be joined. */
  ghost predicate IsGroup(year: int -> int, groups: seq<Group>, spans: seq<Span>, from: nat, to: nat, source: nat,
      g: nat)
    requires g < |groups|
  {
    && from <= to <= |spans|
    && exists bounds ::
         Segments(year, groups[g].rows, spans[from..to], bounds, |RowsOf(groups[..g])|, source, g)
  }

  /** Group by group, in order; the marks are where each group's spans begin and end. */
  ghost predicate Grouped(year: int -> int, groups: seq<Group>, spans: seq<Span>, marks: seq<nat>, source: nat) {
    && |marks| == |groups| + 1 && marks[0] == 0 && marks[|groups|] == |spans|
    && forall g | 0 <= g < |groups| :: IsGroup(year, groups, spans, marks[g], marks[g + 1], source, g)
  }

  /** What the spans of a part are. */
  ghost predicate PartOk(year: int -> int, groups: seq<Group>, spans: seq<Span>, source: nat) {
    Tiled(year, RowsOf(groups), spans, source) && exists marks :: Grouped(year, groups, spans, marks, source)
  }

  lemma GroupedOneMore(year: int -> int, groups: seq<Group>, spans: seq<Span>, marks: seq<nat>, source: nat,
                       group: Group, more: seq<Span>, bounds: seq<nat>)
    requires Grouped(year, groups, spans, marks, source)
    requires Segments(year, group.rows, more, bounds, |RowsOf(groups)|, source, |groups|)
    ensures Grouped(year, groups + [group], spans + more, marks + [|spans| + |more|], source)
  {
    var longer, all, later := groups + [group], spans + more, marks + [|spans| + |more|];
    forall g | 0 <= g < |longer| ensures IsGroup(year, longer, all, later[g], later[g + 1], source, g) {
      if g < |groups| {
        assert later[g] == marks[g] && later[g + 1] == marks[g + 1];
        EarlierGroup(year, groups, spans, marks[g], marks[g + 1], source, g, group, more);
      } else {
        assert later[g] == |spans| && later[g + 1] == |all|;
        LastGroup(year, groups, spans, source, group, more, bounds);
      }
    }
  }

  lemma EarlierGroup(year: int -> int, groups: seq<Group>, spans: seq<Span>, from: nat, to: nat, source: nat, g: nat,
                     group: Group, more: seq<Span>)
    requires g < |groups| && IsGroup(year, groups, spans, from, to, source, g)
    ensures IsGroup(year, groups + [group], spans + more, from, to, source, g)
  {
    var bounds :| Segments(year, groups[g].rows, spans[from..to], bounds, |RowsOf(groups[..g])|, source, g);
    assert (groups + [group])[..g] == groups[..g] && (groups + [group])[g] == groups[g];
    assert (spans + more)[from..to] == spans[from..to];
  }

  lemma LastGroup(year: int -> int, groups: seq<Group>, spans: seq<Span>, source: nat, group: Group, more: seq<Span>,
                  bounds: seq<nat>)
    requires Segments(year, group.rows, more, bounds, |RowsOf(groups)|, source, |groups|)
    ensures IsGroup(year, groups + [group], spans + more, |spans|, |spans + more|, source, |groups|)
  {
    assert (groups + [group])[..|groups|] == groups && (groups + [group])[|groups|] == group;
    assert (spans + more)[|spans|..|spans + more|] == more;
  }

  lemma GroupScanned(year: int -> int, groups: seq<Group>, g: nat, spans: seq<Span>, marks: seq<nat>, source: nat,
                     more: seq<Span>, bounds: seq<nat>)
    requires g < |groups| && groups[g].rows != []
    requires Tiled(year, RowsOf(groups[..g]), spans, source) && Grouped(year, groups[..g], spans, marks, source)
    requires Segments(year, groups[g].rows, more, bounds, |RowsOf(groups[..g])|, source, g)
    ensures RowsOf(groups[..g + 1]) == RowsOf(groups[..g]) + groups[g].rows
    ensures Tiled(year, RowsOf(groups[..g + 1]), spans + more, source)
    ensures Grouped(year, groups[..g + 1], spans + more, marks + [|spans| + |more|], source)
  {
    assert groups[..g + 1] == groups[..g] + [groups[g]] && groups[..g + 1][..g] == groups[..g];
    GroupExtendsPart(year, RowsOf(groups[..g]), groups[g].rows, spans, more, bounds, source, g);
    GroupedOneMore(year, groups[..g], spans, marks, source, groups[g], more, bounds);
  }

  /** The first `g` groups are scanned into `spans`. */
  ghost predicate ScannedTo(year: int -> int, groups: seq<Group>, g: nat, offset: nat, spans: seq<Span>,
      marks: seq<nat>, source: nat) {
    && g <= |groups| && offset == |RowsOf(groups[..g])|
    && Tiled(year, RowsOf(groups[..g]), spans, source) && Grouped(year, groups[..g], spans, marks, source)
  }

  lemma ScannedNone(year: int -> int, groups: seq<Group>, source: nat)
    ensures ScannedTo(year, groups, 0, 0, [], [0], source)
  {
    assert groups[..0] == [];
  }

  lemma ScannedAll(year: int -> int, groups: seq<Group>, offset: nat, spans: seq<Span>, marks: seq<nat>, source: nat)
    requires ScannedTo(year, groups, |groups|, offset, spans, marks, source)
    ensures offset == |RowsOf(groups)| && PartOk(year, groups, spans, source)
  {
    assert groups[..|groups|] == groups;
  }

  /** One well-formed group more. */
  method ScanGroup(year: int -> int, groups: seq<Group>, g: nat, offset: nat, spans: seq<Span>, ghost marks: seq<nat>,
                   source: nat) returns (all: seq<Span>, ghost later: seq<nat>)
    requires ScannedTo(year, groups, g, offset, spans, marks, source) && g < |groups| && groups[g].rows != []
    ensures ScannedTo(year, groups, g + 1, offset + |groups[g].rows|, all, later, source)
  {
    var more := GroupSpans(year, groups[g].rows, offset, source, g);
    ghost var bounds :| Segments(year, groups[g].rows, more, bounds, offset, source, g);
    GroupScanned(year, groups, g, spans, marks, source, more, bounds);
    all, later := spans + more, marks + [|spans| + |more|];
  }

  /** Scanning one part fails exactly when some group has a null identity or date, or no rows. */
  method Scan(year: int -> int, groups: seq<Group>, source: nat) returns (r: Scanned)
    ensures r.Scanned? <==> GroupsOk(groups, |groups|)
    ensures !r.Died?
    ensures r.Scanned? ==> r.rows == |RowsOf(groups)| && PartOk(year, groups, r.spans, source)
  {
    var offset: nat, spans: seq<Span>, g: nat := 0, [], 0;
    ghost var marks: seq<nat> := [0];
    ScannedNone(year, groups, source);
    while g < |groups|
      invariant ScannedTo(year, groups, g, offset, spans, marks, source)
      invariant GroupsOk(groups, g)
    {
      if groups[g].nulls {
        assert !GroupOk(groups[g]);
        return NullIdentityDate;
      }
      if |groups[g].rows| == 0 {
        assert !GroupOk(groups[g]);
        return EmptyGroup;
      }
      spans, marks := ScanGroup(year, groups, g, offset, spans, marks, source);
      offset := offset + |groups[g].rows|;
      g := g + 1;
    }
    ScannedAll(year, groups, offset, spans, marks, source);
    r := Scanned(spans, offset);
  }

  lemma GroupExtendsPart(year: int -> int, table: seq<Row>, rows: seq<Row>, spans: seq<Span>, more: seq<Span>,
                         bounds: seq<nat>, source: nat, group: nat)
    requires rows != [] && Tiled(year, table, spans, source)
    requires Segments(year, rows, more, bounds, |table|, source, group)
    ensures Tiled(year, table + rows, spans + more, source)
  {
    SegmentsTile(year, rows, more, bounds, |table|, source, group, |more|);
    assert more[..|more|] == more;
    TilesAppend(spans, more, 0, |table|, |table| + |rows|);
    forall k | 0 <= k < |spans + more|
      ensures (spans + more)[k].source == source && DescribesRows(year, table + rows, (spans + more)[k])
    {
      if k < |spans| {
        DescribesLonger(year, table, rows, spans[k]);
      } else {
        var i := k - |spans|;
        assert IsRun(year, rows, more[i], bounds[i], bounds[i + 1], |table|, source, group);
        RunDescribes(year, table, rows, more[i], bounds[i], bounds[i + 1], source, group);
      }
    }
  }

  // ---------------------------------------------------------------- the index over all parts

  function Filter(table: seq<Row>, permno: int): seq<Row> {
    if table == [] then []
    else Filter(table[..|table| - 1], permno) + if table[|table| - 1].permno == permno then [table[|table| - 1]] else []
  }

  lemma {:induction false} FilterAppend(a: seq<Row>, b: seq<Row>, permno: int)
    ensures Filter(a + b, permno) == Filter(a, permno) + Filter(b, permno)
  {
    if b == [] {
      assert a + b == a;
    } else {
      assert (a + b)[..|a + b| - 1] == a + b[..|b| - 1];
      FilterAppend(a, b[..|b| - 1], permno);
    }
  }

  lemma {:induction false} FilterUniform(run: seq<Row>, owner: int, permno: int)
    requires forall i | 0 <= i < |run| :: run[i].permno == owner
    ensures Filter(run, permno) == if owner == permno then run else []
  {
    if run != [] {
      var front, last := run[..|run| - 1], run[|run| - 1];
      FilterUniform(front, owner, permno);
      assert run == front + [last] && last.permno == owner;
    }
  }

  /** The spans of one security, in order. */
  function Of(spans: seq<Span>, permno: int): seq<Span> {
    if spans == [] then []
    else Of(spans[..|spans| - 1], permno) + if spans[|spans| - 1].permno == permno then [spans[|spans| - 1]] else []
  }

  /** The rows one fragment points at. */
  function Slice(parts: seq<seq<Row>>, s: Span): seq<Row> {
    if s.source < |parts| && s.offset + s.rows <= |parts[s.source]|
    then parts[s.source][s.offset..s.offset + s.rows] else []
  }

  /** The rows a list of fragments points at. */
  function Fetch(parts: seq<seq<Row>>, spans: seq<Span>): seq<Row> {
    if spans == [] then [] else Fetch(parts, spans[..|spans| - 1]) + Slice(parts, spans[|spans| - 1])
  }

  lemma FetchOneMore(parts: seq<seq<Row>>, spans: seq<Span>, s: Span)
    ensures Fetch(parts, spans + [s]) == Fetch(parts, spans) + Slice(parts, s)
  {
    assert (spans + [s])[..|spans|] == spans;
  }

  lemma OfOneMore(spans: seq<Span>, s: Span, permno: int)
    ensures Of(spans + [s], permno) == Of(spans, permno) + if s.permno == permno then [s] else []
  {
    assert (spans + [s])[..|spans|] == spans;
  }

  /** The whole table: all parts in order. */
  function Table(parts: seq<seq<Row>>, n: nat): seq<Row>
    requires n <= |parts|
  {
    if n == 0 then [] else Table(parts, n - 1) + parts[n - 1]
  }

  /** A security's spans fetch exactly its rows of `table`, and it has spans if and only if it has rows. */
  ghost predicate Covers(parts: seq<seq<Row>>, spans: seq<Span>, table: seq<Row>, permno: int) {
    && Fetch(parts, Of(spans, permno)) == Filter(table, permno)
    && (Of(spans, permno) == [] <==> Filter(table, permno) == [])
  }

  ghost predicate CoversAll(parts: seq<seq<Row>>, spans: seq<Span>, table: seq<Row>) {
    forall permno :: Covers(parts, spans, table, permno)
  }

  lemma CoverOneMore(parts: seq<seq<Row>>, spans: seq<Span>, table: seq<Row>, s: Span, run: seq<Row>, permno: int)
    requires Covers(parts, spans, table, permno)
    requires run == Slice(parts, s) != [] && forall i | 0 <= i < |run| :: run[i].permno == s.permno
    ensures Covers(parts, spans + [s], table + run, permno)
  {
    OfOneMore(spans, s, permno);
    FilterAppend(table, run, permno);
    FilterUniform(run, s.permno, permno);
    if s.permno == permno {
      FetchOneMore(parts, Of(spans, permno), s);
    } else {
      assert Of(spans + [s], permno) == Of(spans, permno);
      assert Filter(table + run, permno) == Filter(table, permno);
    }
  }

  /** The fragment lies within its part and all its rows are of its security. */
  ghost predicate Points(parts: seq<seq<Row>>, s: Span) {
    && s.source < |parts| && 0 < s.rows && s.offset + s.rows <= |parts[s.source]|
    && forall i | s.offset <= i < s.offset + s.rows :: parts[s.source][i].permno == s.permno
  }

  lemma DescribedPoints(year: int -> int, parts: seq<seq<Row>>, s: Span)
    requires s.source < |parts| && DescribesRows(year, parts[s.source], s)
    ensures Points(parts, s)
  {
    var run := parts[s.source][s.offset..s.offset + s.rows];
    forall i | s.offset <= i < s.offset + s.rows ensures parts[s.source][i].permno == s.permno {
      assert parts[s.source][i] == run[i - s.offset];
    }
  }

  lemma AllOneMore(parts: seq<seq<Row>>, spans: seq<Span>, table: seq<Row>, s: Span, run: seq<Row>,
                   more: seq<Span>, longer: seq<Row>)
    requires CoversAll(parts, spans, table) && more == spans + [s] && longer == table + run
    requires run == Slice(parts, s) != [] && forall i | 0 <= i < |run| :: run[i].permno == s.permno
    ensures CoversAll(parts, more, longer)
  {
    forall permno ensures Covers(parts, more, longer, permno) {
      assert Covers(parts, spans, table, permno);
      CoverOneMore(parts, spans, table, s, run, permno);
    }
  }

  /** Adding the spans of one part, in order, extends what is covered by that part. */
  lemma {:induction false} PartCovers(parts: seq<seq<Row>>, source: nat, earlier: seq<Span>, table: seq<Row>,
                                      spans: seq<Span>, to: nat)
    requires source < |parts| && to <= |parts[source]| && Tiles(spans, 0, to)
    requires forall k | 0 <= k < |spans| :: spans[k].source == source && Points(parts, spans[k])
    requires CoversAll(parts, earlier, table)
    ensures CoversAll(parts, earlier + spans, table + parts[source][..to])
  {
    if spans == [] {
      assert earlier + spans == earlier && table + parts[source][..0] == table;
    } else {
      var front, s, rows := spans[..|spans| - 1], spans[|spans| - 1], parts[source];
      PartCovers(parts, source, earlier, table, front, s.offset);
      var run := rows[s.offset..to];
      assert spans == front + [s] && rows[..to] == rows[..s.offset] + run;
      Regroup(earlier, front, [s]);
      Regroup(table, rows[..s.offset], run);
      AllOneMore(parts, earlier + front, table + rows[..s.offset], s, run, earlier + spans, table + rows[..to]);
    }
  }

  type Locations = map<int, seq<Span>>

  /** The locations of a list of spans: each security's, in order. */
  ghost predicate Located(locations: Locations, spans: seq<Span>) {
    forall permno ::
      && (permno in locations <==> Of(spans, permno) != [])
      && (permno in locations ==> locations[permno] == Of(spans, permno))
  }

  /** `locations.setdefault(permno, []).append(fragment)`. */
  function Append(locations: Locations, s: Span): Locations {
    locations[s.permno := (if s.permno in locations then locations[s.permno] else []) + [s]]
  }

  lemma AppendLocates(locations: Locations, spans: seq<Span>, s: Span)
    requires Located(locations, spans)
    ensures Located(Append(locations, s), spans + [s])
  {
    var more := Append(locations, s);
    forall permno
      ensures permno in more <==> Of(spans + [s], permno) != []
      ensures permno in more ==> more[permno] == Of(spans + [s], permno)
    {
      OfOneMore(spans, s, permno);
    }
  }

  method AddPart(before: Locations, spans: seq<Span>, ghost earlier: seq<Span>) returns (after: Locations)
    requires Located(before, earlier)
    ensures Located(after, earlier + spans)
  {
    after := before;
    var k := 0;
    assert earlier + spans[..0] == earlier;
    while k < |spans|
      invariant k <= |spans| && Located(after, earlier + spans[..k])
    {
      AppendLocates(after, earlier + spans[..k], spans[k]);
      assert earlier + spans[..k + 1] == earlier + spans[..k] + [spans[k]];
      after := Append(after, spans[k]);
      k := k + 1;
    }
    assert spans[..k] == spans;
  }

  function RowCount(spans: seq<Span>): nat {
    if spans == [] then 0 else RowCount(spans[..|spans| - 1]) + spans[|spans| - 1].rows
  }

  lemma {:induction false} TileCount(spans: seq<Span>, from: nat, to: nat)
    requires Tiles(spans, from, to)
    ensures from + RowCount(spans) == to
  {
    if spans != [] { TileCount(spans[..|spans| - 1], from, spans[|spans| - 1].offset); }
  }

  /** A security is listed iff it has rows, and fetching its fragments in index order gives the
      order-preserving filter of the whole table. */
  ghost predicate AgreesWithScan(parts: seq<seq<Row>>, locations: Locations) {
    forall permno ::
      && (permno in locations <==> Filter(Table(parts, |parts|), permno) != [])
      && (permno in locations ==> Fetch(parts, locations[permno]) == Filter(Table(parts, |parts|), permno))
  }

  lemma LocatedAgrees(parts: seq<seq<Row>>, locations: Locations, spans: seq<Span>)
    requires Located(locations, spans)
    requires CoversAll(parts, spans, Table(parts, |parts|))
    ensures AgreesWithScan(parts, locations)
  {
    forall permno
      ensures permno in locations <==> Filter(Table(parts, |parts|), permno) != []
      ensures permno in locations ==> Fetch(parts, locations[permno]) == Filter(Table(parts, |parts|), permno)
    {
      assert Covers(parts, spans, Table(parts, |parts|), permno);
    }
  }

  function Parts(files: seq<File>): (parts: seq<seq<Row>>)
    ensures |parts| == |files| && forall i | 0 <= i < |parts| :: parts[i] == RowsOf(files[i].groups)
  {
    seq(|files|, i requires 0 <= i < |files| => RowsOf(files[i].groups))
  }

  datatype Indexed = Indexed(locations: Locations) | ScanFailed(cause: Scanned) | IndexCount

  ghost predicate DescribedAt(year: int -> int, parts: seq<seq<Row>>, s: Span) {
    s.source < |parts| && DescribesRows(year, parts[s.source], s)
  }

  /** Every fragment listed under a security lies in a part and describes rows of it: the security, the year
      and the exact date bounds. */
  ghost predicate Described(year: int -> int, parts: seq<seq<Row>>, spans: seq<Span>) {
    forall k | 0 <= k < |spans| :: DescribedAt(year, parts, spans[k])
  }

  ghost predicate AllDescribed(year: int -> int, parts: seq<seq<Row>>, locations: Locations) {
    forall permno | permno in locations ::
      && Described(year, parts, locations[permno])
      && forall k | 0 <= k < |locations[permno]| :: locations[permno][k].permno == permno
  }

  lemma {:induction false} OfDescribed(year: int -> int, parts: seq<seq<Row>>, spans: seq<Span>, permno: int)
    requires Described(year, parts, spans)
    ensures Described(year, parts, Of(spans, permno))
    ensures forall k | 0 <= k < |Of(spans, permno)| :: Of(spans, permno)[k].permno == permno
  {
    if spans != [] {
      OfDescribed(year, parts, spans[..|spans| - 1], permno);
    }
  }

  // ---------------------------------------------------------------- parts, and what earlier runs kept of them

  /** What the manifest declares of a part. */
  datatype Source = Source(key: string, sha: string, bytes: nat, rows: nat)

  /** What is stored: the object's length and its row groups. */
  datatype File = File(length: nat, groups: seq<Group>)

  /** The file in which an earlier run kept the metadata of a scan; it is written in place, so a death can cut
      it short. `dated` is the version mark of spans cut by year. */
  datatype Metadata = Absent | Torn | Kept(key: string, sha: string, dated: bool, spans: seq<Span>, rows: nat)

  predicate Hit(source: Source, kept: Metadata) {
    kept.Kept? && kept.key == source.key && kept.sha == source.sha && kept.dated
  }

  /** Metadata kept for exactly this source came from a scan of it. */
  ghost predicate Sound(year: int -> int, source: Source, file: File, kept: Metadata, n: nat) {
    Hit(source, kept) ==>
      && GroupsOk(file.groups, |file.groups|) && PartOk(year, file.groups, kept.spans, n)
      && kept.rows == |RowsOf(file.groups)|
  }

  /** The part was scanned before; or no torn metadata is in the way, it has the declared length and row count,
      rows in every group and no null, and the process survives keeping its metadata. */
  ghost predicate Readable(source: Source, file: File, kept: Metadata, survives: bool) {
    || Hit(source, kept)
    || (&& !kept.Torn? && survives
        && file.length == source.bytes && |RowsOf(file.groups)| == source.rows
        && GroupsOk(file.groups, |file.groups|))
  }

  /** One part: what was kept of it, or a scan, whose result is then kept. Torn metadata cannot be parsed and
      stops every run. */
  method ScanPart(year: int -> int, source: Source, file: File, kept: Metadata, survives: bool, n: nat)
      returns (r: Scanned, after: Metadata)
    requires Sound(year, source, file, kept, n)
    ensures r.Scanned? <==> Readable(source, file, kept, survives)
    ensures r.Scanned? ==> GroupsOk(file.groups, |file.groups|) && PartOk(year, file.groups, r.spans, n)
    ensures Sound(year, source, file, after, n) && (r.Scanned? <==> Hit(source, after))
    ensures after.Torn? <==> kept.Torn? || r.Died?
  {
    if Hit(source, kept) {
      return Scanned(kept.spans, kept.rows), kept;
    }
    if kept.Torn? {
      return MetadataTorn, kept;
    }
    if file.length != source.bytes {
      return SourceSize, kept;
    }
    if |RowsOf(file.groups)| != source.rows {
      return SourceCount, kept;
    }
    r := Scan(year, file.groups, n);
    if r.Scanned? && !survives {
      return Died, Torn;
    }
    after := if r.Scanned? then Kept(source.key, source.sha, true, r.spans, r.rows) else kept;
  }

  ghost predicate AllSound(year: int -> int, sources: seq<Source>, files: seq<File>, kept: seq<Metadata>) {
    && |sources| == |files| == |kept|
    && forall i | 0 <= i < |files| :: Sound(year, sources[i], files[i], kept[i], i)
  }

  ghost predicate ReadableAt(sources: seq<Source>, files: seq<File>, kept: seq<Metadata>, survives: nat -> bool,
                             i: nat)
    requires |sources| == |files| == |kept| && i < |files|
  {
    Readable(sources[i], files[i], kept[i], survives(i))
  }

  ghost predicate ReadableUpTo(sources: seq<Source>, files: seq<File>, kept: seq<Metadata>,
                               survives: nat -> bool, n: nat)
    requires |sources| == |files| == |kept| && n <= |files|
  {
    forall i: nat | i < n :: ReadableAt(sources, files, kept, survives, i)
  }

  /** No torn metadata is ever replaced. */
  ghost predicate TornStays(found: seq<Metadata>, kept: seq<Metadata>) {
    |found| == |kept| && forall i | 0 <= i < |found| && found[i].Torn? :: kept[i].Torn?
  }

  /** Parts up to `n` are hits now; the rest is as it was found. */
  ghost predicate KeptUpTo(year: int -> int, sources: seq<Source>, files: seq<File>, found: seq<Metadata>,
                           kept: seq<Metadata>, n: nat)
    requires |found| == |files|
  {
    && AllSound(year, sources, files, kept) && n <= |files|
    && (forall i | 0 <= i < n :: Hit(sources[i], kept[i]))
    && (forall i | n <= i < |files| :: kept[i] == found[i])
    && TornStays(found, kept)
  }

  lemma ReadableOneMore(sources: seq<Source>, files: seq<File>, found: seq<Metadata>, survives: nat -> bool,
                        n: nat)
    requires |sources| == |files| == |found| && n < |files| && ReadableUpTo(sources, files, found, survives, n)
    ensures ReadableUpTo(sources, files, found, survives, n + 1) <==> ReadableAt(sources, files, found, survives, n)
  {
  }

  ghost predicate ScannedAt(year: int -> int, files: seq<File>, results: seq<seq<Span>>, i: nat)
    requires |results| <= |files| && i < |results|
  {
    PartOk(year, files[i].groups, results[i], i)
  }

  /** The parts' scans, in order, up to the first that fails. */
  method ScanAll(year: int -> int, sources: seq<Source>, files: seq<File>, found: seq<Metadata>,
                 survives: nat -> bool)
      returns (results: seq<seq<Span>>, kept: seq<Metadata>, failure: Option<Scanned>)
    requires AllSound(year, sources, files, found)
    ensures failure.None? <==> ReadableUpTo(sources, files, found, survives, |files|)
    ensures AllSound(year, sources, files, kept) && TornStays(found, kept)
    ensures failure == Some(Died) ==> SomeTorn(kept)
    ensures failure.None? ==>
              && |results| == |files| && (forall i: nat | i < |files| :: ScannedAt(year, files, results, i))
              && forall i | 0 <= i < |files| :: Hit(sources[i], kept[i])
  {
    results, kept, failure := [], found, None;
    while |results| < |files|
      invariant |results| <= |files| && failure.None?
      invariant forall i: nat | i < |results| :: ScannedAt(year, files, results, i)
      invariant KeptUpTo(year, sources, files, found, kept, |results|)
      invariant ReadableUpTo(sources, files, found, survives, |results|)
      decreases |files| - |results|
    {
      var n := |results|;
      var scanned, one := ScanPart(year, sources[n], files[n], kept[n], survives(n), n);
      kept := kept[n := one];
      ReadableOneMore(sources, files, found, survives, n);
      if !scanned.Scanned? {
        return results, kept, Some(scanned);
      }
      ScannedOneMore(year, files, results, scanned.spans);
      results := results + [scanned.spans];
    }
  }

  lemma ScannedOneMore(year: int -> int, files: seq<File>, results: seq<seq<Span>>, spans: seq<Span>)
    requires |results| < |files| && forall i: nat | i < |results| :: ScannedAt(year, files, results, i)
    requires PartOk(year, files[|results|].groups, spans, |results|)
    ensures forall i: nat | i < |results| + 1 :: ScannedAt(year, files, results + [spans], i)
  {
    forall i: nat | i < |results| + 1 ensures ScannedAt(year, files, results + [spans], i) {
      if i < |results| { assert ScannedAt(year, files, results, i); }
    }
  }

  /** The next part's spans join the index. */
  method AddNext(year: int -> int, files: seq<File>, n: nat, spans: seq<Span>, locations: Locations, indexed: nat,
                 ghost all: seq<Span>)
      returns (after: Locations, count: nat)
    requires IndexedUpTo(files, n, locations, indexed, all) && Described(year, Parts(files), all) && n < |files|
    requires PartOk(year, files[n].groups, spans, n)
    ensures IndexedUpTo(files, n + 1, after, count, all + spans) && Described(year, Parts(files), all + spans)
  {
    PartExtendsIndex(year, Parts(files), n, all, spans);
    after := AddPart(locations, spans, all);
    count := indexed + RowCount(spans);
  }

  ghost predicate SomeTorn(kept: seq<Metadata>) {
    exists i :: 0 <= i < |kept| && kept[i].Torn?
  }

  /** The index agrees with a scan of the table, fragment by fragment and row by row, whatever earlier runs
      kept. Building it fails exactly when a part that was not scanned before has torn metadata, another length
      or row count than declared, a null identity or an empty row group, when the process dies while keeping
      one's metadata, or when the declared row total is not the table's. What is kept afterwards is sound again,
      and a run that succeeds has kept every part. A death leaves torn metadata, and torn metadata stays. */
  method Index(year: int -> int, sources: seq<Source>, files: seq<File>, found: seq<Metadata>,
               survives: nat -> bool, declared: nat)
      returns (r: Indexed, kept: seq<Metadata>)
    requires AllSound(year, sources, files, found)
    ensures r.Indexed? ==> AgreesWithScan(Parts(files), r.locations)
    ensures r.Indexed? ==> AllDescribed(year, Parts(files), r.locations)
    ensures r.Indexed? <==>
            declared == |Table(Parts(files), |files|)| && ReadableUpTo(sources, files, found, survives, |files|)
    ensures AllSound(year, sources, files, kept) && TornStays(found, kept)
    ensures r.Indexed? ==> forall i | 0 <= i < |files| :: Hit(sources[i], kept[i])
    ensures r == ScanFailed(Died) ==> SomeTorn(kept)
  {
    var results, failure;
    results, kept, failure := ScanAll(year, sources, files, found, survives);
    if failure.Some? {
      return ScanFailed(failure.value), kept;
    }
    r := Join(year, files, results, declared);
  }

  /** Torn metadata lets no later run succeed. */
  lemma TornMetadataBlocks(sources: seq<Source>, files: seq<File>, found: seq<Metadata>, survives: nat -> bool)
    requires |sources| == |files| == |found| && SomeTorn(found)
    ensures !ReadableUpTo(sources, files, found, survives, |files|)
  {
    var i: nat :| i < |found| && found[i].Torn?;
    assert !ReadableAt(sources, files, found, survives, i);
  }

  /** The scans' spans, by security in part order, and the count of their rows. */
  method Join(year: int -> int, files: seq<File>, results: seq<seq<Span>>, declared: nat) returns (r: Indexed)
    requires |results| == |files| && forall i: nat | i < |files| :: ScannedAt(year, files, results, i)
    ensures r.Indexed? ==> AgreesWithScan(Parts(files), r.locations) && AllDescribed(year, Parts(files), r.locations)
    ensures r.Indexed? <==> declared == |Table(Parts(files), |files|)|
    ensures !r.ScanFailed?
  {
    ghost var all: seq<Span> := [];
    var locations: Locations, indexed: nat, n: nat := map[], 0, 0;
    while n < |files|
      invariant IndexedUpTo(files, n, locations, indexed, all) && Described(year, Parts(files), all)
    {
      assert ScannedAt(year, files, results, n);
      locations, indexed := AddNext(year, files, n, results[n], locations, indexed, all);
      all := all + results[n];
      n := n + 1;
    }
    LocatedAgrees(Parts(files), locations, all);
    LocatedDescribed(year, Parts(files), locations, all);
    r := if indexed != declared then IndexCount else Indexed(locations);
  }

  lemma LocatedDescribed(year: int -> int, parts: seq<seq<Row>>, locations: Locations, all: seq<Span>)
    requires Located(locations, all) && Described(year, parts, all)
    ensures AllDescribed(year, parts, locations)
  {
    forall permno | permno in locations
      ensures Described(year, parts, locations[permno])
      ensures forall k | 0 <= k < |locations[permno]| :: locations[permno][k].permno == permno
    {
      OfDescribed(year, parts, all, permno);
    }
  }

  ghost predicate IndexedUpTo(files: seq<File>, n: nat, locations: Locations, indexed: nat, all: seq<Span>) {
    && n <= |files| && Located(locations, all)
    && CoversAll(Parts(files), all, Table(Parts(files), n))
    && indexed == |Table(Parts(files), n)|
  }

  lemma PartExtendsIndex(year: int -> int, parts: seq<seq<Row>>, n: nat, all: seq<Span>, spans: seq<Span>)
    requires n < |parts| && Tiled(year, parts[n], spans, n) && CoversAll(parts, all, Table(parts, n))
    requires Described(year, parts, all)
    ensures CoversAll(parts, all + spans, Table(parts, n + 1)) && Described(year, parts, all + spans)
    ensures RowCount(spans) == |parts[n]|
  {
    TileCount(spans, 0, |parts[n]|);
    assert parts[n][..|parts[n]|] == parts[n];
    forall k | 0 <= k < |spans| ensures spans[k].source == n && Points(parts, spans[k]) {
      DescribedPoints(year, parts, spans[k]);
    }
    PartCovers(parts, n, all, Table(parts, n), spans, |parts[n]|);
  }
}
