/** The readiness screening index: one bucket of compact rows per filter and one shard per CIK
    remainder, built in one pass, against the scan of the full records it stands for. */
module ReadinessIndex {
  import opened Sorting
  import opened Text
  import opened Wrappers

  /** A full record, reduced to what screening reads: eligible methods, missing inputs, readiness
      verdicts, and which equity claims are refused for valuation. */
  datatype Record = Record(cik: string, status: string, methods: map<string, bool>, missing: seq<string>,
                           readiness: map<string, bool>, refused: map<string, bool>)

  /** The compact row published in the index. */
  datatype Item = Item(cik: string, status: string, methods: seq<string>, missing: seq<string>,
                       flags: seq<string>, refusedClaims: seq<string>)

  const CLASSIFIED := "CLASSIFIED"
  const DATED := "dated_share_basis_verified"

  function Flags(): seq<string> {
    ["financial_history_available", "complete_equity_bridge", DATED,
     "any_implemented_method_eligible", "operating_dcf_eligible", "specialized_method_required"]
  }

  function Holding(verdicts: map<string, bool>): set<string> {
    set name | name in verdicts && verdicts[name]
  }

  /** The listed flags a record holds, in their published order. */
  function HeldFlags(flags: seq<string>, readiness: map<string, bool>): (held: seq<string>)
    ensures forall f :: f in held <==> f in flags && f in Holding(readiness)
  {
    if flags == [] then []
    else (if flags[0] in Holding(readiness) then [flags[0]] else []) + HeldFlags(flags[1..], readiness)
  }

  function RowOf(flags: seq<string>, r: Record): Item {
    Item(r.cik, r.status,
         if r.status == CLASSIFIED then Ascending(Holding(r.methods)) else [],
         r.missing,
         HeldFlags(flags, r.readiness),
         if r.status == CLASSIFIED then Ascending(Holding(r.refused)) else [])
  }

  // ---------------------------------------------------------------- queries

  /** A conjunctive query without a CIK. `any-method` and `financial` are the flags they test. */
  datatype Query = Query(method_: Option<string>, missing: Option<string>, flags: set<string>,
                         conflicting: bool, sharesAbsent: bool)

  /** The scan's predicate on a full record. */
  predicate Matching(r: Record, q: Query) {
    && r.status == "CLASSIFIED"
    && (q.method_.Some? ==> q.method_.value in r.methods && r.methods[q.method_.value])
    && (q.missing.Some? ==> q.missing.value in r.missing)
    && (forall f | f in q.flags :: f in r.readiness && r.readiness[f])
    && (q.conflicting ==> exists c :: c in r.refused && r.refused[c])
    && (q.sharesAbsent ==> !(DATED in r.readiness && r.readiness[DATED]))
  }

  /** The same filters on a compact row. */
  predicate ItemMatches(i: Item, q: Query) {
    && i.status == CLASSIFIED
    && (q.method_.Some? ==> q.method_.value in i.methods)
    && (q.missing.Some? ==> q.missing.value in i.missing)
    && (forall f | f in q.flags :: f in i.flags)
    && (q.conflicting ==> i.refusedClaims != [])
    && (q.sharesAbsent ==> DATED !in i.flags)
  }

  /** Queries ask for published flags only. */
  predicate QueryOk(flags: seq<string>, q: Query) {
    DATED in flags && forall f | f in q.flags :: f in flags
  }

  /** Compacting a record loses nothing a query can ask. */
  lemma RowKeepsVerdicts(flags: seq<string>, r: Record, q: Query)
    requires QueryOk(flags, q)
    ensures ItemMatches(RowOf(flags, r), q) <==> Matching(r, q)
  {
    var i := RowOf(flags, r);
    if r.status == CLASSIFIED {
      assert i.refusedClaims != [] <==> exists c :: c in r.refused && r.refused[c] by {
        if i.refusedClaims != [] { assert i.refusedClaims[0] in Holding(r.refused); }
        if c :| c in r.refused && r.refused[c] { assert c in i.refusedClaims; }
      }
    }
  }

  // ---------------------------------------------------------------- filter names

  datatype Filter = StatusIs(status: string) | MethodIs(name: string) | FlagIs(flag: string) | MissingIs(code: string)

  function Name(f: Filter): string {
    match f
    case StatusIs(status) => "status-" + status
    case MethodIs(name) => "method-" + name
    case FlagIs(flag) => "flag-" + flag
    case MissingIs(code) => "missing-" + code
  }

  /** No two filters share a bucket name. */
  lemma NamesInjective(f: Filter, g: Filter)
    requires Name(f) == Name(g)
    ensures f == g
  {
    var a, b := Name(f), Name(g);
    assert a[0] == b[0] && a[1] == b[1];
    match f
    case StatusIs(s) => assert a[7..] == s && b[7..] == g.status;
    case MethodIs(s) => assert a[7..] == s && b[7..] == g.name;
    case FlagIs(s) => assert a[5..] == s && b[5..] == g.flag;
    case MissingIs(s) => assert a[8..] == s && b[8..] == g.code;
  }

  function Prefixed(kind: string -> Filter, values: seq<string>): (r: seq<Filter>)
    ensures |r| == |values| && forall i | 0 <= i < |r| :: r[i] == kind(values[i])
  {
    seq(|values|, i requires 0 <= i < |values| => kind(values[i]))
  }

  /** Every filter a row belongs to; a missing code listed twice is named twice. */
  function FiltersOf(i: Item): seq<Filter> {
    [StatusIs(i.status)] + Prefixed(s => MethodIs(s), i.methods) + Prefixed(s => FlagIs(s), i.flags)
      + Prefixed(s => MissingIs(s), i.missing)
  }

  /** A bucket that contains every answer of the query. */
  predicate Applicable(f: Filter, q: Query) {
    match f
    case StatusIs(status) => status == CLASSIFIED
    case MethodIs(name) => q.method_ == Some(name)
    case FlagIs(flag) => flag in q.flags
    case MissingIs(code) => q.missing == Some(code)
  }

  function Occurrences<T(==)>(xs: seq<T>, x: T): nat {
    if xs == [] then 0 else Occurrences(xs[..|xs| - 1], x) + if xs[|xs| - 1] == x then 1 else 0
  }

  lemma {:induction false} OccurrencesPositive<T>(xs: seq<T>, x: T)
    ensures Occurrences(xs, x) > 0 <==> x in xs
  {
    if xs != [] {
      OccurrencesPositive(xs[..|xs| - 1], x);
      assert xs == xs[..|xs| - 1] + [xs[|xs| - 1]];
    }
  }

  lemma ApplicableOccurs(i: Item, q: Query, f: Filter)
    requires ItemMatches(i, q) && Applicable(f, q)
    ensures Occurrences(FiltersOf(i), f) > 0
  {
    FilterOccurrences(i, f);
    match f
    case StatusIs(status) => OccurrencesPositive([i.status], status);
    case MethodIs(name) => OccurrencesPositive(i.methods, name);
    case FlagIs(flag) => OccurrencesPositive(i.flags, flag);
    case MissingIs(code) => OccurrencesPositive(i.missing, code);
  }

  lemma {:induction false} OccurrencesAppend<T>(a: seq<T>, b: seq<T>, x: T)
    ensures Occurrences(a + b, x) == Occurrences(a, x) + Occurrences(b, x)
  {
    if b == [] {
      assert a + b == a;
    } else {
      assert (a + b)[..|a + b| - 1] == a + b[..|b| - 1];
      OccurrencesAppend(a, b[..|b| - 1], x);
    }
  }

  /** Renaming one for one keeps the number of occurrences. */
  lemma {:induction false} OccurrencesRenamed(filters: seq<Filter>, names: seq<string>, f: Filter, name: string)
    requires |filters| == |names| && forall k | 0 <= k < |names| :: filters[k] == f <==> names[k] == name
    ensures Occurrences(filters, f) == Occurrences(names, name)
  {
    if names != [] {
      OccurrencesRenamed(filters[..|names| - 1], names[..|names| - 1], f, name);
    }
  }

  lemma FilterOccurrences(i: Item, f: Filter)
    ensures Occurrences(FiltersOf(i), f) ==
            match f
            case StatusIs(status) => Occurrences([i.status], status)
            case MethodIs(name) => Occurrences(i.methods, name)
            case FlagIs(flag) => Occurrences(i.flags, flag)
            case MissingIs(code) => Occurrences(i.missing, code)
  {
    var ms, fs := Prefixed(s => MethodIs(s), i.methods), Prefixed(s => FlagIs(s), i.flags);
    var cs := Prefixed(s => MissingIs(s), i.missing);
    OccurrencesAppend([StatusIs(i.status)] + ms + fs, cs, f);
    OccurrencesAppend([StatusIs(i.status)] + ms, fs, f);
    OccurrencesAppend([StatusIs(i.status)], ms, f);
    OccurrencesPositive([StatusIs(i.status)], f);
    OccurrencesPositive(ms, f);
    OccurrencesPositive(fs, f);
    OccurrencesPositive(cs, f);
    match f
    case StatusIs(status) => OccurrencesRenamed([StatusIs(i.status)], [i.status], f, status);
    case MethodIs(name) => OccurrencesRenamed(ms, i.methods, f, name);
    case FlagIs(flag) => OccurrencesRenamed(fs, i.flags, f, flag);
    case MissingIs(code) => OccurrencesRenamed(cs, i.missing, f, code);
  }

  // ---------------------------------------------------------------- buckets

  function Repeat(i: Item, n: nat): seq<Item> {
    seq(n, _ => i)
  }

  /** What the bucket of a filter holds after a sequence of rows: each row as often as it names it. */
  function Bucket(items: seq<Item>, f: Filter): seq<Item> {
    if items == [] then []
    else
      var last := items[|items| - 1];
      Bucket(items[..|items| - 1], f) + Repeat(last, Occurrences(FiltersOf(last), f))
  }

  function Matches(items: seq<Item>, q: Query): seq<Item> {
    if items == [] then []
    else
      var last := items[|items| - 1];
      Matches(items[..|items| - 1], q) + if ItemMatches(last, q) then [last] else []
  }

  function Rows(flags: seq<string>, records: seq<Record>): (items: seq<Item>)
    ensures |items| == |records| && forall i | 0 <= i < |items| :: items[i] == RowOf(flags, records[i])
  {
    seq(|records|, i requires 0 <= i < |records| => RowOf(flags, records[i]))
  }

  /** The scan: the records that match, in release order. */
  function Scan(records: seq<Record>, q: Query): seq<Record> {
    if records == [] then []
    else
      var last := records[|records| - 1];
      Scan(records[..|records| - 1], q) + if Matching(last, q) then [last] else []
  }

  lemma {:induction false} ScanOfRows(flags: seq<string>, records: seq<Record>, q: Query)
    requires QueryOk(flags, q)
    ensures Matches(Rows(flags, records), q) == Rows(flags, Scan(records, q))
  {
    if records != [] {
      var front, last := records[..|records| - 1], records[|records| - 1];
      ScanOfRows(flags, front, q);
      RowKeepsVerdicts(flags, last, q);
      assert Rows(flags, records)[..|records| - 1] == Rows(flags, front);
      if Matching(last, q) {
        assert Rows(flags, Scan(front, q) + [last]) == Rows(flags, Scan(front, q)) + [RowOf(flags, last)];
      } else {
        assert Scan(records, q) == Scan(front, q);
      }
    }
  }

  /** The answers of a row sequence, each as often as its bucket holds it. */
  function Weighted(items: seq<Item>, f: Filter, q: Query): seq<Item> {
    if items == [] then []
    else
      var last := items[|items| - 1];
      Weighted(items[..|items| - 1], f, q) +
      if ItemMatches(last, q) then Repeat(last, Occurrences(FiltersOf(last), f)) else []
  }

  lemma {:induction false} MatchesAppend(a: seq<Item>, b: seq<Item>, q: Query)
    ensures Matches(a + b, q) == Matches(a, q) + Matches(b, q)
  {
    if b == [] {
      assert a + b == a;
    } else {
      assert (a + b)[..|a + b| - 1] == a + b[..|b| - 1];
      MatchesAppend(a, b[..|b| - 1], q);
    }
  }

  lemma {:induction false} MatchesRepeat(i: Item, n: nat, q: Query)
    ensures Matches(Repeat(i, n), q) == if ItemMatches(i, q) then Repeat(i, n) else []
  {
    if n > 0 {
      MatchesRepeat(i, n - 1, q);
      assert Repeat(i, n)[..n - 1] == Repeat(i, n - 1);
    }
  }

  /** Screening a bucket gives the answers that name it, with their repetitions. */
  lemma {:induction false} BucketScreens(items: seq<Item>, f: Filter, q: Query)
    ensures Matches(Bucket(items, f), q) == Weighted(items, f, q)
  {
    if items != [] {
      var last := items[|items| - 1];
      BucketScreens(items[..|items| - 1], f, q);
      MatchesAppend(Bucket(items[..|items| - 1], f), Repeat(last, Occurrences(FiltersOf(last), f)), q);
      MatchesRepeat(last, Occurrences(FiltersOf(last), f), q);
    }
  }

  /** No matching row names the filter twice. */
  predicate NamedOnce(items: seq<Item>, f: Filter, q: Query) {
    forall k | 0 <= k < |items| && ItemMatches(items[k], q) :: Occurrences(FiltersOf(items[k]), f) == 1
  }

  lemma {:induction false} WeightedIsMatches(items: seq<Item>, f: Filter, q: Query)
    requires Applicable(f, q)
    ensures |Weighted(items, f, q)| >= |Matches(items, q)|
    ensures Weighted(items, f, q) == Matches(items, q) <==> NamedOnce(items, f, q)
  {
    if items != [] {
      var front, last := items[..|items| - 1], items[|items| - 1];
      WeightedIsMatches(front, f, q);
      assert NamedOnce(items, f, q) <==>
        NamedOnce(front, f, q) && (ItemMatches(last, q) ==> Occurrences(FiltersOf(last), f) == 1) by {
        assert forall k | 0 <= k < |front| :: items[k] == front[k];
      }
      if ItemMatches(last, q) {
        ApplicableOccurs(last, q, f);
        AppendedEqual(Weighted(front, f, q), Repeat(last, Occurrences(FiltersOf(last), f)), Matches(front, q), last);
      } else {
        assert Weighted(items, f, q) == Weighted(front, f, q) && Matches(items, q) == Matches(front, q);
      }
    }
  }

  lemma AppendedEqual(w: seq<Item>, copies: seq<Item>, m: seq<Item>, last: Item)
    requires |w| >= |m| && copies == Repeat(last, |copies|) && |copies| > 0
    ensures w + copies == m + [last] <==> w == m && |copies| == 1
  {
    if w + copies == m + [last] {
      assert |w| == |m| && |copies| == 1;
      assert (w + copies)[..|w|] == w && (m + [last])[..|m|] == m;
    }
  }

  /** Screening through the index equals the scan: the rows of any one applicable bucket that satisfy the
      query are the compact rows of the matching records, in the same order, exactly when no match
      lists that filter twice. */
  lemma IndexEqualsScan(flags: seq<string>, records: seq<Record>, f: Filter, q: Query)
    requires QueryOk(flags, q) && Applicable(f, q)
    ensures Matches(Bucket(Rows(flags, records), f), q) == Rows(flags, Scan(records, q))
            <==> NamedOnce(Rows(flags, records), f, q)
  {
    BucketScreens(Rows(flags, records), f, q);
    WeightedIsMatches(Rows(flags, records), f, q);
    ScanOfRows(flags, records, q);
  }

  lemma {:induction false} DistinctOccursOnce<T>(xs: seq<T>, x: T)
    requires Distinct(xs)
    ensures Occurrences(xs, x) <= 1
  {
    if xs != [] {
      var front := xs[..|xs| - 1];
      DistinctOccursOnce(front, x);
      OccurrencesPositive(front, x);
    }
  }

  lemma {:induction false} HeldFlagsDistinct(flags: seq<string>, readiness: map<string, bool>)
    requires Distinct(flags)
    ensures Distinct(HeldFlags(flags, readiness))
  {
    if flags != [] {
      HeldFlagsDistinct(flags[1..], readiness);
      assert flags == [flags[0]] + flags[1..];
      assert flags[0] !in flags[1..];
    }
  }

  lemma FiltersDistinct(i: Item)
    requires Distinct(i.methods) && Distinct(i.flags) && Distinct(i.missing)
    ensures Distinct(FiltersOf(i))
  {
  }

  lemma PublishedFlags()
    ensures Distinct(Flags()) && DATED in Flags()
  {
    var flags := Flags();
    assert |flags[0]| == 27 && |flags[1]| == 22 && |flags[2]| == 26;
    assert |flags[3]| == 31 && |flags[4]| == 22 && |flags[5]| == 27;
    assert flags[0][0] != flags[5][0] && flags[1][0] != flags[4][0];
  }

  /** Records as they are published list each missing input once; then every applicable bucket answers
      every query exactly as the scan does. */
  lemma PublishedIndexEqualsScan(records: seq<Record>, f: Filter, q: Query)
    requires (forall flag | flag in q.flags :: flag in Flags()) && Applicable(f, q)
    requires forall i | 0 <= i < |records| :: Distinct(records[i].missing)
    ensures Matches(Bucket(Rows(Flags(), records), f), q) == Rows(Flags(), Scan(records, q))
  {
    var flags := Flags();
    PublishedFlags();
    var items := Rows(flags, records);
    forall k | 0 <= k < |items| && ItemMatches(items[k], q) ensures Occurrences(FiltersOf(items[k]), f) == 1 {
      HeldFlagsDistinct(flags, records[k].readiness);
      FiltersDistinct(items[k]);
      DistinctOccursOnce(FiltersOf(items[k]), f);
      ApplicableOccurs(items[k], q, f);
    }
    IndexEqualsScan(flags, records, f, q);
  }

  // ---------------------------------------------------------------- CIK shards

  /** A CIK that reads as a number. */
  predicate Numeric(cik: string) {
    cik != "" && forall i | 0 <= i < |cik| :: '0' <= cik[i] <= '9'
  }

  function Value(digits: string): nat
    requires forall i | 0 <= i < |digits| :: '0' <= digits[i] <= '9'
  {
    if digits == "" then 0
    else Value(digits[..|digits| - 1]) * 10 + (digits[|digits| - 1] as int - '0' as int)
  }

  /** `"%02d" % (int(cik) % 100)`. */
  function ShardKey(cik: string): string
    requires Numeric(cik)
  {
    var n := Value(cik) % 100;
    ['0' + (n / 10) as char, '0' + (n % 10) as char]
  }

  lemma LastTwo(v: nat, a: nat, b: nat)
    requires a < 10 && b < 10
    ensures (v * 100 + a * 10 + b) % 100 == a * 10 + b
    ensures (a * 10 + b) / 10 == a && (a * 10 + b) % 10 == b
  {
  }

  lemma ValueSplits(digits: string)
    requires |digits| >= 2 && forall i | 0 <= i < |digits| :: '0' <= digits[i] <= '9'
    ensures Value(digits) == Value(digits[..|digits| - 2]) * 100
      + (digits[|digits| - 2] as int - '0' as int) * 10 + (digits[|digits| - 1] as int - '0' as int)
  {
    var n := |digits|;
    assert digits[..n - 1][..n - 2] == digits[..n - 2];
  }

  /** For a ten-digit CIK the shard is its last two digits. */
  lemma ShardIsLastTwo(cik: string)
    requires |cik| == 10 && forall i | 0 <= i < 10 :: '0' <= cik[i] <= '9'
    ensures Numeric(cik) && ShardKey(cik) == [cik[8], cik[9]]
  {
    ValueSplits(cik);
    LastTwo(Value(cik[..8]), cik[8] as int - '0' as int, cik[9] as int - '0' as int);
  }

  function ShardOf(items: seq<Item>, key: string): seq<Item>
    requires forall i | 0 <= i < |items| :: Numeric(items[i].cik)
  {
    if items == [] then []
    else
      var last := items[|items| - 1];
      ShardOf(items[..|items| - 1], key) + if ShardKey(last.cik) == key then [last] else []
  }

  // ---------------------------------------------------------------- the build loop

  type Buckets = map<string, seq<Item>>

  /** Each bucket holds exactly the rows that name it, in release order, and only used names exist. */
  ghost predicate BucketsOk(items: seq<Item>, buckets: Buckets) {
    && (forall f :: Name(f) in buckets <==> Bucket(items, f) != [])
    && (forall f | Name(f) in buckets :: buckets[Name(f)] == Bucket(items, f))
  }

  ghost predicate ShardsOk(items: seq<Item>, shards: Buckets)
    requires forall i | 0 <= i < |items| :: Numeric(items[i].cik)
  {
    && (forall key :: key in shards <==> ShardOf(items, key) != [])
    && (forall key | key in shards :: shards[key] == ShardOf(items, key))
  }

  /** The buckets in the middle of one row: the filters before `n` have been appended. */
  ghost predicate Partial(items: seq<Item>, item: Item, n: nat, buckets: Buckets)
    requires n <= |FiltersOf(item)|
  {
    forall f :: var here := Bucket(items, f) + Repeat(item, Occurrences(FiltersOf(item)[..n], f));
      && (Name(f) in buckets <==> here != [])
      && (Name(f) in buckets ==> buckets[Name(f)] == here)
  }

  function AppendTo(buckets: Buckets, name: string, item: Item): Buckets {
    buckets[name := (if name in buckets then buckets[name] else []) + [item]]
  }

  lemma PartialStep(items: seq<Item>, item: Item, n: nat, buckets: Buckets)
    requires n < |FiltersOf(item)| && Partial(items, item, n, buckets)
    ensures Partial(items, item, n + 1, AppendTo(buckets, Name(FiltersOf(item)[n]), item))
  {
    var filters := FiltersOf(item);
    var more := AppendTo(buckets, Name(filters[n]), item);
    forall f
      ensures var here := Bucket(items, f) + Repeat(item, Occurrences(filters[..n + 1], f));
        (Name(f) in more <==> here != []) && (Name(f) in more ==> more[Name(f)] == here)
    {
      assert filters[..n + 1][..n] == filters[..n];
      var before := Occurrences(filters[..n], f);
      if f == filters[n] {
        assert Repeat(item, before + 1) == Repeat(item, before) + [item];
        assert Bucket(items, f) + Repeat(item, before + 1) == Bucket(items, f) + Repeat(item, before) + [item];
      } else if Name(f) == Name(filters[n]) {
        NamesInjective(f, filters[n]);
      }
    }
  }

  lemma PartialBegins(items: seq<Item>, item: Item, buckets: Buckets)
    requires BucketsOk(items, buckets)
    ensures Partial(items, item, 0, buckets)
  {
    assert FiltersOf(item)[..0] == [];
    forall f ensures Bucket(items, f) + Repeat(item, Occurrences(FiltersOf(item)[..0], f)) == Bucket(items, f) {}
  }

  lemma PartialEnds(items: seq<Item>, item: Item, buckets: Buckets)
    requires Partial(items, item, |FiltersOf(item)|, buckets)
    ensures BucketsOk(items + [item], buckets)
  {
    assert FiltersOf(item)[..|FiltersOf(item)|] == FiltersOf(item);
    assert (items + [item])[..|items|] == items;
    forall f ensures Bucket(items + [item], f) == Bucket(items, f) + Repeat(item, Occurrences(FiltersOf(item), f)) {}
  }

  method AddItem(ghost items: seq<Item>, item: Item, buckets: Buckets) returns (more: Buckets)
    requires BucketsOk(items, buckets)
    ensures BucketsOk(items + [item], more)
  {
    more := buckets;
    var filters, n := FiltersOf(item), 0;
    PartialBegins(items, item, more);
    while n < |filters|
      invariant n <= |filters| && Partial(items, item, n, more)
    {
      PartialStep(items, item, n, more);
      more := AppendTo(more, Name(filters[n]), item);
      n := n + 1;
    }
    PartialEnds(items, item, more);
  }

  // ---------------------------------------------------------------- the published counts

  /** How often each name was counted; a name never counted is absent. */
  type Counter = map<string, nat>

  datatype Counts = Counts(methods: Counter, flags: Counter, missing: Counter, status: Counter)

  function Counted(c: Counter, name: string): nat {
    if name in c then c[name] else 0
  }

  /** `Counter.update`: each occurrence of a name counts once. */
  method Update(c: Counter, names: seq<string>) returns (more: Counter)
    requires forall name | name in c :: c[name] > 0
    ensures forall name :: Counted(more, name) == Counted(c, name) + Occurrences(names, name)
    ensures forall name | name in more :: more[name] > 0
  {
    more := c;
    var k := 0;
    assert names[..0] == [];
    while k < |names|
      invariant 0 <= k <= |names|
      invariant forall name :: Counted(more, name) == Counted(c, name) + Occurrences(names[..k], name)
      invariant forall name | name in more :: more[name] > 0
    {
      assert names[..k + 1][..k] == names[..k] && names[..k + 1][k] == names[k];
      more := more[names[k] := Counted(more, names[k]) + 1];
      k := k + 1;
    }
    assert names[..k] == names;
  }

  /** A counter says of every filter of one kind how long its bucket is, and has no other name. */
  ghost predicate Measures(items: seq<Item>, c: Counter, kind: string -> Filter) {
    && (forall name :: Counted(c, name) == |Bucket(items, kind(name))|)
    && forall name | name in c :: c[name] > 0
  }

  function Method(name: string): Filter { MethodIs(name) }
  function Flag(name: string): Filter { FlagIs(name) }
  function Missing(name: string): Filter { MissingIs(name) }
  function Status(name: string): Filter { StatusIs(name) }

  /** Each published count is the length of the bucket of that name, and only used names are counted. */
  ghost predicate CountsOk(items: seq<Item>, counts: Counts) {
    && Measures(items, counts.methods, Method) && Measures(items, counts.flags, Flag)
    && Measures(items, counts.missing, Missing) && Measures(items, counts.status, Status)
  }

  lemma MeasuresOneMore(items: seq<Item>, item: Item, c: Counter, more: Counter, names: seq<string>,
      kind: string -> Filter)
    requires Measures(items, c, kind) && forall name | name in more :: more[name] > 0
    requires forall name :: Counted(more, name) == Counted(c, name) + Occurrences(names, name)
    requires forall name :: Occurrences(FiltersOf(item), kind(name)) == Occurrences(names, name)
    ensures Measures(items + [item], more, kind)
  {
    assert (items + [item])[..|items|] == items;
    forall name ensures Counted(more, name) == |Bucket(items + [item], kind(name))| {}
  }

  method CountItem(ghost items: seq<Item>, item: Item, counts: Counts) returns (more: Counts)
    requires CountsOk(items, counts)
    ensures CountsOk(items + [item], more)
  {
    var methods := Update(counts.methods, item.methods);
    var flags := Update(counts.flags, item.flags);
    var missing := Update(counts.missing, item.missing);
    var status := Update(counts.status, [item.status]);
    forall name ensures Occurrences(FiltersOf(item), Method(name)) == Occurrences(item.methods, name) {
      FilterOccurrences(item, Method(name));
    }
    forall name ensures Occurrences(FiltersOf(item), Flag(name)) == Occurrences(item.flags, name) {
      FilterOccurrences(item, Flag(name));
    }
    forall name ensures Occurrences(FiltersOf(item), Missing(name)) == Occurrences(item.missing, name) {
      FilterOccurrences(item, Missing(name));
    }
    forall name ensures Occurrences(FiltersOf(item), Status(name)) == Occurrences([item.status], name) {
      FilterOccurrences(item, Status(name));
    }
    MeasuresOneMore(items, item, counts.methods, methods, item.methods, Method);
    MeasuresOneMore(items, item, counts.flags, flags, item.flags, Flag);
    MeasuresOneMore(items, item, counts.missing, missing, item.missing, Missing);
    MeasuresOneMore(items, item, counts.status, status, [item.status], Status);
    more := Counts(methods, flags, missing, status);
  }

  // ---------------------------------------------------------------- the pass

  /** The buckets, shards and counts of the rows given. */
  ghost predicate Built(items: seq<Item>, buckets: Buckets, shards: Buckets, counts: Counts) {
    && (forall i | 0 <= i < |items| :: Numeric(items[i].cik))
    && BucketsOk(items, buckets) && ShardsOk(items, shards) && CountsOk(items, counts)
  }

  ghost predicate BuiltTo(all: seq<Item>, n: nat, buckets: Buckets, shards: Buckets, counts: Counts) {
    n <= |all| && Built(all[..n], buckets, shards, counts)
  }

  lemma NothingBuilt(all: seq<Item>)
    ensures BuiltTo(all, 0, map[], map[], Counts(map[], map[], map[], map[]))
  {
    assert all[..0] == [];
  }

  method AddRow(ghost all: seq<Item>, ghost n: nat, item: Item, bucketsBefore: Buckets, shardsBefore: Buckets,
                countsBefore: Counts) returns (buckets: Buckets, shards: Buckets, counts: Counts)
    requires BuiltTo(all, n, bucketsBefore, shardsBefore, countsBefore)
    requires n < |all| && item == all[n] && Numeric(item.cik)
    ensures BuiltTo(all, n + 1, buckets, shards, counts)
  {
    buckets := AddItem(all[..n], item, bucketsBefore);
    ShardStep(all[..n], item, shardsBefore);
    shards := AppendTo(shardsBefore, ShardKey(item.cik), item);
    counts := CountItem(all[..n], item, countsBefore);
    assert all[..n + 1] == all[..n] + [item];
  }

  /** One pass over the records. Every bucket is the sequence of rows that name it, every shard the rows of
      its remainder, and every published count the length of the bucket of that name. */
  method Build(flags: seq<string>, records: seq<Record>)
      returns (buckets: Buckets, shards: Buckets, rows: nat, counts: Counts)
    requires forall i | 0 <= i < |records| :: Numeric(records[i].cik)
    ensures rows == |records| && Built(Rows(flags, records), buckets, shards, counts)
  {
    buckets, shards, rows, counts := map[], map[], 0, Counts(map[], map[], map[], map[]);
    ghost var all := Rows(flags, records);
    NothingBuilt(all);
    while rows < |records|
      invariant rows <= |records|
      invariant BuiltTo(all, rows, buckets, shards, counts)
    {
      buckets, shards, counts := AddRow(all, rows, RowOf(flags, records[rows]), buckets, shards, counts);
      rows := rows + 1;
    }
    assert all[..rows] == all;
  }

  lemma ShardStep(items: seq<Item>, item: Item, shards: Buckets)
    requires Numeric(item.cik) && forall i | 0 <= i < |items| :: Numeric(items[i].cik)
    requires ShardsOk(items, shards)
    ensures ShardsOk(items + [item], AppendTo(shards, ShardKey(item.cik), item))
  {
    assert (items + [item])[..|items|] == items;
  }

  lemma OneMoreOccurrence(items: seq<Item>, last: Item, item: Item)
    ensures Occurrences(items + [last], item) == Occurrences(items, item) + if last == item then 1 else 0
  {
    assert (items + [last])[..|items|] == items;
  }

  /** The shards partition the rows: a row is in the shard of its CIK and in no other, as often as in the release. */
  lemma {:induction false} ShardsPartition(items: seq<Item>, item: Item, key: string)
    requires forall i | 0 <= i < |items| :: Numeric(items[i].cik)
    requires Numeric(item.cik)
    ensures Occurrences(ShardOf(items, key), item) == if ShardKey(item.cik) == key then Occurrences(items, item) else 0
  {
    if items != [] {
      var front, last := items[..|items| - 1], items[|items| - 1];
      ShardsPartition(front, item, key);
      assert items == front + [last];
      OneMoreOccurrence(front, last, item);
      if ShardKey(last.cik) == key {
        OneMoreOccurrence(ShardOf(front, key), last, item);
      } else {
        assert ShardOf(items, key) == ShardOf(front, key) + [] == ShardOf(front, key);
      }
    }
  }
}
