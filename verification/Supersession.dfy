/** "No later eligible filing supersedes this one": the per-row check of the history verifier and the
    memoized check of the engine verifier, which builds one table per tag, unit and cutoff. */
module Supersession {
  import opened Text
  import opened Wrappers

  /** The UTC instant from which a filing date counts: the next midnight in New York. A date that does
      not parse is caught by the memoized check; the last representable date overflows instead. */
  datatype Availability = At(instant: int) | Unparseable | Overflow

  /** A native fact row; an absent or empty filing date is "". */
  datatype Native = Native(form: string, filed: string, start: Option<string>, end: Option<string>)

  type Context = (Option<string>, Option<string>)

  type Unit = (string, string)

  /** The native rows of a company by tag and unit. */
  type Facts = map<Unit, seq<Native>>

  /** One source observation to check: its tag and unit, its row, and the cutoff of its result. */
  datatype Check = Check(unit: Unit, row: Native, cutoff: int)

  predicate PeriodicForm(form: string) {
    form == "10-K" || form == "10-K/A" || form == "10-Q" || form == "10-Q/A"
  }

  predicate Eligible(n: Native) {
    PeriodicForm(n.form) && n.filed != ""
  }

  function ContextOf(n: Native): Context {
    (n.start, n.end)
  }

  predicate Concerns(n: Native, context: Context) {
    Eligible(n) && ContextOf(n) == context
  }

  // ---------------------------------------------------------------- the naive check

  /** The filing dates of the eligible rows of a context that are available by the cutoff. */
  function Available(avail: string -> Availability, rows: seq<Native>, context: Context,
                     cutoff: int): seq<string>
  {
    if rows == [] then []
    else
      var front, n := Available(avail, rows[..|rows| - 1], context, cutoff), rows[|rows| - 1];
      if Concerns(n, context) && avail(n.filed).At? && avail(n.filed).instant <= cutoff
      then front + [n.filed] else front
  }

  function Later(a: string, b: string): string {
    if Leq(a, b) then b else a
  }

  /** The latest date of a non-empty list, as text. */
  function Latest(dates: seq<string>): string
    requires dates != []
  {
    if |dates| == 1 then dates[0] else Later(Latest(dates[..|dates| - 1]), dates[|dates| - 1])
  }

  /** It is one of them, and none is later. */
  lemma {:induction false} LatestIsLast(dates: seq<string>)
    requires dates != []
    ensures Latest(dates) in dates
    ensures forall d | d in dates :: Leq(d, Latest(dates))
  {
    if |dates| == 1 {
      LeqReflexive(dates[0]);
    } else {
      var front, last := dates[..|dates| - 1], dates[|dates| - 1];
      LatestIsLast(front);
      LeqTotal(Latest(front), last);
      LeqReflexive(last);
      forall d | d in dates ensures Leq(d, Latest(dates)) {
        if d in front && Leq(Latest(front), last) { LeqTransitive(d, Latest(front), last); }
      }
    }
  }

  /** The available dates are those of the rows concerned whose instant has come by the cutoff. */
  lemma {:induction false} AvailableMeans(avail: string -> Availability, rows: seq<Native>, context: Context,
                                          cutoff: int, d: string)
    ensures d in Available(avail, rows, context, cutoff) <==>
            avail(d).At? && avail(d).instant <= cutoff && exists n :: n in rows && n.filed == d && Concerns(n, context)
  {
    if rows != [] {
      var front, last := rows[..|rows| - 1], rows[|rows| - 1];
      AvailableMeans(avail, front, context, cutoff, d);
      assert forall n :: n in rows <==> n in front || n == last;
    }
  }

  /** Every date of the context is computed, so every one must parse and be representable. */
  predicate DatesCompute(avail: string -> Availability, rows: seq<Native>, context: Context) {
    forall i | 0 <= i < |rows| && Concerns(rows[i], context) :: avail(rows[i].filed).At?
  }

  /** The row itself is available by the cutoff and its period end is present. */
  predicate RowAvailable(avail: string -> Availability, c: Check) {
    avail(c.row.filed).At? && avail(c.row.filed).instant <= c.cutoff && c.row.end.Some?
  }

  predicate NaiveAccepts(avail: string -> Availability, facts: Facts, c: Check)
    requires c.unit in facts
  {
    var rows, context := facts[c.unit], ContextOf(c.row);
    && RowAvailable(avail, c)
    && DatesCompute(avail, rows, context)
    && var dates := Available(avail, rows, context, c.cutoff);
       dates != [] && c.row.filed == Latest(dates)
  }

  /** A native row the check compares with: a 10-K or 10-Q or an amendment of one, with a filing date, and with
      the start and end of the row that is checked. */
  ghost predicate Rival(n: Native, row: Native) {
    && n.form in {"10-K", "10-K/A", "10-Q", "10-Q/A"} && n.filed != "" && n.start == row.start && n.end == row.end
  }

  /** What acceptance means: the row is available by the cutoff and has a period end, all rival filing dates
      parse, some rival available by the cutoff was filed the same day, and none was filed later. */
  lemma AcceptedIsLatest(avail: string -> Availability, facts: Facts, c: Check)
    requires c.unit in facts
    ensures NaiveAccepts(avail, facts, c) <==>
      && avail(c.row.filed).At? && avail(c.row.filed).instant <= c.cutoff && c.row.end.Some?
      && (forall n | n in facts[c.unit] && Rival(n, c.row) :: avail(n.filed).At?)
      && (exists n :: n in facts[c.unit] && Rival(n, c.row) && n.filed == c.row.filed)
      && (forall n | n in facts[c.unit] && Rival(n, c.row) && avail(n.filed).At?
                     && avail(n.filed).instant <= c.cutoff :: Leq(n.filed, c.row.filed))
  {
    var rows, context, own := facts[c.unit], ContextOf(c.row), c.row.filed;
    var dates := Available(avail, rows, context, c.cutoff);
    forall n ensures Concerns(n, context) <==> Rival(n, c.row) {}
    forall d ensures d in dates <==>
      avail(d).At? && avail(d).instant <= c.cutoff && exists n :: n in rows && n.filed == d && Concerns(n, context)
    {
      AvailableMeans(avail, rows, context, c.cutoff, d);
    }
    if dates != [] {
      LatestIsLast(dates);
      if own in dates && forall d | d in dates :: Leq(d, own) { LeqAntisymmetric(Latest(dates), own); }
    }
    DatesOfRivals(avail, rows, c.row);
  }

  lemma DatesOfRivals(avail: string -> Availability, rows: seq<Native>, row: Native)
    ensures DatesCompute(avail, rows, ContextOf(row)) <==> forall n | n in rows && Rival(n, row) :: avail(n.filed).At?
  {
    forall n ensures Concerns(n, ContextOf(row)) <==> Rival(n, row) {}
    if forall n | n in rows && Rival(n, row) :: avail(n.filed).At? {
      forall i | 0 <= i < |rows| && Concerns(rows[i], ContextOf(row)) ensures avail(rows[i].filed).At? {
        assert rows[i] in rows;
      }
    }
  }

  // ---------------------------------------------------------------- the memoized check

  /** For each context of a table: the latest available date, and the contexts with a date that does not parse. */
  datatype Table = Table(latest: map<Context, string>, invalid: set<Context>)

  /** The table as a function of the rows. */
  function TableOf(avail: string -> Availability, rows: seq<Native>, cutoff: int): Table {
    if rows == [] then Table(map[], {})
    else AddRow(avail, TableOf(avail, rows[..|rows| - 1], cutoff), rows[|rows| - 1], cutoff)
  }

  function AddRow(avail: string -> Availability, t: Table, n: Native, cutoff: int): Table {
    if !Eligible(n) then t
    else
      match avail(n.filed)
      case Unparseable => t.(invalid := t.invalid + {ContextOf(n)})
      case At(instant) =>
        if instant > cutoff then t
        else
          var context := ContextOf(n);
          var seen := if context in t.latest then t.latest[context] else n.filed;
          t.(latest := t.latest[context := Later(seen, n.filed)])
      case Overflow => t
  }

  /** Some eligible row of the table has a date that overflows, whatever its context. */
  predicate Overflows(avail: string -> Availability, rows: seq<Native>) {
    exists i :: 0 <= i < |rows| && Eligible(rows[i]) && avail(rows[i].filed).Overflow?
  }

  lemma OverflowsMeans(avail: string -> Availability, rows: seq<Native>)
    ensures Overflows(avail, rows) <==>
            exists n :: n in rows && n.form in {"10-K", "10-K/A", "10-Q", "10-Q/A"} && n.filed != ""
                        && avail(n.filed).Overflow?
  {
    if i :| 0 <= i < |rows| && Eligible(rows[i]) && avail(rows[i].filed).Overflow? { assert rows[i] in rows; }
  }

  /** The table answers the naive question for every context at once. */
  lemma {:induction false} TableMeans(avail: string -> Availability, rows: seq<Native>,
                                      cutoff: int, context: Context)
    ensures var t := TableOf(avail, rows, cutoff); var dates := Available(avail, rows, context, cutoff);
      && (context in t.latest <==> dates != [])
      && (dates != [] ==> t.latest[context] == Latest(dates))
      && (context in t.invalid <==>
            exists i :: 0 <= i < |rows| && Concerns(rows[i], context) && avail(rows[i].filed).Unparseable?)
  {
    if rows != [] {
      var front, n := rows[..|rows| - 1], rows[|rows| - 1];
      TableMeans(avail, front, cutoff, context);
      var before := Available(avail, front, context, cutoff);
      var t, u := TableOf(avail, front, cutoff), TableOf(avail, rows, cutoff);
      if Concerns(n, context) && avail(n.filed).At? && avail(n.filed).instant <= cutoff {
        LatestAppend(before, n.filed);
      }
      InvalidAppend(avail, rows, context);
    }
  }

  lemma LatestAppend(dates: seq<string>, d: string)
    ensures Latest(dates + [d]) == if dates == [] then Later(d, d) else Later(Latest(dates), d)
  {
    assert (dates + [d])[..|dates|] == dates;
  }

  lemma InvalidAppend(avail: string -> Availability, rows: seq<Native>, context: Context)
    requires rows != []
    ensures var front, n := rows[..|rows| - 1], rows[|rows| - 1];
      (exists i :: 0 <= i < |rows| && Concerns(rows[i], context) && avail(rows[i].filed).Unparseable?) <==>
      (exists i :: 0 <= i < |front| && Concerns(front[i], context) && avail(front[i].filed).Unparseable?)
      || (Concerns(n, context) && avail(n.filed).Unparseable?)
  {
    var front, n := rows[..|rows| - 1], rows[|rows| - 1];
    if i :| 0 <= i < |rows| && Concerns(rows[i], context) && avail(rows[i].filed).Unparseable? {
      if i < |front| { assert front[i] == rows[i]; }
    }
    if i :| 0 <= i < |front| && Concerns(front[i], context) && avail(front[i].filed).Unparseable? {
      assert rows[i] == front[i];
    }
    assert rows[|rows| - 1] == n;
  }

  type TableKey = (Unit, int)

  /** The memo holds only values of the function it caches. */
  predicate TablesOk(avail: string -> Availability, facts: Facts, memo: map<TableKey, Table>) {
    forall key | key in memo ::
      key.0 in facts && memo[key] == TableOf(avail, facts[key.0], key.1)
      && !Overflows(avail, facts[key.0])
  }

  /** So does the memo of parsed dates; an unparseable date is remembered as none. */
  predicate DatesOk(avail: string -> Availability, memo: map<string, Option<int>>) {
    forall filed | filed in memo ::
      match avail(filed)
      case At(instant) => memo[filed] == Some(instant)
      case Unparseable => memo[filed] == None
      case Overflow => false
  }

  /** Looks a date up, computing it at most once; none when computing it overflows. */
  method DateOf(avail: string -> Availability, filed: string, memo: map<string, Option<int>>)
      returns (overflow: bool, memo': map<string, Option<int>>)
    requires DatesOk(avail, memo)
    ensures DatesOk(avail, memo')
    ensures overflow == avail(filed).Overflow?
    ensures !overflow ==> filed in memo'
  {
    memo' := memo;
    overflow := false;
    if filed !in memo {
      match avail(filed) {
        case At(instant) => memo' := memo[filed := Some(instant)];
        case Unparseable => memo' := memo[filed := None];
        case Overflow => overflow := true;
      }
    }
  }

  /** Builds one table, sharing the memo of dates; it fails exactly when an eligible date overflows. */
  method BuildTable(avail: string -> Availability, rows: seq<Native>, cutoff: int,
                    dates: map<string, Option<int>>)
      returns (ok: bool, table: Table, dates': map<string, Option<int>>)
    requires DatesOk(avail, dates)
    ensures DatesOk(avail, dates')
    ensures ok <==> !Overflows(avail, rows)
    ensures ok ==> table == TableOf(avail, rows, cutoff)
  {
    dates' := dates;
    var latest: map<Context, string>, invalid: set<Context> := map[], {};
    var i := 0;
    while i < |rows|
      invariant i <= |rows| && DatesOk(avail, dates')
      invariant forall j | 0 <= j < i && Eligible(rows[j]) :: !avail(rows[j].filed).Overflow?
      invariant Table(latest, invalid) == TableOf(avail, rows[..i], cutoff)
    {
      var n := rows[i];
      assert rows[..i + 1][..i] == rows[..i];
      if Eligible(n) {
        var overflow;
        overflow, dates' := DateOf(avail, n.filed, dates');
        if overflow {
          return false, Table(latest, invalid), dates';
        }
        var context := ContextOf(n);
        match dates'[n.filed] {
          case None => invalid := invalid + {context};
          case Some(available) =>
            if available <= cutoff {
              var seen := if context in latest then latest[context] else n.filed;
              latest := latest[context := Later(seen, n.filed)];
            }
        }
      }
      i := i + 1;
    }
    assert rows[..i] == rows;
    ok, table := true, Table(latest, invalid);
  }

  /** What the memoized check decides once it has a table. */
  predicate TableAccepts(avail: string -> Availability, t: Table, c: Check) {
    var context := ContextOf(c.row);
    && RowAvailable(avail, c)
    && context !in t.invalid && context in t.latest && c.row.filed == t.latest[context]
  }

  /** On a table without overflows the two checks decide alike. */
  lemma TableRefinesNaive(avail: string -> Availability, facts: Facts, c: Check)
    requires c.unit in facts && !Overflows(avail, facts[c.unit])
    ensures TableAccepts(avail, TableOf(avail, facts[c.unit], c.cutoff), c) <==>
            NaiveAccepts(avail, facts, c)
  {
    var rows, context := facts[c.unit], ContextOf(c.row);
    TableMeans(avail, rows, c.cutoff, context);
    assert DatesCompute(avail, rows, context) <==>
      !exists i :: 0 <= i < |rows| && Concerns(rows[i], context) && avail(rows[i].filed).Unparseable? by {
      if exists i :: 0 <= i < |rows| && Concerns(rows[i], context) && avail(rows[i].filed).Unparseable? {
        var i :| 0 <= i < |rows| && Concerns(rows[i], context) && avail(rows[i].filed).Unparseable?;
        assert !avail(rows[i].filed).At?;
      }
      forall i | 0 <= i < |rows| && Concerns(rows[i], context)
        ensures avail(rows[i].filed).At? || avail(rows[i].filed).Unparseable?
      {
        assert Eligible(rows[i]);
      }
    }
  }

  /** The memoized check over a whole company: every observation, across all tags, units and cutoffs,
      sharing both memos. It accepts exactly when the naive check accepts every observation and no
      table it needs contains an eligible date that overflows. */
  method MemoizedCheck(avail: string -> Availability, facts: Facts, checks: seq<Check>)
      returns (accepted: bool)
    requires forall i | 0 <= i < |checks| :: checks[i].unit in facts
    ensures accepted <==> forall i | 0 <= i < |checks| ::
      NaiveAccepts(avail, facts, checks[i]) && !Overflows(avail, facts[checks[i].unit])
  {
    var tables: map<TableKey, Table>, dates: map<string, Option<int>> := map[], map[];
    var i := 0;
    while i < |checks|
      invariant i <= |checks| && TablesOk(avail, facts, tables) && DatesOk(avail, dates)
      invariant forall j | 0 <= j < i ::
        NaiveAccepts(avail, facts, checks[j]) && !Overflows(avail, facts[checks[j].unit])
    {
      var c := checks[i];
      var own := avail(c.row.filed);
      if !own.At? || own.instant > c.cutoff {
        return false;
      }
      var key := (c.unit, c.cutoff);
      if key !in tables {
        var ok, table;
        ok, table, dates := BuildTable(avail, facts[c.unit], c.cutoff, dates);
        if !ok {
          return false;
        }
        tables := tables[key := table];
      }
      TableRefinesNaive(avail, facts, c);
      if c.row.end.None? || ContextOf(c.row) in tables[key].invalid || ContextOf(c.row) !in tables[key].latest
         || c.row.filed != tables[key].latest[ContextOf(c.row)] {
        return false;
      }
      i := i + 1;
    }
    accepted := true;
  }

  /** The overflow makes a real difference: a company with an eligible row of another context filed on
      the last representable date passes the naive check, and its table overflows. */
  lemma OverflowSeparates(avail: string -> Availability, unit: Unit, row: Native, other: Native, cutoff: int)
    requires Eligible(row) && row.end.Some? && avail(row.filed).At? && avail(row.filed).instant <= cutoff
    requires Eligible(other) && avail(other.filed).Overflow? && ContextOf(other) != ContextOf(row)
    ensures NaiveAccepts(avail, map[unit := [row, other]], Check(unit, row, cutoff))
    ensures Overflows(avail, map[unit := [row, other]][unit])
  {
    var rows := [row, other];
    assert rows[1] == other;
    assert rows[..1] == [row] && [row][..0] == [];
    assert Available(avail, [row], ContextOf(row), cutoff) == [row.filed];
    assert Available(avail, rows, ContextOf(row), cutoff) == [row.filed];
  }
}
