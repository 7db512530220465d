/** The build of the sixteen group files: fetches run ahead of the writer, at most four at a time, while
    rows are written in issuer order and in row groups of a fixed size. */
module PrefetchWriter {
  import opened Sorting
  import Text
  import opened Wrappers

  const GROUPS := 16
  const AHEAD := 4
  const BATCH := 25000

  datatype Record = Record(cik: string, key: string)

  type Row = string

  /** What a fetch of the record's object yields: its normalized rows, or an exception. */
  type Fetch = Record -> Option<seq<Row>>

  datatype Company = Company(cik: string, rows: nat, group: nat)

  datatype GroupFile = GroupFile(number: nat, digested: seq<Row>, batches: seq<seq<Row>>)

  // ---------------------------------------------------------------- the rows of a group and their batches

  ghost predicate AllFetched(fetch: Fetch, records: seq<Record>) {
    forall r | r in records :: fetch(r).Some?
  }

  function RowsOf(fetch: Fetch, records: seq<Record>): seq<Row>
    requires AllFetched(fetch, records)
  {
    if records == [] then []
    else RowsOf(fetch, records[..|records| - 1]) + fetch(records[|records| - 1]).value
  }

  function CompaniesOf(fetch: Fetch, records: seq<Record>, number: nat): seq<Company>
    requires AllFetched(fetch, records)
  {
    if records == [] then []
    else
      var last := records[|records| - 1];
      CompaniesOf(fetch, records[..|records| - 1], number) + [Company(last.cik, |fetch(last).value|, number)]
  }

  lemma OneMoreRecord(fetch: Fetch, selected: seq<Record>, done: nat, number: nat, before: seq<Company>)
    requires done < |selected| && AllFetched(fetch, selected[..done]) && fetch(selected[done]).Some?
    ensures AllFetched(fetch, selected[..done + 1])
    ensures RowsOf(fetch, selected[..done + 1]) == RowsOf(fetch, selected[..done]) + fetch(selected[done]).value
    ensures before + CompaniesOf(fetch, selected[..done + 1], number) ==
            before + CompaniesOf(fetch, selected[..done], number) +
            [Company(selected[done].cik, |fetch(selected[done]).value|, number)]
  {
    var upTo := selected[..done + 1];
    assert upTo == selected[..done] + [selected[done]];
    assert upTo[..|upTo| - 1] == selected[..done];
  }

  function Flat(batches: seq<seq<Row>>): seq<Row> {
    if batches == [] then [] else batches[0] + Flat(batches[1..])
  }

  /** The only way to cut rows so that every batch but the last is full and none is empty. */
  function Batches(rows: seq<Row>): seq<seq<Row>> {
    if rows == [] then []
    else if |rows| <= BATCH then [rows]
    else [rows[..BATCH]] + Batches(rows[BATCH..])
  }

  predicate Cut(batches: seq<seq<Row>>) {
    forall i | 0 <= i < |batches| :: 0 < |batches[i]| <= 25000 && (i < |batches| - 1 ==> |batches[i]| == 25000)
  }

  lemma {:induction false} BatchesCut(rows: seq<Row>)
    ensures Cut(Batches(rows)) && Flat(Batches(rows)) == rows
  {
    if rows == [] {
    } else if |rows| <= BATCH {
      assert Flat([rows]) == rows + Flat([]);
    } else {
      BatchesCut(rows[BATCH..]);
      var rest := Batches(rows[BATCH..]);
      assert ([rows[..BATCH]] + rest)[1..] == rest;
      assert rows == rows[..BATCH] + rows[BATCH..];
    }
  }

  lemma {:induction false} BatchesUnique(batches: seq<seq<Row>>)
    requires Cut(batches)
    ensures batches == Batches(Flat(batches))
  {
    if |batches| == 1 {
      assert batches == [batches[0]] && batches[1..] == [];
      assert Flat(batches) == batches[0] + Flat([]) == batches[0];
      assert Batches(batches[0]) == [batches[0]];
    } else if |batches| > 1 {
      var first, rest := batches[0], batches[1..];
      assert Cut(rest) by {
        forall i | 0 <= i < |rest|
          ensures 0 < |rest[i]| <= BATCH && (i < |rest| - 1 ==> |rest[i]| == BATCH)
        {
          assert rest[i] == batches[i + 1];
        }
      }
      BatchesUnique(rest);
      assert Flat(rest) == rest[0] + Flat(rest[1..]);
      assert |first| == BATCH && Flat(batches) == first + Flat(rest);
      assert Flat(batches)[..BATCH] == first && Flat(batches)[BATCH..] == Flat(rest);
      assert batches == [first] + rest;
    }
  }

  lemma {:induction false} FlatAppends(batches: seq<seq<Row>>, batch: seq<Row>)
    ensures Flat(batches + [batch]) == Flat(batches) + batch
  {
    if batches == [] {
      assert [batch][1..] == [] && Flat([batch]) == batch + Flat([]);
    } else {
      FlatAppends(batches[1..], batch);
      assert (batches + [batch])[1..] == batches[1..] + [batch];
    }
  }

  /** More rows than `k` batches hold need a further batch. */
  lemma {:induction false} BatchesNeeded(rows: seq<Row>, k: nat)
    requires |rows| > k * BATCH
    ensures |Batches(rows)| > k
  {
    if k > 0 { BatchesNeeded(rows[BATCH..], k - 1); }
  }

  lemma {:induction false} FullLength(batches: seq<seq<Row>>)
    requires forall b | b in batches :: |b| == BATCH
    ensures |Flat(batches)| == |batches| * BATCH
  {
    if batches != [] {
      assert forall b | b in batches[1..] :: b in batches;
      FullLength(batches[1..]);
    }
  }

  /** Full batches followed by what the buffer still holds. */
  ghost predicate Accounts(written: seq<seq<Row>>, buffer: seq<Row>, digested: seq<Row>) {
    && Flat(written) + buffer == digested
    && forall b | b in written :: |b| == BATCH
  }

  lemma AccountsAtTheEnd(written: seq<seq<Row>>, buffer: seq<Row>, digested: seq<Row>)
    requires Accounts(written, buffer, digested) && |buffer| < BATCH
    ensures buffer == [] ==> written == Batches(digested)
    ensures buffer != [] ==> written + [buffer] == Batches(digested)
  {
    assert forall i | 0 <= i < |written| :: |written[i]| == BATCH;
    if buffer == [] {
      assert digested == Flat(written);
      BatchesUnique(written);
    } else {
      FlatAppends(written, buffer);
      BatchesUnique(written + [buffer]);
    }
  }

  /** A buffer that is not empty needs one batch more than those written, however many rows follow. */
  lemma AnotherNeeded(written: seq<seq<Row>>, buffer: seq<Row>, digested: seq<Row>, rows: seq<Row>)
    requires Accounts(written, buffer, digested) && buffer != [] && digested <= rows
    ensures |Batches(rows)| > |written|
  {
    FullLength(written);
    BatchesNeeded(rows, |written|);
  }

  lemma {:induction false} RowsPrefix(fetch: Fetch, records: seq<Record>, n: nat)
    requires n <= |records| && AllFetched(fetch, records)
    ensures AllFetched(fetch, records[..n]) && RowsOf(fetch, records[..n]) <= RowsOf(fetch, records)
    decreases |records|
  {
    if n == |records| {
      assert records[..n] == records;
    } else {
      var front := records[..|records| - 1];
      assert front[..n] == records[..n];
      RowsPrefix(fetch, front, n);
    }
  }

  // ---------------------------------------------------------------- the groups of a run

  predicate WellFormed(cik: string) {
    |cik| == 10 && forall i | 0 <= i < 10 :: '0' <= cik[i] <= '9'
  }

  /** `checksum` stands for CRC-32. */
  function Group(checksum: string -> nat, cik: string): (g: nat)
    ensures g < 16
  {
    checksum(cik) % GROUPS
  }

  predicate ByCik(a: Record, b: Record) {
    Text.Leq(a.cik, b.cik)
  }

  function InGroup(checksum: string -> nat, number: nat, records: seq<Record>): seq<Record> {
    if records == [] then []
    else if Group(checksum, records[0].cik) == number then [records[0]] + InGroup(checksum, number, records[1..])
    else InGroup(checksum, number, records[1..])
  }

  ghost function InGroupsBelow(checksum: string -> nat, number: nat, records: seq<Record>): seq<Record> {
    if records == [] then []
    else if Group(checksum, records[0].cik) < number then [records[0]] + InGroupsBelow(checksum, number, records[1..])
    else InGroupsBelow(checksum, number, records[1..])
  }

  function Selected(checksum: string -> nat, records: seq<Record>, number: nat): seq<Record> {
    Sort(ByCik, InGroup(checksum, number, records))
  }

  function SelectedBelow(checksum: string -> nat, records: seq<Record>, number: nat): seq<Record> {
    if number == 0 then []
    else SelectedBelow(checksum, records, number - 1) + Selected(checksum, records, number - 1)
  }

  function CompaniesBelow(fetch: Fetch, checksum: string -> nat, records: seq<Record>, number: nat): seq<Company>
    requires AllFetched(fetch, SelectedBelow(checksum, records, number))
  {
    if number == 0 then []
    else
      CompaniesBelow(fetch, checksum, records, number - 1) +
      CompaniesOf(fetch, Selected(checksum, records, number - 1), number - 1)
  }

  function FilesOf(fetch: Fetch, selected: seq<Record>, number: nat): seq<GroupFile>
    requires AllFetched(fetch, selected)
  {
    if selected == [] then []
    else [GroupFile(number, RowsOf(fetch, selected), Batches(RowsOf(fetch, selected)))]
  }

  /** One file for each group that has issuers, in order. */
  function FilesBelow(fetch: Fetch, checksum: string -> nat, records: seq<Record>, number: nat): seq<GroupFile>
    requires AllFetched(fetch, SelectedBelow(checksum, records, number))
  {
    if number == 0 then []
    else
      FilesBelow(fetch, checksum, records, number - 1) +
      FilesOf(fetch, Selected(checksum, records, number - 1), number - 1)
  }

  /** The checks of the disk guard for one group: before each batch, and after the file. */
  ghost function GuardsOf(fetch: Fetch, selected: seq<Record>): nat {
    if selected == [] || !AllFetched(fetch, selected) then 0 else |Batches(RowsOf(fetch, selected))| + 1
  }

  ghost function GuardsBelow(fetch: Fetch, checksum: string -> nat, records: seq<Record>, number: nat): nat {
    if number == 0 then 0
    else GuardsBelow(fetch, checksum, records, number - 1) + GuardsOf(fetch, Selected(checksum, records, number - 1))
  }

  lemma {:induction false} GuardsGrow(fetch: Fetch, checksum: string -> nat, records: seq<Record>, m: nat, n: nat)
    requires m <= n
    ensures GuardsBelow(fetch, checksum, records, m) <= GuardsBelow(fetch, checksum, records, n)
    decreases n - m
  {
    if m < n { GuardsGrow(fetch, checksum, records, m, n - 1); }
  }

  /** A build goes well: every CIK has ten digits, every record's object is fetched, and every check of the
      disk guard passes. */
  ghost predicate GoesWell(fetch: Fetch, checksum: string -> nat, room: nat -> bool, records: seq<Record>) {
    && (forall r | r in records :: |r.cik| == 10 && forall i | 0 <= i < 10 :: '0' <= r.cik[i] <= '9')
    && AllFetched(fetch, records)
    && forall n: nat | n < GuardsBelow(fetch, checksum, records, 16) :: room(n)
  }

  lemma {:induction false} OneMoreGroup(checksum: string -> nat, records: seq<Record>, number: nat)
    ensures multiset(InGroupsBelow(checksum, number + 1, records)) ==
            multiset(InGroupsBelow(checksum, number, records)) + multiset(InGroup(checksum, number, records))
  {
    if records != [] {
      OneMoreGroup(checksum, records[1..], number);
    }
  }

  lemma NextSelected(checksum: string -> nat, records: seq<Record>, number: nat)
    ensures multiset(SelectedBelow(checksum, records, number + 1)) ==
            multiset(SelectedBelow(checksum, records, number)) + multiset(InGroup(checksum, number, records))
  {
    SortKeeps(ByCik, InGroup(checksum, number, records));
  }

  lemma {:induction false} BelowKeeps(checksum: string -> nat, records: seq<Record>, number: nat)
    ensures multiset(SelectedBelow(checksum, records, number)) == multiset(InGroupsBelow(checksum, number, records))
    decreases number
  {
    if number == 0 {
      NoneBelowZero(checksum, records);
    } else {
      var m := number - 1;
      BelowKeeps(checksum, records, m);
      OneMoreGroup(checksum, records, m);
      NextSelected(checksum, records, m);
      assert number == m + 1;
    }
  }

  lemma {:induction false} NoneBelowZero(checksum: string -> nat, records: seq<Record>)
    ensures InGroupsBelow(checksum, 0, records) == []
  {
    if records != [] { NoneBelowZero(checksum, records[1..]); }
  }

  lemma {:induction false} AllBelowSixteen(checksum: string -> nat, records: seq<Record>)
    ensures InGroupsBelow(checksum, GROUPS, records) == records
  {
    if records != [] { AllBelowSixteen(checksum, records[1..]); }
  }

  /** Over the sixteen groups every record is selected exactly as often as it was given. */
  lemma EveryRecordOnce(checksum: string -> nat, records: seq<Record>)
    ensures multiset(SelectedBelow(checksum, records, 16)) == multiset(records)
  {
    BelowKeeps(checksum, records, GROUPS);
    AllBelowSixteen(checksum, records);
  }

  lemma {:induction false} InGroupOnly(checksum: string -> nat, number: nat, records: seq<Record>)
    ensures forall r | r in InGroup(checksum, number, records) :: r in records && Group(checksum, r.cik) == number
  {
    if records != [] { InGroupOnly(checksum, number, records[1..]); }
  }

  /** A group holds only its own issuers, in ascending order of CIK. */
  lemma SelectedOrdered(checksum: string -> nat, records: seq<Record>, number: nat)
    ensures forall i, j | 0 <= i < j < |Selected(checksum, records, number)| ::
              Text.Leq(Selected(checksum, records, number)[i].cik, Selected(checksum, records, number)[j].cik)
    ensures forall r | r in Selected(checksum, records, number) :: r in records && Group(checksum, r.cik) == number
  {
    var kept := InGroup(checksum, number, records);
    forall a, b | a in kept && b in kept ensures ByCik(a, b) || ByCik(b, a) { Text.LeqTotal(a.cik, b.cik); }
    forall a, b, c | a in kept && b in kept && c in kept && ByCik(a, b) && ByCik(b, c) ensures ByCik(a, c) {
      Text.LeqTransitive(a.cik, b.cik, c.cik);
    }
    SortSorts(ByCik, kept);
    SortKeeps(ByCik, kept);
    SameElements(Sort(ByCik, kept), kept);
    InGroupOnly(checksum, number, records);
  }

  /** A build that goes well fetches each group and passes its checks. */
  lemma GroupNeeded(fetch: Fetch, checksum: string -> nat, room: nat -> bool, records: seq<Record>, number: nat)
    requires number < GROUPS && GoesWell(fetch, checksum, room, records)
    ensures var selected, before := Selected(checksum, records, number), GuardsBelow(fetch, checksum, records, number);
      AllFetched(fetch, selected) && forall n: nat | before <= n < before + GuardsOf(fetch, selected) :: room(n)
  {
    SelectedOrdered(checksum, records, number);
    GuardsGrow(fetch, checksum, records, number + 1, GROUPS);
  }

  lemma {:induction false} CompaniesOfGroup(fetch: Fetch, records: seq<Record>, number: nat)
    requires AllFetched(fetch, records)
    ensures |CompaniesOf(fetch, records, number)| == |records|
    ensures forall i | 0 <= i < |records| ::
      CompaniesOf(fetch, records, number)[i] == Company(records[i].cik, |fetch(records[i]).value|, number)
  {
    if records != [] {
      CompaniesOfGroup(fetch, records[..|records| - 1], number);
    }
  }

  /** The report lists the selected records one for one, each with its row count and its own group. */
  lemma {:induction false} CompaniesReported(fetch: Fetch, checksum: string -> nat, records: seq<Record>, number: nat)
    requires AllFetched(fetch, SelectedBelow(checksum, records, number))
    ensures |CompaniesBelow(fetch, checksum, records, number)| == |SelectedBelow(checksum, records, number)|
    ensures forall i | 0 <= i < |SelectedBelow(checksum, records, number)| ::
      var r := SelectedBelow(checksum, records, number)[i];
      CompaniesBelow(fetch, checksum, records, number)[i] == Company(r.cik, |fetch(r).value|, Group(checksum, r.cik))
    decreases number
  {
    if number > 0 {
      var m := number - 1;
      CompaniesReported(fetch, checksum, records, m);
      CompaniesOfGroup(fetch, Selected(checksum, records, m), m);
      SelectedOrdered(checksum, records, m);
    }
  }

  /** The files, in ascending group order: one for each group with issuers, its batches a cut of the rows
      of that group's issuers. */
  lemma {:induction false} FilesWritten(fetch: Fetch, checksum: string -> nat, records: seq<Record>, number: nat)
    requires AllFetched(fetch, SelectedBelow(checksum, records, number))
    ensures FilesCut(FilesBelow(fetch, checksum, records, number), number)
    ensures forall n: nat | n < number ::
      Selected(checksum, records, n) != [] <==> Numbered(FilesBelow(fetch, checksum, records, number), n)
    decreases number
  {
    if number > 0 {
      var m := number - 1;
      FilesWritten(fetch, checksum, records, m);
      var before, rows := FilesBelow(fetch, checksum, records, m), RowsOf(fetch, Selected(checksum, records, m));
      BatchesCut(rows);
      FileAdded(before, GroupFile(m, rows, Batches(rows)));
      assert before + [] == before;
    }
  }

  /** In ascending group order, below `number`, each file's batches are a cut of the rows digested. */
  ghost predicate FilesCut(files: seq<GroupFile>, number: nat) {
    && (forall i, j | 0 <= i < j < |files| :: files[i].number < files[j].number)
    && (forall f | f in files :: f.number < number && Cut(f.batches) && Flat(f.batches) == f.digested)
  }

  ghost predicate Numbered(files: seq<GroupFile>, n: nat) {
    exists f | f in files :: f.number == n
  }

  lemma FileAdded(files: seq<GroupFile>, file: GroupFile)
    requires FilesCut(files, file.number) && Cut(file.batches) && Flat(file.batches) == file.digested
    ensures FilesCut(files, file.number + 1) && FilesCut(files + [file], file.number + 1)
    ensures !Numbered(files, file.number)
    ensures forall n: nat :: Numbered(files + [file], n) <==> n == file.number || Numbered(files, n)
  {
    forall n: nat ensures Numbered(files + [file], n) <==> n == file.number || Numbered(files, n) {
      assert file in files + [file];
      if Numbered(files, n) {
        var f :| f in files && f.number == n;
        assert f in files + [file];
      }
    }
  }

  // ---------------------------------------------------------------- the run

  /** How many fetches have been started once `done` of them are consumed. */
  function Ahead(selected: seq<Record>, done: nat): nat {
    if done + AHEAD < |selected| then done + AHEAD else |selected|
  }

  datatype Stop = FetchFailed(at: nat) | NoRoom

  class Basin {
    const fetch: Fetch
    const checksum: string -> nat
    /** Whether the n-th check of the disk guard passes: one before each batch, one after each file. */
    const room: nat -> bool

    var pending: seq<Record>
    var started: seq<Record>
    var companies: seq<Company>
    var guards: nat
    var files: seq<GroupFile>
    ghost var mostPending: nat

    constructor (fetch: Fetch, checksum: string -> nat, room: nat -> bool)
      ensures this.fetch == fetch && this.checksum == checksum && this.room == room
      ensures pending == [] && started == [] && companies == [] && files == [] && guards == 0 && mostPending == 0
    {
      this.fetch, this.checksum, this.room := fetch, checksum, room;
      pending, started, companies, files, guards, mostPending := [], [], [], [], 0, 0;
    }

    method Submit(record: Record)
      modifies this`pending, this`started, this`mostPending
      ensures pending == old(pending) + [record] && started == old(started) + [record]
      ensures mostPending == if old(mostPending) > |pending| then old(mostPending) else |pending|
    {
      pending, started := pending + [record], started + [record];
      mostPending := if mostPending > |pending| then mostPending else |pending|;
    }

    method Guard() returns (ok: bool)
      modifies this`guards
      ensures guards == old(guards) + 1 && ok == room(old(guards))
    {
      ok := room(guards);
      guards := guards + 1;
    }

    /** The checks from the `from`-th on, before the `to`-th, all passed. */
    ghost predicate Passed(from: nat, to: int) {
      from <= to && forall n: nat | from <= n < to :: room(n)
    }

    /** The rows of one company: digested, buffered, and flushed whenever the buffer is full. */
    method Take(rows: seq<Row>, digestedSoFar: seq<Row>, writtenSoFar: seq<seq<Row>>, bufferSoFar: seq<Row>)
      returns (ok: bool, digested: seq<Row>, written: seq<seq<Row>>, buffer: seq<Row>)
      requires Accounts(writtenSoFar, bufferSoFar, digestedSoFar) && |bufferSoFar| < BATCH
      modifies this`guards
      ensures Accounts(written, buffer, digested)
      ensures ok ==> |buffer| < BATCH && digested == digestedSoFar + rows
      ensures !ok ==> |buffer| == BATCH && digested <= digestedSoFar + rows
      ensures guards == old(guards) + |written| - |writtenSoFar| + (if ok then 0 else 1)
      ensures Passed(old(guards), if ok then guards else guards - 1) && (!ok ==> !room(guards - 1))
    {
      ok, digested, written, buffer := true, digestedSoFar, writtenSoFar, bufferSoFar;
      var i := 0;
      while i < |rows|
        invariant 0 <= i <= |rows| && ok
        invariant guards == old(guards) + |written| - |writtenSoFar| && Passed(old(guards), guards)
        invariant |writtenSoFar| <= |written|
        invariant digested == digestedSoFar + rows[..i]
        invariant Accounts(written, buffer, digested) && |buffer| < BATCH
      {
        digested := digested + [rows[i]];
        buffer := buffer + [rows[i]];
        i := i + 1;
        assert rows[..i] == rows[..i - 1] + [rows[i - 1]];
        assert Accounts(written, buffer, digested);
        if |buffer| == BATCH {
          ok := Guard();
          if !ok {
            return;
          }
          FlatAppends(written, buffer);
          written, buffer := written + [buffer], [];
        }
      }
      assert rows[..|rows|] == rows;
    }

    /** `done` issuers of the group are consumed, and the fetches after them that may run ahead are started. */
    ghost predicate Reached(selected: seq<Record>, number: nat, done: nat, digested: seq<Row>,
        startedBefore: seq<Record>, companiesBefore: seq<Company>)
      reads this
    {
      && done <= |selected| && AllFetched(fetch, selected[..done])
      && pending == selected[done..Ahead(selected, done)] && mostPending <= AHEAD
      && started == startedBefore + selected[..Ahead(selected, done)]
      && companies == companiesBefore + CompaniesOf(fetch, selected[..done], number)
      && digested == RowsOf(fetch, selected[..done])
    }

    /** What is left when the group stops early. A fetch that raises ends it where it stands: no row of that
        issuer or of a later one is used. Whatever stopped it, only full batches were written; they and
        what is still held are what was digested. */
    ghost predicate Stopped(stop: Option<Stop>, selected: seq<Record>, number: nat, digested: seq<Row>,
        written: seq<seq<Row>>, held: seq<Row>, startedBefore: seq<Record>, companiesBefore: seq<Company>,
        guardsBefore: nat)
      reads this
    {
      match stop
      case None => Passed(guardsBefore, guards) && guards == guardsBefore + |written|
      case Some(FetchFailed(at)) =>
        && Accounts(written, held, digested) && |held| < BATCH
        && at < |selected| && fetch(selected[at]).None?
        && Reached(selected, number, at, digested, startedBefore, companiesBefore)
      case Some(NoRoom) =>
        && Accounts(written, held, digested) && 0 < |held| <= BATCH
        && guards == guardsBefore + |written| + 1 && !room(guards - 1) && mostPending <= AHEAD
        && (AllFetched(fetch, selected) ==> digested <= RowsOf(fetch, selected))
    }

    /** One company: its fetch is consumed and its rows are taken. */
    method Step(selected: seq<Record>, number: nat, done: nat, digestedSoFar: seq<Row>,
        writtenSoFar: seq<seq<Row>>, heldSoFar: seq<Row>,
        ghost startedBefore: seq<Record>, ghost companiesBefore: seq<Company>, ghost guardsBefore: nat)
      returns (stop: Option<Stop>, digested: seq<Row>, written: seq<seq<Row>>, held: seq<Row>)
      requires Reached(selected, number, done, digestedSoFar, startedBefore, companiesBefore) && pending != []
      requires Passed(guardsBefore, guards) && guards == guardsBefore + |writtenSoFar|
      requires Accounts(writtenSoFar, heldSoFar, digestedSoFar) && |heldSoFar| < BATCH
      modifies this`pending, this`started, this`companies, this`guards, this`mostPending
      ensures stop.None? ==> Reached(selected, number, done + 1, digested, startedBefore, companiesBefore)
      ensures stop.None? ==> Accounts(written, held, digested) && |held| < BATCH
      ensures Stopped(stop, selected, number, digested, written, held, startedBefore, companiesBefore, guardsBefore)
    {
      var rows := fetch(pending[0]);
      if rows.None? {
        return Some(FetchFailed(done)), digestedSoFar, writtenSoFar, heldSoFar;
      }
      Consume(selected, number, done, rows.value, digestedSoFar, startedBefore, companiesBefore);
      if AllFetched(fetch, selected) { RowsPrefix(fetch, selected, done + 1); }
      var ok;
      ok, digested, written, held := Take(rows.value, digestedSoFar, writtenSoFar, heldSoFar);
      stop := if ok then None else Some(NoRoom);
    }

    /** One group file. Issuers are started and consumed once each, in order, never more than four
        started and not yet consumed; the batches are exactly the cut of the rows digested. */
    method WriteGroup(selected: seq<Record>, number: nat)
      returns (stop: Option<Stop>, digested: seq<Row>, written: seq<seq<Row>>, held: seq<Row>)
      requires pending == [] && mostPending <= AHEAD
      modifies this`pending, this`started, this`companies, this`guards, this`mostPending
      ensures mostPending <= AHEAD
      ensures stop.None? ==> Reached(selected, number, |selected|, digested, old(started), old(companies))
      ensures stop.None? ==> written == Batches(digested)
      ensures Stopped(stop, selected, number, digested, written, held, old(started), old(companies), old(guards))
    {
      stop, digested, written, held := None, [], [], [];
      var done := 0;
      Prime(selected, number);
      while stop.None? && pending != []
        invariant stop.None? ==> Reached(selected, number, done, digested, old(started), old(companies))
        invariant stop.None? ==> Accounts(written, held, digested) && |held| < BATCH
        invariant Stopped(stop, selected, number, digested, written, held, old(started), old(companies), old(guards))
        decreases |selected| - done, stop.None?
      {
        stop, digested, written, held := Step(selected, number, done, digested, written, held, old(started),
            old(companies), old(guards));
        done := if stop.None? then done + 1 else done;
      }
      if stop.Some? {
        return;
      }
      assert selected[..|selected|] == selected;
      var ok;
      ok, written, held := Finish(digested, written, held);
      stop := if ok then None else Some(NoRoom);
    }

    /** The last flush, of whatever is held. */
    method Finish(digested: seq<Row>, writtenSoFar: seq<seq<Row>>, heldSoFar: seq<Row>)
      returns (ok: bool, written: seq<seq<Row>>, held: seq<Row>)
      requires Accounts(writtenSoFar, heldSoFar, digested) && |heldSoFar| < BATCH
      modifies this`guards
      ensures ok ==> written == Batches(digested)
      ensures !ok ==> Accounts(written, held, digested) && 0 < |held| < BATCH && written == writtenSoFar
      ensures !ok ==> guards == old(guards) + 1 && !room(guards - 1)
      ensures ok ==> guards == old(guards) + |written| - |writtenSoFar| && Passed(old(guards), guards)
    {
      ok, written, held := true, writtenSoFar, heldSoFar;
      AccountsAtTheEnd(written, held, digested);
      if held != [] {
        ok := Guard();
        if ok {
          written, held := written + [held], [];
        }
      }
    }

    /** Starts the first four fetches. */
    method Prime(selected: seq<Record>, ghost number: nat)
      requires pending == [] && mostPending <= AHEAD
      modifies this`pending, this`started, this`mostPending
      ensures Reached(selected, number, 0, [], old(started), old(companies))
    {
      var next := 0;
      while next < AHEAD && next < |selected|
        invariant 0 <= next <= AHEAD && next <= |selected|
        invariant pending == selected[..next] && started == old(started) + selected[..next]
        invariant mostPending <= AHEAD
      {
        Submit(selected[next]);
        next := next + 1;
        assert selected[..next] == selected[..next - 1] + [selected[next - 1]];
      }
      assert selected[..0] == [] && next == Ahead(selected, 0) && selected[0..next] == selected[..next];
    }

    /** Takes the oldest fetch off the queue, starts the one after those running, and notes the company. */
    method Consume(selected: seq<Record>, number: nat, done: nat, rows: seq<Row>, ghost digested: seq<Row>,
        ghost startedBefore: seq<Record>, ghost companiesBefore: seq<Company>)
      requires Reached(selected, number, done, digested, startedBefore, companiesBefore)
      requires pending != [] && fetch(pending[0]) == Some(rows)
      modifies this`pending, this`started, this`mostPending, this`companies
      ensures Reached(selected, number, done + 1, digested + rows, startedBefore, companiesBefore)
    {
      var record, next := pending[0], done + |pending|;
      pending := pending[1..];
      if next < |selected| {
        Submit(selected[next]);
        assert selected[..next + 1] == selected[..next] + [selected[next]];
      }
      OneMoreRecord(fetch, selected, done, number, companiesBefore);
      companies := companies + [Company(record.cik, |rows|, number)];
    }

    /** One group of the build: its file, and the check after it; nothing for a group without issuers. */
    method GroupBuild(selected: seq<Record>, number: nat) returns (ok: bool)
      requires pending == [] && mostPending <= AHEAD
      modifies this
      ensures mostPending <= AHEAD
      ensures ok <==> AllFetched(fetch, selected) && Passed(old(guards), old(guards) + GuardsOf(fetch, selected))
      ensures ok ==> guards == old(guards) + GuardsOf(fetch, selected) && pending == []
      ensures ok ==> started == old(started) + selected
      ensures ok ==> companies == old(companies) + CompaniesOf(fetch, selected, number)
      ensures ok ==> files == old(files) + FilesOf(fetch, selected, number)
    {
      if selected == [] {
        return true;
      }
      var stop, digested, written, held := WriteGroup(selected, number);
      assert selected[..|selected|] == selected;
      if stop.Some? {
        if stop.value.NoRoom? && AllFetched(fetch, selected) {
          AnotherNeeded(written, held, digested, RowsOf(fetch, selected));
        }
        return false;
      }
      files := files + [GroupFile(number, digested, written)];
      ok := Guard();
    }

    /** The first `number` groups are built. */
    ghost predicate Built(records: seq<Record>, number: nat)
      reads this
    {
      && pending == [] && mostPending <= AHEAD
      && started == SelectedBelow(checksum, records, number) && AllFetched(fetch, started)
      && companies == CompaniesBelow(fetch, checksum, records, number)
      && files == FilesBelow(fetch, checksum, records, number)
      && guards == GuardsBelow(fetch, checksum, records, number) && Passed(0, guards)
    }

    method BuildNext(records: seq<Record>, number: nat) returns (ok: bool)
      requires Built(records, number) && number < GROUPS
      modifies this
      ensures mostPending <= AHEAD
      ensures ok ==> Built(records, number + 1)
      ensures !ok ==> !GoesWell(fetch, checksum, room, records)
    {
      ghost var before := guards;
      ok := GroupBuild(Selected(checksum, records, number), number);
      if ok {
        assert Passed(before, guards);
      } else if GoesWell(fetch, checksum, room, records) {
        GroupNeeded(fetch, checksum, room, records, number);
      }
    }

    method BuildFirst(records: seq<Record>, groups: nat) returns (ok: bool)
      requires Built(records, 0) && groups <= GROUPS
      modifies this
      ensures mostPending <= AHEAD
      ensures ok ==> Built(records, groups)
      ensures !ok ==> !GoesWell(fetch, checksum, room, records)
    {
      ok := true;
      for number := 0 to groups
        invariant ok && Built(records, number)
      {
        ok := BuildNext(records, number);
        if !ok {
          return;
        }
      }
    }

    /** The whole build. It ends well exactly when every CIK is well formed, every fetch succeeds and every
        check of the disk guard passes. Then every record given was consumed once, in the file of its group;
        the files are determined by the rows fetched alone, whatever the fetches' timing. */
    method Prepare(records: seq<Record>) returns (ok: bool)
      requires pending == [] && started == [] && companies == [] && files == [] && guards == 0 && mostPending == 0
      modifies this
      ensures mostPending <= 4
      ensures ok <==> GoesWell(fetch, checksum, room, records)
      ensures ok ==> started == SelectedBelow(checksum, records, 16) && AllFetched(fetch, started)
      ensures ok ==> multiset(started) == multiset(records)
      ensures ok ==> companies == CompaniesBelow(fetch, checksum, records, 16)
      ensures ok ==> files == FilesBelow(fetch, checksum, records, 16)
    {
      if exists r | r in records :: !WellFormed(r.cik) {
        return false;
      }
      ok := BuildFirst(records, GROUPS);
      EveryRecordOnce(checksum, records);
      SameElements(SelectedBelow(checksum, records, GROUPS), records);
    }
  }
}
