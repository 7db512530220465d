/** Parity of financial histories up to source identifiers. Every signed source term is resolved to
    its financial context and the terms of a context are added up; the cleaned row is shown to be a
    normal form: equal exactly when, context by context, the net coefficients agree. */
module HistorySignature {
  import opened Sorting
  import opened Text
  import opened CanonicalJson
  import opened Wrappers

  // ---------------------------------------------------------------- contexts

  /** What identifies a source observation financially; its identifiers are left out. */
  function FinancialContext(row: Json): Json {
    var copied := map key | key in {"concept", "unit", "currency", "value_decimal", "period_start", "period_end",
                                    "available_at", "accession", "form"} :: Field(row, key);
    Obj(copied["filed" := Field(Field(row, "source_record"), "filed")])
  }

  lemma ContextFields(row: Json)
    ensures var names := {"concept", "unit", "currency", "value_decimal", "period_start", "period_end", "available_at",
                          "accession", "form"};
      var fields := FinancialContext(row).fields;
      && fields.Keys == names + {"filed"} && (forall k | k in names :: fields[k] == Field(row, k))
      && fields["filed"] == Field(Field(row, "source_record"), "filed")
  {
  }

  /** The contexts of two observations are equal exactly when the observations agree in each of these fields. */
  lemma FinancialContextMeans(a: Json, b: Json)
    ensures FinancialContext(a) == FinancialContext(b) <==>
      && (forall k | k in {"concept", "unit", "currency", "value_decimal", "period_start", "period_end",
                           "available_at", "accession", "form"} :: Field(a, k) == Field(b, k))
      && Field(Field(a, "source_record"), "filed") == Field(Field(b, "source_record"), "filed")
  {
    var names := {"concept", "unit", "currency", "value_decimal", "period_start", "period_end", "available_at",
                  "accession", "form"};
    var x, y := FinancialContext(a).fields, FinancialContext(b).fields;
    ContextFields(a);
    ContextFields(b);
    if x == y {
      forall k | k in names ensures Field(a, k) == Field(b, k) { assert x[k] == y[k]; }
      assert x["filed"] == y["filed"];
    } else if forall k | k in names :: Field(a, k) == Field(b, k) {
      assert x["filed"] != y["filed"] by {
        if x["filed"] == y["filed"] { assert forall k | k in x.Keys :: x[k] == y[k]; }
      }
    }
  }

  const OBSERVATION_ID := "source_observation_id"

  /** Every observation names itself; building the table raises on one that does not. */
  predicate Identified(observations: seq<Json>) {
    forall i | 0 <= i < |observations| :: Field(observations[i], "source_observation_id").Str?
  }

  function Sid(row: Json): string
    requires Field(row, OBSERVATION_ID).Str?
  {
    Field(row, OBSERVATION_ID).s
  }

  /** Identifier to context, for all observations of a snapshot; the last row of an identifier wins. */
  type Contexts = map<string, Json>

  function ContextsOf(observations: seq<Json>): Contexts
    requires Identified(observations)
  {
    if observations == [] then map[]
    else
      var last := observations[|observations| - 1];
      ContextsOf(observations[..|observations| - 1])[Sid(last) := FinancialContext(last)]
  }

  /** Row `i` is the one the table keeps for `sid`. */
  ghost predicate IsLast(observations: seq<Json>, sid: string, i: nat)
    requires Identified(observations)
  {
    && i < |observations| && Sid(observations[i]) == sid
    && forall j | i < j < |observations| :: Sid(observations[j]) != sid
  }

  /** An identifier that occurs is in the table with the context of its last row. */
  lemma {:induction false} LastWins(observations: seq<Json>, sid: string, i: nat)
    requires Identified(observations) && IsLast(observations, sid, i)
    ensures sid in ContextsOf(observations) && ContextsOf(observations)[sid] == FinancialContext(observations[i])
    decreases |observations|
  {
    var n := |observations| - 1;
    if i < n {
      var front := observations[..n];
      assert forall j | 0 <= j < n :: front[j] == observations[j];
      LastWins(front, sid, i);
    }
  }

  /** And nothing else is in the table. */
  lemma {:induction false} LastExists(observations: seq<Json>, sid: string) returns (i: nat)
    requires Identified(observations) && sid in ContextsOf(observations)
    ensures IsLast(observations, sid, i)
    decreases |observations|
  {
    var n := |observations| - 1;
    if Sid(observations[n]) == sid {
      i := n;
    } else {
      var front := observations[..n];
      i := LastExists(front, sid);
      assert forall j | 0 <= j < n :: front[j] == observations[j];
    }
  }

  ghost predicate WellFormedContexts(r: Contexts) {
    forall sid | sid in r :: WellFormed(r[sid])
  }

  lemma {:induction false} ContextsWellFormed(observations: seq<Json>)
    requires Identified(observations) && forall row | row in observations :: WellFormed(row)
    ensures WellFormedContexts(ContextsOf(observations))
  {
    if observations != [] {
      ContextsWellFormed(observations[..|observations| - 1]);
      ContextWellFormed(observations[|observations| - 1]);
    }
  }

  lemma ContextWellFormed(row: Json)
    requires WellFormed(row)
    ensures WellFormed(FinancialContext(row))
  {
    FieldWellFormed(row, "source_record");
    FieldWellFormed(Field(row, "source_record"), "filed");
    var context := FinancialContext(row);
    forall k | k in context.fields ensures WellFormed(context.fields[k]) {
      if k != "filed" { FieldWellFormed(row, k); }
    }
  }

  lemma FieldWellFormed(row: Json, key: string)
    requires WellFormed(row)
    ensures WellFormed(Field(row, key))
  {
  }

  // ---------------------------------------------------------------- signed terms

  datatype Term = Term(sid: string, coefficient: int)

  /** A term resolved to its context. */
  datatype Signed = Signed(context: Json, coefficient: int)

  predicate Resolvable(r: Contexts, terms: seq<Term>) {
    forall i | 0 <= i < |terms| :: terms[i].sid in r
  }

  function Resolve(r: Contexts, terms: seq<Term>): (ts: seq<Signed>)
    requires Resolvable(r, terms)
    ensures |ts| == |terms|
    ensures forall i | 0 <= i < |ts| :: ts[i] == Signed(r[terms[i].sid], terms[i].coefficient)
  {
    seq(|terms|, i requires 0 <= i < |terms| => Signed(r[terms[i].sid], terms[i].coefficient))
  }

  /** The net coefficient a list of terms gives to a context. */
  function Net(ts: seq<Signed>, context: Json): int {
    if ts == [] then 0
    else
      var last := ts[|ts| - 1];
      Net(ts[..|ts| - 1], context) + if last.context == context then last.coefficient else 0
  }

  ghost predicate SameNet(ts: seq<Signed>, us: seq<Signed>) {
    forall context :: Net(ts, context) == Net(us, context)
  }

  function Entry(context: Json, coefficient: int): Json {
    Obj(map["context" := context, "coefficient" := Int(coefficient)])
  }

  lemma EntryInjective(c: Json, n: int, d: Json, m: int)
    ensures Entry(c, n) == Entry(d, m) <==> c == d && n == m
  {
    var x, y := Entry(c, n), Entry(d, m);
    assert x.fields["context"] == c && y.fields["context"] == d;
    assert x.fields["coefficient"] == Int(n) && y.fields["coefficient"] == Int(m);
  }

  predicate EncodedLeq(a: Json, b: Json) {
    Leq(Encode(a), Encode(b))
  }

  lemma EncodedTotal(xs: seq<Json>)
    requires forall x | x in xs :: WellFormed(x)
    ensures TotalOn(EncodedLeq, xs)
  {
    forall a, b | a in xs && b in xs && Encode(a) == Encode(b) ensures a == b { EncodeInjective(a, b); }
    TotalOnKeys(Encode, EncodedLeq, xs);
  }

  /** The contexts that occur, in the order of their first term. */
  function Occurring(ts: seq<Signed>): seq<Json> {
    if ts == [] then []
    else
      var before, context := Occurring(ts[..|ts| - 1]), ts[|ts| - 1].context;
      if context in before then before else before + [context]
  }

  /** One entry for each listed context whose net coefficient is not zero. */
  function Entries(ts: seq<Signed>, contexts: seq<Json>): seq<Json> {
    if contexts == [] then []
    else
      var n := Net(ts, contexts[0]);
      (if n == 0 then [] else [Entry(contexts[0], n)]) + Entries(ts, contexts[1..])
  }

  function SourceTerms(ts: seq<Signed>): seq<Json> {
    Sort(EncodedLeq, Entries(ts, Occurring(ts)))
  }

  ghost predicate WellFormedTerms(ts: seq<Signed>) {
    forall i | 0 <= i < |ts| :: WellFormed(ts[i].context)
  }

  lemma {:induction false} OccurringDistinct(ts: seq<Signed>)
    ensures Distinct(Occurring(ts))
    ensures WellFormedTerms(ts) ==> forall c | c in Occurring(ts) :: WellFormed(c)
  {
    if ts != [] { OccurringDistinct(ts[..|ts| - 1]); }
  }

  lemma {:induction false} OccurringCovers(ts: seq<Signed>, c: Json)
    ensures c !in Occurring(ts) ==> Net(ts, c) == 0
  {
    if ts != [] {
      OccurringCovers(ts[..|ts| - 1], c);
      var before, context := Occurring(ts[..|ts| - 1]), ts[|ts| - 1].context;
      assert context in Occurring(ts);
    }
  }

  ghost predicate IsEntryOf(ts: seq<Signed>, cs: seq<Json>, e: Json) {
    exists c :: c in cs && Net(ts, c) != 0 && e == Entry(c, Net(ts, c))
  }

  /** The entries are the nonzero nets of the listed contexts, each once. */
  lemma {:induction false} EntriesMean(ts: seq<Signed>, cs: seq<Json>)
    requires Distinct(cs)
    ensures forall e :: e in Entries(ts, cs) <==> IsEntryOf(ts, cs, e)
    ensures Distinct(Entries(ts, cs))
  {
    if cs != [] {
      var rest, n0 := Entries(ts, cs[1..]), Net(ts, cs[0]);
      EntriesMean(ts, cs[1..]);
      assert cs == [cs[0]] + cs[1..] && cs[0] !in cs[1..];
      forall e ensures e in Entries(ts, cs) <==> IsEntryOf(ts, cs, e) {
        assert e in Entries(ts, cs) <==> (n0 != 0 && e == Entry(cs[0], n0)) || IsEntryOf(ts, cs[1..], e);
      }
      assert !IsEntryOf(ts, cs[1..], Entry(cs[0], n0)) by {
        forall c | c in cs[1..] ensures Entry(cs[0], n0) != Entry(c, Net(ts, c)) {
          EntryInjective(cs[0], n0, c, Net(ts, c));
        }
      }
      assert Entry(cs[0], n0) !in rest;
    }
  }

  /** A context has an entry exactly when its net is not zero, and the entry says which. */
  lemma EntryTells(ts: seq<Signed>, c: Json, n: int)
    ensures Entry(c, n) in Entries(ts, Occurring(ts)) <==> n == Net(ts, c) && n != 0
  {
    OccurringDistinct(ts);
    EntriesMean(ts, Occurring(ts));
    OccurringCovers(ts, c);
    if Entry(c, n) in Entries(ts, Occurring(ts)) {
      var d :| d in Occurring(ts) && Net(ts, d) != 0 && Entry(c, n) == Entry(d, Net(ts, d));
      EntryInjective(c, n, d, Net(ts, d));
    }
  }

  lemma {:induction false} EntriesWellFormed(ts: seq<Signed>, cs: seq<Json>)
    requires forall c | c in cs :: WellFormed(c)
    ensures forall e | e in Entries(ts, cs) :: WellFormed(e)
  {
    if cs != [] {
      EntriesWellFormed(ts, cs[1..]);
      EntryWellFormed(cs[0], Net(ts, cs[0]));
    }
  }

  lemma EntryWellFormed(c: Json, n: int)
    requires WellFormed(c)
    ensures WellFormed(Entry(c, n))
  {
  }

  lemma SameEntriesSameNet(ts: seq<Signed>, us: seq<Signed>, c: Json)
    requires forall e :: e in Entries(ts, Occurring(ts)) <==> e in Entries(us, Occurring(us))
    ensures Net(ts, c) == Net(us, c)
  {
    EntryTells(ts, c, Net(ts, c));
    EntryTells(us, c, Net(ts, c));
    EntryTells(ts, c, Net(us, c));
    EntryTells(us, c, Net(us, c));
  }

  lemma SameNetWithin(ts: seq<Signed>, us: seq<Signed>, e: Json)
    requires SameNet(ts, us) && e in Entries(ts, Occurring(ts))
    ensures e in Entries(us, Occurring(us))
  {
    OccurringDistinct(ts);
    EntriesMean(ts, Occurring(ts));
    var c :| c in Occurring(ts) && Net(ts, c) != 0 && e == Entry(c, Net(ts, c));
    EntryTells(us, c, Net(us, c));
  }

  /** Soundness and completeness: two term lists get the same `source_terms` exactly when the net
      coefficient of every financial context agrees, whatever identifiers, order or splitting they use. */
  lemma SourceTermsNormalForm(ts: seq<Signed>, us: seq<Signed>)
    requires WellFormedTerms(ts) && WellFormedTerms(us)
    ensures SourceTerms(ts) == SourceTerms(us) <==> SameNet(ts, us)
  {
    var es, fs := Entries(ts, Occurring(ts)), Entries(us, Occurring(us));
    EntriesTotal(ts);
    EntriesTotal(us);
    SortNormalForm(EncodedLeq, es, fs);
    DistinctPermutation(es, fs);
    if forall e :: e in es <==> e in fs {
      forall c ensures Net(ts, c) == Net(us, c) { SameEntriesSameNet(ts, us, c); }
    }
    if SameNet(ts, us) {
      forall e ensures e in es <==> e in fs {
        if e in es { SameNetWithin(ts, us, e); }
        if e in fs { SameNetWithin(us, ts, e); }
      }
    }
  }

  lemma EntriesTotal(ts: seq<Signed>)
    requires WellFormedTerms(ts)
    ensures TotalOn(EncodedLeq, Entries(ts, Occurring(ts))) && Distinct(Entries(ts, Occurring(ts)))
    ensures forall e | e in Entries(ts, Occurring(ts)) :: WellFormed(e)
  {
    OccurringDistinct(ts);
    EntriesMean(ts, Occurring(ts));
    EntriesWellFormed(ts, Occurring(ts));
    EncodedTotal(Entries(ts, Occurring(ts)));
  }

  // ---------------------------------------------------------------- what leaves the nets unchanged

  function Part(t: Signed, c: Json): int {
    if t.context == c then t.coefficient else 0
  }

  lemma {:induction false} NetAppend(a: seq<Signed>, b: seq<Signed>, c: Json)
    ensures Net(a + b, c) == Net(a, c) + Net(b, c)
  {
    if b == [] {
      assert a + b == a;
    } else {
      NetAppend(a, b[..|b| - 1], c);
      assert (a + b)[..|a + b| - 1] == a + b[..|b| - 1];
    }
  }

  lemma NetRemove(a: seq<Signed>, i: nat, c: Json)
    requires i < |a|
    ensures Net(a, c) == Net(a[..i] + a[i + 1..], c) + Part(a[i], c)
  {
    assert a == a[..i + 1] + a[i + 1..] && a[..i + 1][..i] == a[..i];
    NetAppend(a[..i + 1], a[i + 1..], c);
    NetAppend(a[..i], a[i + 1..], c);
  }

  /** The order of the terms does not matter. */
  lemma {:induction false} PermutationKeepsNet(a: seq<Signed>, b: seq<Signed>, c: Json)
    requires multiset(a) == multiset(b)
    ensures Net(a, c) == Net(b, c)
    decreases |a|
  {
    SameElements(a, b);
    if a != [] {
      assert a[0] in b;
      var i :| 0 <= i < |b| && b[i] == a[0];
      RemoveAt(a, 0);
      RemoveAt(b, i);
      NetRemove(a, 0, c);
      NetRemove(b, i, c);
      PermutationKeepsNet(a[..0] + a[1..], b[..i] + b[i + 1..], c);
    }
  }

  function Total(ts: seq<Signed>): int {
    if ts == [] then 0 else Total(ts[..|ts| - 1]) + ts[|ts| - 1].coefficient
  }

  lemma {:induction false} NetOfOne(ts: seq<Signed>, context: Json, c: Json)
    requires forall i | 0 <= i < |ts| :: ts[i].context == context
    ensures Net(ts, c) == if c == context then Total(ts) else 0
  {
    if ts != [] { NetOfOne(ts[..|ts| - 1], context, c); }
  }

  /** One term may be split into several of the same context, or several that cancel may be added. */
  lemma SplittingKeepsNet(a: seq<Signed>, whole: seq<Signed>, parts: seq<Signed>, b: seq<Signed>, context: Json,
      c: Json)
    requires forall i | 0 <= i < |whole| :: whole[i].context == context
    requires forall i | 0 <= i < |parts| :: parts[i].context == context
    requires Total(parts) == Total(whole)
    ensures Net(a + parts + b, c) == Net(a + whole + b, c)
  {
    NetAppend(a, parts, c);
    NetAppend(a + parts, b, c);
    NetAppend(a, whole, c);
    NetAppend(a + whole, b, c);
    NetOfOne(parts, context, c);
    NetOfOne(whole, context, c);
  }

  function Renamed(terms: seq<Term>, rename: string -> string): (r: seq<Term>)
    ensures |r| == |terms|
    ensures forall i | 0 <= i < |r| :: r[i] == Term(rename(terms[i].sid), terms[i].coefficient)
  {
    seq(|terms|, i requires 0 <= i < |terms| => Term(rename(terms[i].sid), terms[i].coefficient))
  }

  /** Each identifier's new name resolves to the context the old one resolved to. */
  ghost predicate Tracks(r: Contexts, s: Contexts, rename: string -> string) {
    forall sid | sid in r :: rename(sid) in s && s[rename(sid)] == r[sid]
  }

  /** Terms renamed that way keep their normal form. */
  lemma RenamingKeepsTerms(r: Contexts, s: Contexts, terms: seq<Term>, rename: string -> string)
    requires Resolvable(r, terms) && Tracks(r, s, rename)
    ensures Resolvable(s, Renamed(terms, rename))
    ensures Resolve(s, Renamed(terms, rename)) == Resolve(r, terms)
    ensures SourceTerms(Resolve(s, Renamed(terms, rename))) == SourceTerms(Resolve(r, terms))
  {
    assert Resolve(s, Renamed(terms, rename)) == Resolve(r, terms);
  }

  // ---------------------------------------------------------------- equal signatures, equal sums

  /** The evaluated sum of the terms, for any value a context may stand for. */
  function Sum(ts: seq<Signed>, value: Json -> real): real {
    if ts == [] then 0.0
    else
      var last := ts[|ts| - 1];
      Sum(ts[..|ts| - 1], value) + Worth(last.coefficient, value(last.context))
  }

  /** `n` times `v`. */
  function Worth(n: int, v: real): (r: real)
    ensures r == n as real * v
    decreases if n < 0 then -n else n
  {
    if n == 0 then 0.0 else if n > 0 then Worth(n - 1, v) + v else Worth(n + 1, v) - v
  }

  function Dropping(ts: seq<Signed>, c: Json): (rest: seq<Signed>)
    ensures |rest| <= |ts|
  {
    if ts == [] then []
    else
      var last := ts[|ts| - 1];
      Dropping(ts[..|ts| - 1], c) + if last.context == c then [] else [last]
  }

  lemma DroppingUnfolds(ts: seq<Signed>, c: Json)
    requires ts != []
    ensures var rest, last := Dropping(ts[..|ts| - 1], c), ts[|ts| - 1];
      if last.context == c then Dropping(ts, c) == rest
      else Dropping(ts, c) != [] && Dropping(ts, c)[|Dropping(ts, c)| - 1] == last
           && Dropping(ts, c)[..|Dropping(ts, c)| - 1] == rest
  {
  }

  lemma {:induction false} DroppingNet(ts: seq<Signed>, c: Json, d: Json)
    ensures Net(Dropping(ts, c), d) == if d == c then 0 else Net(ts, d)
  {
    if ts != [] {
      DroppingNet(ts[..|ts| - 1], c, d);
      DroppingUnfolds(ts, c);
    }
  }

  lemma {:induction false} DroppingSum(ts: seq<Signed>, c: Json, value: Json -> real)
    ensures Sum(ts, value) == Worth(Net(ts, c), value(c)) + Sum(Dropping(ts, c), value)
  {
    if ts != [] {
      var front, last := ts[..|ts| - 1], ts[|ts| - 1];
      DroppingSum(front, c, value);
      DroppingUnfolds(ts, c);
      if last.context == c {
        WorthAdds(Net(front, c), last.coefficient, value(c));
      }
    } else {
      WorthAdds(0, 0, value(c));
    }
  }

  lemma WorthAdds(n: int, k: int, v: real)
    ensures Worth(n + k, v) == Worth(n, v) + Worth(k, v)
    decreases if n < 0 then -n else n
  {
    if n > 0 { WorthAdds(n - 1, k, v); }
    if n < 0 { WorthAdds(n + 1, k, v); }
  }

  lemma {:induction false} DroppingShrinks(ts: seq<Signed>, c: Json, i: nat)
    requires i < |ts| && ts[i].context == c
    ensures |Dropping(ts, c)| < |ts|
  {
    if i < |ts| - 1 { DroppingShrinks(ts[..|ts| - 1], c, i); }
  }

  /** Term lists with the same nets evaluate to the same sum, however a context is valued. */
  lemma {:induction false} SameNetSameSum(ts: seq<Signed>, us: seq<Signed>, value: Json -> real)
    requires SameNet(ts, us)
    ensures Sum(ts, value) == Sum(us, value)
    decreases |ts| + |us|
  {
    if ts != [] || us != [] {
      var c := if ts != [] then ts[0].context else us[0].context;
      if ts != [] { DroppingShrinks(ts, c, 0); } else { DroppingShrinks(us, c, 0); }
      DroppingKeepsSameNet(ts, us, c);
      SameNetSameSum(Dropping(ts, c), Dropping(us, c), value);
      DroppingSum(ts, c, value);
      DroppingSum(us, c, value);
    }
  }

  lemma DroppingKeepsSameNet(ts: seq<Signed>, us: seq<Signed>, c: Json)
    requires SameNet(ts, us)
    ensures SameNet(Dropping(ts, c), Dropping(us, c)) && Net(ts, c) == Net(us, c)
  {
    forall d ensures Net(Dropping(ts, c), d) == Net(Dropping(us, c), d) {
      DroppingNet(ts, c, d);
      DroppingNet(us, c, d);
    }
  }

  /** Equal `source_terms` force equal evaluated sums. */
  lemma EqualSourceTermsEqualSums(ts: seq<Signed>, us: seq<Signed>, value: Json -> real)
    requires WellFormedTerms(ts) && WellFormedTerms(us) && SourceTerms(ts) == SourceTerms(us)
    ensures Sum(ts, value) == Sum(us, value)
  {
    SourceTermsNormalForm(ts, us);
    SameNetSameSum(ts, us, value);
  }

  // ---------------------------------------------------------------- the merging loop

  /** The loop that merges terms in a dictionary keyed by the encoded context: it fails exactly when
      some term has no source, and otherwise returns the normal form. */
  method MergeTerms(r: Contexts, terms: seq<Term>) returns (out: Option<seq<Json>>)
    requires WellFormedContexts(r)
    ensures out.Some? <==> Resolvable(r, terms)
    ensures out.Some? ==> out.value == SourceTerms(Resolve(r, terms))
  {
    var merged: map<string, Signed>, order: seq<string> := map[], [];
    var i := 0;
    ghost var done: seq<Signed> := [];
    while i < |terms|
      invariant |done| == i <= |terms|
      invariant forall k | 0 <= k < i :: terms[k].sid in r && done[k] == Signed(r[terms[k].sid], terms[k].coefficient)
      invariant Keyed(done, order) && Tallied(done, order, merged)
    {
      var sid := terms[i].sid;
      if sid !in r {
        return None;
      }
      order, merged := AddTerm(r[sid], terms[i].coefficient, order, merged, done);
      done := done + [Signed(r[sid], terms[i].coefficient)];
      i := i + 1;
    }
    assert done == Resolve(r, terms);
    var entries := Collect(done, order, merged);
    out := Some(Sort(EncodedLeq, entries));
  }

  /** `setdefault` with coefficient zero, then `+=`. */
  method AddTerm(context: Json, coefficient: int, order: seq<string>, merged: map<string, Signed>,
                 ghost done: seq<Signed>)
      returns (order': seq<string>, merged': map<string, Signed>)
    requires WellFormed(context) && Keyed(done, order) && Tallied(done, order, merged)
    ensures Keyed(done + [Signed(context, coefficient)], order')
    ensures Tallied(done + [Signed(context, coefficient)], order', merged')
  {
    var key := Encode(context);
    KeyedGrows(done, order, Signed(context, coefficient));
    TalliedGrows(done, order, merged, Signed(context, coefficient));
    order', merged' := order, merged;
    if key !in merged {
      merged' := merged'[key := Signed(context, 0)];
      order' := order' + [key];
    }
    merged' := merged'[key := Signed(merged'[key].context, merged'[key].coefficient + coefficient)];
  }

  /** The dictionary's keys are the encoded contexts in the order of their first term. */
  ghost predicate Keyed(done: seq<Signed>, order: seq<string>) {
    && WellFormedTerms(done) && |order| == |Occurring(done)|
    && forall k | 0 <= k < |order| :: order[k] == Encode(Occurring(done)[k])
  }

  /** Each key holds its context and the context's net so far. */
  ghost predicate Tallied(done: seq<Signed>, order: seq<string>, merged: map<string, Signed>) {
    && |order| == |Occurring(done)|
    && (forall key :: key in merged <==> key in order)
    && forall k | 0 <= k < |order| :: merged[order[k]] == Signed(Occurring(done)[k], Net(done, Occurring(done)[k]))
  }

  lemma KeyedMembership(done: seq<Signed>, order: seq<string>, context: Json)
    requires Keyed(done, order) && WellFormed(context)
    ensures Encode(context) in order <==> context in Occurring(done)
  {
    OccurringDistinct(done);
    var cs := Occurring(done);
    if Encode(context) in order {
      var k :| 0 <= k < |order| && order[k] == Encode(context);
      EncodeInjective(cs[k], context);
    }
    if context in cs {
      var k :| 0 <= k < |cs| && cs[k] == context;
      assert order[k] == Encode(context);
    }
  }

  lemma KeyedGrows(done: seq<Signed>, order: seq<string>, t: Signed)
    requires Keyed(done, order) && WellFormed(t.context)
    ensures Keyed(done + [t], if Encode(t.context) in order then order else order + [Encode(t.context)])
  {
    KeyedMembership(done, order, t.context);
    assert (done + [t])[..|done|] == done;
  }

  lemma OccurringAppend(done: seq<Signed>, t: Signed)
    ensures Occurring(done + [t]) ==
            if t.context in Occurring(done) then Occurring(done) else Occurring(done) + [t.context]
    ensures forall c :: Net(done + [t], c) == Net(done, c) + Part(t, c)
  {
    assert (done + [t])[..|done|] == done;
  }

  lemma TalliedGrows(done: seq<Signed>, order: seq<string>, merged: map<string, Signed>, t: Signed)
    requires Keyed(done, order) && Tallied(done, order, merged) && WellFormed(t.context)
    ensures var key := Encode(t.context);
      var order' := if key in merged then order else order + [key];
      var seen := if key in merged then merged else merged[key := Signed(t.context, 0)];
      Tallied(done + [t], order', seen[key := Signed(seen[key].context, seen[key].coefficient + t.coefficient)])
  {
    var key := Encode(t.context);
    var cs := Occurring(done);
    KeyedMembership(done, order, t.context);
    OccurringAppend(done, t);
    OccurringCovers(done, t.context);
    OccurringDistinct(done);
    forall k | 0 <= k < |order| ensures order[k] == key <==> cs[k] == t.context { EncodeInjective(cs[k], t.context); }
  }

  /** The nonzero values of the dictionary, in insertion order. */
  method Collect(ghost done: seq<Signed>, order: seq<string>, merged: map<string, Signed>) returns (entries: seq<Json>)
    requires Tallied(done, order, merged)
    ensures entries == Entries(done, Occurring(done))
  {
    entries := [];
    var j := |order|;
    assert Occurring(done)[j..] == [];
    while j > 0
      invariant 0 <= j <= |order|
      invariant entries == Entries(done, Occurring(done)[j..])
    {
      j := j - 1;
      var v := merged[order[j]];
      if v.coefficient != 0 {
        entries := [Entry(v.context, v.coefficient)] + entries;
      }
      ghost var cs := Occurring(done)[j..];
      assert cs[0] == v.context && cs[1..] == Occurring(done)[j + 1..];
    }
    assert Occurring(done)[0..] == Occurring(done);
  }

  // ---------------------------------------------------------------- cleaning whole rows

  const SOURCE_TERMS := "source_terms"

  predicate Dropped(key: string) {
    key in {"member_sha256", "source_observation_id", "source_observation_ids", "source_record_ids", SOURCE_TERMS}
  }

  function ParseTerms(items: seq<Json>): Option<seq<Term>> {
    if items == [] then Some([])
    else
      match (Field(items[0], OBSERVATION_ID), Field(items[0], "coefficient"), ParseTerms(items[1..]))
      case (Str(sid), Int(n), Some(rest)) => Some([Term(sid, n)] + rest)
      case _ => None
  }

  /** The terms of a row, when it has a `source_terms` list of signed identifiers that all resolve. */
  function TermsOf(r: Contexts, fields: map<string, Json>): Option<seq<Signed>> {
    if SOURCE_TERMS in fields && fields[SOURCE_TERMS].Arr? then
      match ParseTerms(fields[SOURCE_TERMS].items)
      case Some(terms) => if Resolvable(r, terms) then Some(Resolve(r, terms)) else None
      case None => None
    else None
  }

  /** No term list in the value is malformed or refers to a missing source. */
  predicate Cleanable(r: Contexts, j: Json)
    decreases j
  {
    match j
    case Obj(fields) =>
      && (forall k | k in fields && !Dropped(k) :: Cleanable(r, fields[k]))
      && (SOURCE_TERMS in fields ==> TermsOf(r, fields).Some?)
    case Arr(items) => forall x | x in items :: Cleanable(r, x)
    case _ => true
  }

  /** Drops the citation fields everywhere and replaces every term list by its normal form. */
  function Clean(r: Contexts, j: Json): Json
    requires Cleanable(r, j)
    decreases j
  {
    match j
    case Obj(fields) =>
      var kept := map k | k in fields && !Dropped(k) :: Clean(r, fields[k]);
      Obj(if SOURCE_TERMS in fields then kept[SOURCE_TERMS := Arr(SourceTerms(TermsOf(r, fields).value))] else kept)
    case Arr(items) => Arr(seq(|items|, i requires 0 <= i < |items| => Clean(r, items[i])))
    case _ => j
  }

  /** The same value up to citation fields, with term lists compared context by context. */
  ghost predicate Equivalent(r: Contexts, a: Json, s: Contexts, b: Json)
    requires Cleanable(r, a) && Cleanable(s, b)
    decreases a
  {
    match (a, b)
    case (Obj(f), Obj(g)) =>
      && (forall k | !Dropped(k) :: k in f <==> k in g)
      && (forall k | k in f && k in g && !Dropped(k) :: Equivalent(r, f[k], s, g[k]))
      && (SOURCE_TERMS in f <==> SOURCE_TERMS in g)
      && (SOURCE_TERMS in f && SOURCE_TERMS in g ==> SameNet(TermsOf(r, f).value, TermsOf(s, g).value))
    case (Arr(xs), Arr(ys)) =>
      |xs| == |ys| && forall i | 0 <= i < |xs| && i < |ys| :: Equivalent(r, xs[i], s, ys[i])
    case _ => !a.Obj? && !a.Arr? && a == b
  }

  lemma TermsWellFormed(r: Contexts, fields: map<string, Json>)
    requires WellFormedContexts(r) && TermsOf(r, fields).Some?
    ensures WellFormedTerms(TermsOf(r, fields).value)
  {
  }

  /** Cleaning is a normal form of the whole nested value. */
  lemma {:induction false} CleanNormalForm(r: Contexts, a: Json, s: Contexts, b: Json)
    requires WellFormedContexts(r) && WellFormedContexts(s)
    requires Cleanable(r, a) && Cleanable(s, b)
    ensures Clean(r, a) == Clean(s, b) <==> Equivalent(r, a, s, b)
    decreases a
  {
    match (a, b)
    case (Obj(f), Obj(g)) =>
      forall k | k in f && k in g && !Dropped(k)
        ensures Clean(r, f[k]) == Clean(s, g[k]) <==> Equivalent(r, f[k], s, g[k])
      {
        CleanNormalForm(r, f[k], s, g[k]);
      }
      if SOURCE_TERMS in f && SOURCE_TERMS in g {
        TermsWellFormed(r, f);
        TermsWellFormed(s, g);
        SourceTermsNormalForm(TermsOf(r, f).value, TermsOf(s, g).value);
      }
      CleanObjects(r, f, s, g);
    case (Arr(xs), Arr(ys)) =>
      forall i | 0 <= i < |xs| && i < |ys|
        ensures Clean(r, xs[i]) == Clean(s, ys[i]) <==> Equivalent(r, xs[i], s, ys[i])
      {
        CleanNormalForm(r, xs[i], s, ys[i]);
      }
      CleanArrays(r, xs, s, ys);
    case _ =>
  }

  lemma CleanArrays(r: Contexts, xs: seq<Json>, s: Contexts, ys: seq<Json>)
    requires Cleanable(r, Arr(xs)) && Cleanable(s, Arr(ys))
    ensures Clean(r, Arr(xs)) == Clean(s, Arr(ys)) <==>
            |xs| == |ys| && forall i | 0 <= i < |xs| && i < |ys| :: Clean(r, xs[i]) == Clean(s, ys[i])
  {
    var us, vs := Clean(r, Arr(xs)).items, Clean(s, Arr(ys)).items;
    assert |us| == |xs| && |vs| == |ys|;
    assert forall i | 0 <= i < |xs| :: us[i] == Clean(r, xs[i]);
    assert forall i | 0 <= i < |ys| :: vs[i] == Clean(s, ys[i]);
    if us == vs {
      forall i | 0 <= i < |xs| && i < |ys| ensures Clean(r, xs[i]) == Clean(s, ys[i]) { assert us[i] == vs[i]; }
    }
  }

  lemma CleanObjects(r: Contexts, f: map<string, Json>, s: Contexts, g: map<string, Json>)
    requires Cleanable(r, Obj(f)) && Cleanable(s, Obj(g))
    ensures Clean(r, Obj(f)) == Clean(s, Obj(g)) <==>
      && (forall k | !Dropped(k) :: k in f <==> k in g)
      && (forall k | k in f && k in g && !Dropped(k) :: Clean(r, f[k]) == Clean(s, g[k]))
      && (SOURCE_TERMS in f <==> SOURCE_TERMS in g)
      && (SOURCE_TERMS in f && SOURCE_TERMS in g ==>
            SourceTerms(TermsOf(r, f).value) == SourceTerms(TermsOf(s, g).value))
  {
    CleanObject(r, f);
    CleanObject(s, g);
    MapsAgree(Clean(r, Obj(f)).fields, Kept(f), Clean(s, Obj(g)).fields, Kept(g), SOURCE_TERMS);
    assert (forall k | !Dropped(k) :: k in f <==> k in g) <==> Kept(f) == Kept(g) by {
      if Kept(f) == Kept(g) {
        forall k | !Dropped(k) ensures k in f <==> k in g { assert k in Kept(f) <==> k in Kept(g); }
      }
    }
  }

  /** The keys that survive cleaning as they are. */
  function Kept(f: map<string, Json>): set<string> {
    set k | k in f && !Dropped(k)
  }

  lemma CleanObject(r: Contexts, f: map<string, Json>)
    requires Cleanable(r, Obj(f))
    ensures var u := Clean(r, Obj(f)).fields;
      && SOURCE_TERMS !in Kept(f)
      && u.Keys == Kept(f) + (if SOURCE_TERMS in f then {SOURCE_TERMS} else {})
      && (forall k | k in Kept(f) :: u[k] == Clean(r, f[k]))
      && (SOURCE_TERMS in f ==> u[SOURCE_TERMS] == Arr(SourceTerms(TermsOf(r, f).value)))
  {
    assert Dropped(SOURCE_TERMS);
  }

  lemma MapsAgree(u: map<string, Json>, ku: set<string>, v: map<string, Json>, kv: set<string>, t: string)
    requires t !in ku && t !in kv
    requires u.Keys == ku + (if t in u then {t} else {}) && v.Keys == kv + (if t in v then {t} else {})
    ensures u == v <==> ku == kv && (forall k | k in ku && k in kv :: u[k] == v[k])
                        && (t in u <==> t in v) && (t in u && t in v ==> u[t] == v[t])
  {
    if u == v {
      assert ku == u.Keys - {t} == v.Keys - {t} == kv;
    }
  }

  /** Two objects clean alike exactly when they hold the same fields, cleaned alike, the four citation fields
      apart, and cite terms with the same normal form or both none. */
  lemma CleanObjectsMean(r: Contexts, f: map<string, Json>, s: Contexts, g: map<string, Json>)
    requires Cleanable(r, Obj(f)) && Cleanable(s, Obj(g))
    ensures Clean(r, Obj(f)) == Clean(s, Obj(g)) <==>
      && (forall k | k !in {"member_sha256", "source_observation_id", "source_observation_ids", "source_record_ids",
                            "source_terms"} ::
            (k in f <==> k in g) && (k in f && k in g ==> Clean(r, f[k]) == Clean(s, g[k])))
      && ("source_terms" in f <==> "source_terms" in g)
      && ("source_terms" in f && "source_terms" in g ==>
            SourceTerms(TermsOf(r, f).value) == SourceTerms(TermsOf(s, g).value))
  {
    CleanObjects(r, f, s, g);
  }

  /** A value without fields or items is kept as it is. */
  lemma CleanScalar(r: Contexts, j: Json)
    requires Cleanable(r, j) && !j.Obj? && !j.Arr?
    ensures Clean(r, j) == j
  {
  }

  // ---------------------------------------------------------------- the signature

  datatype History = History(observations: seq<Json>, coverageGaps: seq<Json>)

  predicate AllCleanable(r: Contexts, rows: seq<Json>) {
    forall i | 0 <= i < |rows| :: Cleanable(r, rows[i])
  }

  function CleanRows(r: Contexts, rows: seq<Json>): (cleaned: seq<Json>)
    requires AllCleanable(r, rows)
    ensures |cleaned| == |rows| && forall i | 0 <= i < |rows| :: cleaned[i] == Clean(r, rows[i])
  {
    seq(|rows|, i requires 0 <= i < |rows| => Clean(r, rows[i]))
  }

  /** The signature; none when some component source is missing. */
  function Signature(r: Contexts, h: History): Option<History> {
    if AllCleanable(r, h.observations) && AllCleanable(r, h.coverageGaps) then
      Some(History(Sort(EncodedLeq, CleanRows(r, h.observations)), Sort(EncodedLeq, CleanRows(r, h.coverageGaps))))
    else None
  }

  lemma {:induction false} CleanWellFormed(r: Contexts, j: Json)
    requires WellFormedContexts(r) && WellFormed(j) && Cleanable(r, j)
    ensures WellFormed(Clean(r, j))
    decreases j
  {
    match j
    case Obj(fields) =>
      forall k | k in Kept(fields) ensures WellFormed(Clean(r, fields[k])) { CleanWellFormed(r, fields[k]); }
      if SOURCE_TERMS in fields {
        TermsWellFormed(r, fields);
        SourceTermsWellFormed(TermsOf(r, fields).value);
      }
      CleanObject(r, fields);
      CleanedWellFormed(Clean(r, j).fields, Kept(fields), SOURCE_TERMS);
    case Arr(items) =>
      forall i | 0 <= i < |items| ensures WellFormed(Clean(r, items[i])) { CleanWellFormed(r, items[i]); }
    case _ =>
  }

  lemma CleanedWellFormed(u: map<string, Json>, kept: set<string>, t: string)
    requires u.Keys == kept + (if t in u then {t} else {})
    requires forall k | k in kept :: WellFormed(u[k])
    requires t in u ==> WellFormed(u[t])
    ensures WellFormed(Obj(u))
  {
  }

  lemma SourceTermsWellFormed(ts: seq<Signed>)
    requires WellFormedTerms(ts)
    ensures WellFormed(Arr(SourceTerms(ts)))
  {
    EntriesTotal(ts);
    SortKeeps(EncodedLeq, Entries(ts, Occurring(ts)));
    SameElements(SourceTerms(ts), Entries(ts, Occurring(ts)));
  }

  lemma SortedRowsNormalForm(r: Contexts, rows: seq<Json>, s: Contexts, others: seq<Json>)
    requires WellFormedContexts(r) && WellFormedContexts(s)
    requires AllCleanable(r, rows) && AllCleanable(s, others)
    requires forall x | x in rows :: WellFormed(x)
    requires forall x | x in others :: WellFormed(x)
    ensures Sort(EncodedLeq, CleanRows(r, rows)) == Sort(EncodedLeq, CleanRows(s, others)) <==>
            multiset(CleanRows(r, rows)) == multiset(CleanRows(s, others))
  {
    forall i | 0 <= i < |rows| ensures WellFormed(CleanRows(r, rows)[i]) { CleanWellFormed(r, rows[i]); }
    forall i | 0 <= i < |others| ensures WellFormed(CleanRows(s, others)[i]) { CleanWellFormed(s, others[i]); }
    EncodedTotal(CleanRows(r, rows));
    EncodedTotal(CleanRows(s, others));
    SortNormalForm(EncodedLeq, CleanRows(r, rows), CleanRows(s, others));
  }

  ghost predicate WellFormedHistory(h: History) {
    (forall x | x in h.observations :: WellFormed(x)) && forall x | x in h.coverageGaps :: WellFormed(x)
  }

  /** Two histories have the same signature exactly when their cleaned rows are the same multisets. */
  lemma SignatureNormalForm(r: Contexts, h: History, s: Contexts, k: History)
    requires WellFormedContexts(r) && WellFormedContexts(s) && WellFormedHistory(h) && WellFormedHistory(k)
    requires Signature(r, h).Some? && Signature(s, k).Some?
    ensures Signature(r, h) == Signature(s, k) <==>
      && multiset(CleanRows(r, h.observations)) == multiset(CleanRows(s, k.observations))
      && multiset(CleanRows(r, h.coverageGaps)) == multiset(CleanRows(s, k.coverageGaps))
  {
    SortedRowsNormalForm(r, h.observations, s, k.observations);
    SortedRowsNormalForm(r, h.coverageGaps, s, k.coverageGaps);
  }

  lemma {:induction false} CleanRowsPermuted(r: Contexts, rows: seq<Json>, others: seq<Json>)
    requires multiset(rows) == multiset(others) && AllCleanable(r, rows)
    ensures AllCleanable(r, others) && multiset(CleanRows(r, rows)) == multiset(CleanRows(r, others))
    decreases |rows|
  {
    SameElements(rows, others);
    forall i | 0 <= i < |others| ensures Cleanable(r, others[i]) { assert others[i] in rows; }
    if rows != [] {
      assert rows[0] in others;
      var i :| 0 <= i < |others| && others[i] == rows[0];
      RemoveAt(rows, 0);
      RemoveAt(others, i);
      var x, y := rows[..0] + rows[1..], others[..i] + others[i + 1..];
      CleanRowsPermuted(r, x, y);
      CleanRowsRemove(r, rows, 0);
      CleanRowsRemove(r, others, i);
    }
  }

  lemma CleanRowsRemove(r: Contexts, rows: seq<Json>, i: nat)
    requires i < |rows| && AllCleanable(r, rows)
    ensures AllCleanable(r, rows[..i] + rows[i + 1..])
    ensures multiset(CleanRows(r, rows)) ==
            multiset(CleanRows(r, rows[..i] + rows[i + 1..])) + multiset{Clean(r, rows[i])}
  {
    var cleaned, fewer := CleanRows(r, rows), rows[..i] + rows[i + 1..];
    CleanRowsWithout(r, rows, i, fewer);
    RemoveAt(cleaned, i);
    assert cleaned[i] in multiset(cleaned);
  }

  lemma CleanRowsWithout(r: Contexts, rows: seq<Json>, i: nat, fewer: seq<Json>)
    requires i < |rows| && AllCleanable(r, rows) && fewer == rows[..i] + rows[i + 1..]
    ensures AllCleanable(r, fewer)
    ensures CleanRows(r, fewer) == CleanRows(r, rows)[..i] + CleanRows(r, rows)[i + 1..]
  {
    forall k | 0 <= k < |fewer| ensures fewer[k] == rows[if k < i then k else k + 1] {}
  }

  /** The rows of one list are those of the other up to equivalence and order. */
  ghost predicate Reproduces(r: Contexts, rows: seq<Json>, s: Contexts, others: seq<Json>, matched: seq<Json>) {
    && multiset(matched) == multiset(others) && |matched| == |rows|
    && AllCleanable(r, rows) && AllCleanable(s, matched)
    && forall i | 0 <= i < |rows| :: Equivalent(r, rows[i], s, matched[i])
  }

  ghost predicate MatchOneForOne(r: Contexts, rows: seq<Json>, s: Contexts, others: seq<Json>) {
    exists matched :: Reproduces(r, rows, s, others, matched)
  }

  lemma ReproducedRowsClean(r: Contexts, rows: seq<Json>, s: Contexts, others: seq<Json>, matched: seq<Json>)
    requires WellFormedContexts(r) && WellFormedContexts(s) && Reproduces(r, rows, s, others, matched)
    ensures AllCleanable(s, others) && multiset(CleanRows(r, rows)) == multiset(CleanRows(s, others))
  {
    CleanRowsPermuted(s, matched, others);
    assert CleanRows(r, rows) == CleanRows(s, matched) by {
      forall i | 0 <= i < |rows| ensures CleanRows(r, rows)[i] == CleanRows(s, matched)[i] {
        CleanNormalForm(r, rows[i], s, matched[i]);
      }
    }
  }

  lemma RestMatches(r: Contexts, rows: seq<Json>, s: Contexts, others: seq<Json>, i: nat, fewer: seq<Json>,
      less: seq<Json>)
    requires rows != [] && i < |others| && AllCleanable(r, rows) && AllCleanable(s, others)
    requires multiset(CleanRows(r, rows)) == multiset(CleanRows(s, others))
    requires Clean(s, others[i]) == Clean(r, rows[0])
    requires fewer == rows[..0] + rows[1..] && less == others[..i] + others[i + 1..]
    ensures AllCleanable(r, fewer) && AllCleanable(s, less)
    ensures multiset(CleanRows(r, fewer)) == multiset(CleanRows(s, less))
  {
    CleanRowsRemove(r, rows, 0);
    CleanRowsRemove(s, others, i);
    CancelOne(multiset(CleanRows(r, fewer)), multiset(CleanRows(s, less)), Clean(r, rows[0]));
  }

  lemma CancelOne<T>(a: multiset<T>, b: multiset<T>, x: T)
    requires a + multiset{x} == b + multiset{x}
    ensures a == b
  {
    assert a == (a + multiset{x}) - multiset{x};
    assert b == (b + multiset{x}) - multiset{x};
  }

  lemma MatchIndex(r: Contexts, rows: seq<Json>, s: Contexts, others: seq<Json>) returns (i: nat)
    requires rows != [] && AllCleanable(r, rows) && AllCleanable(s, others)
    requires multiset(CleanRows(r, rows)) == multiset(CleanRows(s, others))
    ensures i < |others| && Clean(s, others[i]) == Clean(r, rows[0])
  {
    SameElements(CleanRows(r, rows), CleanRows(s, others));
    assert CleanRows(r, rows)[0] in CleanRows(s, others);
    i :| 0 <= i < |others| && CleanRows(s, others)[i] == Clean(r, rows[0]);
  }

  /** Rows with the same cleaned forms can be matched one for one. */
  lemma {:induction false} CleanRowsMatch(r: Contexts, rows: seq<Json>, s: Contexts, others: seq<Json>)
      returns (matched: seq<Json>)
    requires WellFormedContexts(r) && WellFormedContexts(s)
    requires AllCleanable(r, rows) && AllCleanable(s, others)
    requires multiset(CleanRows(r, rows)) == multiset(CleanRows(s, others))
    ensures Reproduces(r, rows, s, others, matched)
    decreases |rows|
  {
    if rows == [] {
      SameElements(CleanRows(r, rows), CleanRows(s, others));
      matched := [];
    } else {
      var i := MatchIndex(r, rows, s, others);
      var fewer, less := rows[..0] + rows[1..], others[..i] + others[i + 1..];
      assert fewer == rows[1..];
      RestMatches(r, rows, s, others, i, fewer, less);
      var rest := CleanRowsMatch(r, fewer, s, less);
      CleanNormalForm(r, rows[0], s, others[i]);
      matched := [others[i]] + rest;
      MatchedOneMore(r, rows, s, others, i, rest);
    }
  }

  lemma MatchedOneMore(r: Contexts, rows: seq<Json>, s: Contexts, others: seq<Json>, i: nat, rest: seq<Json>)
    requires rows != [] && i < |others| && AllCleanable(r, rows) && Cleanable(s, others[i])
    requires Equivalent(r, rows[0], s, others[i])
    requires Reproduces(r, rows[1..], s, others[..i] + others[i + 1..], rest)
    ensures Reproduces(r, rows, s, others, [others[i]] + rest)
  {
    RemoveAt(others, i);
    var matched := [others[i]] + rest;
    forall j | 0 <= j < |rows| ensures Cleanable(s, matched[j]) && Equivalent(r, rows[j], s, matched[j]) {
      if j > 0 { assert rows[j] == rows[1..][j - 1] && matched[j] == rest[j - 1]; }
    }
  }

  /** Two histories have the same signature exactly when their rows can be matched one for one up to
      equivalence: a snapshot may rename its identifiers, reorder and split its source terms and reorder
      its rows without failing the historical reproduction check, and nothing else passes it. */
  lemma SignatureMeans(r: Contexts, h: History, s: Contexts, k: History)
    requires WellFormedContexts(r) && WellFormedContexts(s) && WellFormedHistory(h) && WellFormedHistory(k)
    requires Signature(r, h).Some? && Signature(s, k).Some?
    ensures Signature(r, h) == Signature(s, k) <==>
      MatchOneForOne(r, h.observations, s, k.observations) && MatchOneForOne(r, h.coverageGaps, s, k.coverageGaps)
  {
    SignatureNormalForm(r, h, s, k);
    RowsReproduceExactly(r, h.observations, s, k.observations);
    RowsReproduceExactly(r, h.coverageGaps, s, k.coverageGaps);
  }

  lemma RowsReproduceExactly(r: Contexts, rows: seq<Json>, s: Contexts, others: seq<Json>)
    requires WellFormedContexts(r) && WellFormedContexts(s) && AllCleanable(r, rows) && AllCleanable(s, others)
    ensures multiset(CleanRows(r, rows)) == multiset(CleanRows(s, others))
            <==> MatchOneForOne(r, rows, s, others)
  {
    if multiset(CleanRows(r, rows)) == multiset(CleanRows(s, others)) {
      var matched := CleanRowsMatch(r, rows, s, others);
    }
    forall matched | Reproduces(r, rows, s, others, matched)
      ensures multiset(CleanRows(r, rows)) == multiset(CleanRows(s, others))
    {
      ReproducedRowsClean(r, rows, s, others, matched);
    }
  }

  // ---------------------------------------------------------------- snapshots whose identifiers changed

  /** The signature of a history with the snapshot its terms cite: none when an observation has no
      identifier or some component source is missing. */
  function SignatureOf(h: History, observations: seq<Json>): Option<History> {
    if Identified(observations) then Signature(ContextsOf(observations), h) else None
  }

  ghost predicate WellFormedRows(rows: seq<Json>) {
    forall row | row in rows :: WellFormed(row)
  }

  /** The reproduction check of an update: the history computed from the old snapshot and the one computed
      from the new snapshot have the same signature exactly when their rows match one for one, every term
      read through the snapshot it came from. */
  lemma SnapshotSignatureMeans(h: History, prior: seq<Json>, k: History, data: seq<Json>)
    requires WellFormedRows(prior) && WellFormedRows(data) && WellFormedHistory(h) && WellFormedHistory(k)
    requires SignatureOf(h, prior).Some? && SignatureOf(k, data).Some?
    ensures SignatureOf(h, prior) == SignatureOf(k, data) <==>
      && MatchOneForOne(ContextsOf(prior), h.observations, ContextsOf(data), k.observations)
      && MatchOneForOne(ContextsOf(prior), h.coverageGaps, ContextsOf(data), k.coverageGaps)
  {
    ContextsWellFormed(prior);
    ContextsWellFormed(data);
    SignatureMeans(ContextsOf(prior), h, ContextsOf(data), k);
  }

  /** The resolved terms of a row that cites any. */
  function TermsIn(r: Contexts, row: Json): Option<seq<Signed>> {
    if row.Obj? then TermsOf(r, row.fields) else None
  }

  /** Both rows cite terms or neither does, and the sums evaluate alike, however a context is valued. */
  ghost predicate SameSums(r: Contexts, a: Json, s: Contexts, b: Json) {
    match (TermsIn(r, a), TermsIn(s, b))
    case (Some(ts), Some(us)) => forall value: Json -> real :: Sum(ts, value) == Sum(us, value)
    case (None, None) => true
    case _ => false
  }

  lemma EquivalentSameSums(r: Contexts, a: Json, s: Contexts, b: Json)
    requires Cleanable(r, a) && Cleanable(s, b) && Equivalent(r, a, s, b)
    ensures SameSums(r, a, s, b)
  {
    if a.Obj? && b.Obj? && SOURCE_TERMS in a.fields {
      var ts, us := TermsOf(r, a.fields).value, TermsOf(s, b.fields).value;
      forall value: Json -> real ensures Sum(ts, value) == Sum(us, value) { SameNetSameSum(ts, us, value); }
    }
  }

  /** Equal signatures force equal evaluated sums: the observations of the two histories match one for one,
      and matched observations cite terms that evaluate to the same sum under every valuation. */
  lemma EqualSignaturesEqualSums(h: History, prior: seq<Json>, k: History, data: seq<Json>) returns (matched: seq<Json>)
    requires WellFormedRows(prior) && WellFormedRows(data) && WellFormedHistory(h) && WellFormedHistory(k)
    requires SignatureOf(h, prior).Some? && SignatureOf(h, prior) == SignatureOf(k, data)
    ensures Reproduces(ContextsOf(prior), h.observations, ContextsOf(data), k.observations, matched)
    ensures forall i | 0 <= i < |matched| ::
              SameSums(ContextsOf(prior), h.observations[i], ContextsOf(data), matched[i])
  {
    var r, s := ContextsOf(prior), ContextsOf(data);
    SnapshotSignatureMeans(h, prior, k, data);
    matched :| Reproduces(r, h.observations, s, k.observations, matched);
    forall i | 0 <= i < |matched| ensures SameSums(r, h.observations[i], s, matched[i]) {
      EquivalentSameSums(r, h.observations[i], s, matched[i]);
    }
  }

  ghost predicate Injective(rename: string -> string) {
    forall a, b :: rename(a) == rename(b) ==> a == b
  }

  /** The same observation under its new identifier; only what identifies it financially has to agree. */
  ghost predicate SameObservation(a: Json, b: Json, rename: string -> string)
    requires Field(a, OBSERVATION_ID).Str? && Field(b, OBSERVATION_ID).Str?
  {
    Sid(b) == rename(Sid(a)) && FinancialContext(b) == FinancialContext(a)
  }

  /** The snapshot with its raw identifiers changed, row by row. */
  ghost predicate RenamedSnapshot(prior: seq<Json>, data: seq<Json>, rename: string -> string) {
    && Identified(prior) && Identified(data) && |data| == |prior|
    && forall i | 0 <= i < |prior| :: SameObservation(prior[i], data[i], rename)
  }

  lemma RenamedLast(prior: seq<Json>, data: seq<Json>, rename: string -> string, sid: string, i: nat)
    requires RenamedSnapshot(prior, data, rename) && Injective(rename)
    ensures IsLast(prior, sid, i) <==> IsLast(data, rename(sid), i)
  {
    forall j | 0 <= j < |prior| ensures Sid(data[j]) == rename(sid) <==> Sid(prior[j]) == sid {
      assert SameObservation(prior[j], data[j], rename);
    }
  }

  /** An injective renaming of a snapshot resolves each new identifier to the old one's context, and no
      identifier appears or disappears. */
  lemma RenamedSnapshotTracks(prior: seq<Json>, data: seq<Json>, rename: string -> string)
    requires RenamedSnapshot(prior, data, rename) && Injective(rename)
    ensures Tracks(ContextsOf(prior), ContextsOf(data), rename)
    ensures forall sid :: sid in ContextsOf(prior) <==> rename(sid) in ContextsOf(data)
  {
    forall sid | sid in ContextsOf(prior)
      ensures rename(sid) in ContextsOf(data) && ContextsOf(data)[rename(sid)] == ContextsOf(prior)[sid]
    {
      var i := LastExists(prior, sid);
      RenamedLast(prior, data, rename, sid, i);
      LastWins(prior, sid, i);
      LastWins(data, rename(sid), i);
      assert SameObservation(prior[i], data[i], rename);
    }
    forall sid | rename(sid) in ContextsOf(data) ensures sid in ContextsOf(prior) {
      var i := LastExists(data, rename(sid));
      RenamedLast(prior, data, rename, sid, i);
      LastWins(prior, sid, i);
    }
  }

  /** A later snapshot: its identifiers are distinct, and each old observation is in it, anywhere. */
  ghost predicate GrownSnapshot(prior: seq<Json>, data: seq<Json>, rename: string -> string) {
    && Identified(prior) && Identified(data)
    && (forall i, j | 0 <= i < j < |data| :: Sid(data[i]) != Sid(data[j]))
    && forall i | 0 <= i < |prior| :: Contains(data, prior[i], rename)
  }

  ghost predicate Contains(data: seq<Json>, row: Json, rename: string -> string)
    requires Identified(data) && Field(row, OBSERVATION_ID).Str?
  {
    exists j :: 0 <= j < |data| && SameObservation(row, data[j], rename)
  }

  lemma GrownSnapshotTracks(prior: seq<Json>, data: seq<Json>, rename: string -> string)
    requires GrownSnapshot(prior, data, rename)
    ensures Tracks(ContextsOf(prior), ContextsOf(data), rename)
  {
    forall sid | sid in ContextsOf(prior)
      ensures rename(sid) in ContextsOf(data) && ContextsOf(data)[rename(sid)] == ContextsOf(prior)[sid]
    {
      var i := LastExists(prior, sid);
      LastWins(prior, sid, i);
      assert Contains(data, prior[i], rename);
      var j :| 0 <= j < |data| && SameObservation(prior[i], data[j], rename);
      LastWins(data, rename(sid), j);
    }
  }

  // ---------------------------------------------------------------- histories whose terms were renamed

  ghost predicate RenamedTerm(x: Json, y: Json, rename: string -> string) {
    && Field(x, OBSERVATION_ID).Str? && Field(y, OBSERVATION_ID) == Str(rename(Field(x, OBSERVATION_ID).s))
    && Field(x, "coefficient") == Field(y, "coefficient")
  }

  ghost predicate RenamedTerms(xs: seq<Json>, ys: seq<Json>, rename: string -> string) {
    |xs| == |ys| && forall i | 0 <= i < |xs| && i < |ys| :: RenamedTerm(xs[i], ys[i], rename)
  }

  /** The same value with its terms cited under new identifiers; citation fields may hold anything. */
  ghost predicate RenamedValue(a: Json, b: Json, rename: string -> string)
    decreases a
  {
    match (a, b)
    case (Obj(f), Obj(g)) =>
      && (forall k | !Dropped(k) :: k in f <==> k in g)
      && (forall k | k in f && k in g && !Dropped(k) :: RenamedValue(f[k], g[k], rename))
      && (SOURCE_TERMS in f <==> SOURCE_TERMS in g)
      && (SOURCE_TERMS in f && SOURCE_TERMS in g ==>
            && (f[SOURCE_TERMS].Arr? <==> g[SOURCE_TERMS].Arr?)
            && (f[SOURCE_TERMS].Arr? && g[SOURCE_TERMS].Arr? ==>
                  RenamedTerms(f[SOURCE_TERMS].items, g[SOURCE_TERMS].items, rename)))
    case (Arr(xs), Arr(ys)) =>
      |xs| == |ys| && forall i | 0 <= i < |xs| && i < |ys| :: RenamedValue(xs[i], ys[i], rename)
    case _ => !a.Obj? && !a.Arr? && a == b
  }

  lemma {:induction false} RenamedTermsParse(xs: seq<Json>, ys: seq<Json>, rename: string -> string)
    requires RenamedTerms(xs, ys, rename)
    ensures ParseTerms(xs).Some? <==> ParseTerms(ys).Some?
    ensures ParseTerms(xs).Some? ==> ParseTerms(ys) == Some(Renamed(ParseTerms(xs).value, rename))
  {
    if xs != [] {
      assert RenamedTerm(xs[0], ys[0], rename);
      forall i | 0 <= i < |xs[1..]| ensures RenamedTerm(xs[1..][i], ys[1..][i], rename) {
        assert RenamedTerm(xs[i + 1], ys[i + 1], rename);
      }
      RenamedTermsParse(xs[1..], ys[1..], rename);
      if ParseTerms(xs).Some? {
        var sid, n, rest := Field(xs[0], OBSERVATION_ID).s, Field(xs[0], "coefficient").n, ParseTerms(xs[1..]).value;
        assert ParseTerms(xs).value == [Term(sid, n)] + rest;
        assert ParseTerms(ys) == Some([Term(rename(sid), n)] + Renamed(rest, rename));
        assert Renamed([Term(sid, n)] + rest, rename) == [Term(rename(sid), n)] + Renamed(rest, rename);
      }
    } else {
      assert Renamed([], rename) == [];
    }
  }

  /** Term lists renamed along with their snapshot resolve to the same contexts and coefficients. */
  lemma RenamedTermsOf(r: Contexts, f: map<string, Json>, s: Contexts, g: map<string, Json>, rename: string -> string)
    requires Tracks(r, s, rename) && RenamedValue(Obj(f), Obj(g), rename)
    ensures TermsOf(r, f).Some? ==> TermsOf(s, g) == TermsOf(r, f)
    ensures (forall sid | rename(sid) in s :: sid in r) ==> (TermsOf(r, f).Some? <==> TermsOf(s, g).Some?)
  {
    if SOURCE_TERMS in f && SOURCE_TERMS in g && f[SOURCE_TERMS].Arr? && g[SOURCE_TERMS].Arr? {
      RenamedTermsParse(f[SOURCE_TERMS].items, g[SOURCE_TERMS].items, rename);
      var parsed := ParseTerms(f[SOURCE_TERMS].items);
      if parsed.Some? {
        if Resolvable(r, parsed.value) {
          RenamingKeepsTerms(r, s, parsed.value, rename);
        } else if Resolvable(s, Renamed(parsed.value, rename)) && forall sid | rename(sid) in s :: sid in r {
          forall i | 0 <= i < |parsed.value| ensures parsed.value[i].sid in r {
            assert Renamed(parsed.value, rename)[i].sid in s;
          }
        }
      }
    }
  }

  /** A renamed value can be cleaned when the original can, and is equivalent to it. */
  lemma {:induction false} RenamedValueEquivalent(r: Contexts, a: Json, s: Contexts, b: Json, rename: string -> string)
    requires Tracks(r, s, rename) && RenamedValue(a, b, rename) && Cleanable(r, a)
    ensures Cleanable(s, b) && Equivalent(r, a, s, b)
    decreases a
  {
    match (a, b)
    case (Obj(f), Obj(g)) =>
      forall k | k in f && k in g && !Dropped(k) ensures Cleanable(s, g[k]) && Equivalent(r, f[k], s, g[k]) {
        RenamedValueEquivalent(r, f[k], s, g[k], rename);
      }
      RenamedTermsOf(r, f, s, g, rename);
    case (Arr(xs), Arr(ys)) =>
      forall i | 0 <= i < |xs| && i < |ys| ensures Cleanable(s, ys[i]) && Equivalent(r, xs[i], s, ys[i]) {
        RenamedValueEquivalent(r, xs[i], s, ys[i], rename);
      }
    case _ =>
  }

  /** When no identifier appears either, it can be cleaned only then. */
  lemma {:induction false} RenamedValueCleanable(r: Contexts, a: Json, s: Contexts, b: Json, rename: string -> string)
    requires Tracks(r, s, rename) && (forall sid | rename(sid) in s :: sid in r)
    requires RenamedValue(a, b, rename) && Cleanable(s, b)
    ensures Cleanable(r, a)
    decreases a
  {
    match (a, b)
    case (Obj(f), Obj(g)) =>
      forall k | k in f && !Dropped(k) ensures Cleanable(r, f[k]) { RenamedValueCleanable(r, f[k], s, g[k], rename); }
      RenamedTermsOf(r, f, s, g, rename);
    case (Arr(xs), Arr(ys)) =>
      forall i | 0 <= i < |xs| ensures Cleanable(r, xs[i]) { RenamedValueCleanable(r, xs[i], s, ys[i], rename); }
    case _ =>
  }

  /** The rows of a history, possibly in another order, with their terms renamed. */
  ghost predicate RenamedRows(rows: seq<Json>, others: seq<Json>, rename: string -> string) {
    exists matched :: Pairs(rows, others, matched, rename)
  }

  ghost predicate Pairs(rows: seq<Json>, others: seq<Json>, matched: seq<Json>, rename: string -> string) {
    && multiset(matched) == multiset(others) && |matched| == |rows|
    && forall i | 0 <= i < |rows| :: RenamedValue(rows[i], matched[i], rename)
  }

  lemma RenamedRowsReproduce(r: Contexts, rows: seq<Json>, s: Contexts, others: seq<Json>, rename: string -> string)
    requires Tracks(r, s, rename) && RenamedRows(rows, others, rename) && AllCleanable(r, rows)
    ensures AllCleanable(s, others) && MatchOneForOne(r, rows, s, others)
  {
    var matched :| Pairs(rows, others, matched, rename);
    forall i | 0 <= i < |rows| ensures Cleanable(s, matched[i]) && Equivalent(r, rows[i], s, matched[i]) {
      RenamedValueEquivalent(r, rows[i], s, matched[i], rename);
    }
    assert Reproduces(r, rows, s, others, matched);
    CleanRowsPermuted(s, matched, others);
  }

  lemma RenamedRowsCleanable(r: Contexts, rows: seq<Json>, s: Contexts, others: seq<Json>, rename: string -> string)
    requires Tracks(r, s, rename) && (forall sid | rename(sid) in s :: sid in r)
    requires RenamedRows(rows, others, rename) && AllCleanable(s, others)
    ensures AllCleanable(r, rows)
  {
    var matched :| Pairs(rows, others, matched, rename);
    CleanRowsPermuted(s, others, matched);
    forall i | 0 <= i < |rows| ensures Cleanable(r, rows[i]) {
      RenamedValueCleanable(r, rows[i], s, matched[i], rename);
    }
  }

  ghost predicate RenamedHistory(h: History, k: History, rename: string -> string) {
    RenamedRows(h.observations, k.observations, rename) && RenamedRows(h.coverageGaps, k.coverageGaps, rename)
  }

  lemma RenamedHistoryReproduces(r: Contexts, h: History, s: Contexts, k: History, rename: string -> string)
    requires WellFormedContexts(r) && WellFormedContexts(s) && WellFormedHistory(h) && WellFormedHistory(k)
    requires Tracks(r, s, rename) && RenamedHistory(h, k, rename) && Signature(r, h).Some?
    ensures Signature(s, k) == Signature(r, h)
  {
    RenamedRowsReproduce(r, h.observations, s, k.observations, rename);
    RenamedRowsReproduce(r, h.coverageGaps, s, k.coverageGaps, rename);
    SignatureMeans(r, h, s, k);
  }

  /** Snapshot metadata may change raw identifiers: a history computed from the renamed snapshot, its terms
      cited under the new identifiers and its rows in any order, has exactly the signature of the original,
      and fails exactly when the original fails. */
  lemma RenamedSnapshotReproduces(h: History, prior: seq<Json>, k: History, data: seq<Json>,
      rename: string -> string)
    requires WellFormedRows(prior) && WellFormedRows(data) && WellFormedHistory(h) && WellFormedHistory(k)
    requires RenamedSnapshot(prior, data, rename) && Injective(rename) && RenamedHistory(h, k, rename)
    ensures SignatureOf(k, data) == SignatureOf(h, prior)
  {
    var r, s := ContextsOf(prior), ContextsOf(data);
    ContextsWellFormed(prior);
    ContextsWellFormed(data);
    RenamedSnapshotTracks(prior, data, rename);
    if Signature(r, h).Some? {
      RenamedHistoryReproduces(r, h, s, k, rename);
    } else if Signature(s, k).Some? {
      RenamedRowsCleanable(r, h.observations, s, k.observations, rename);
      RenamedRowsCleanable(r, h.coverageGaps, s, k.coverageGaps, rename);
    }
  }

  /** The same for a later snapshot with distinct identifiers that still holds every old observation, next
      to any number of new ones and in any order, once the old history could be signed. */
  lemma GrownSnapshotReproduces(h: History, prior: seq<Json>, k: History, data: seq<Json>, rename: string -> string)
    requires WellFormedRows(prior) && WellFormedRows(data) && WellFormedHistory(h) && WellFormedHistory(k)
    requires GrownSnapshot(prior, data, rename) && RenamedHistory(h, k, rename) && SignatureOf(h, prior).Some?
    ensures SignatureOf(k, data) == SignatureOf(h, prior)
  {
    ContextsWellFormed(prior);
    ContextsWellFormed(data);
    GrownSnapshotTracks(prior, data, rename);
    RenamedHistoryReproduces(ContextsOf(prior), h, ContextsOf(data), k, rename);
  }
}
