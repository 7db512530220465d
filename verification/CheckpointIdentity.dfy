/** The identity of a checkpoint set: written whole by the publisher, streamed file by file by
    the consumer that must reproduce it without holding every checkpoint in memory. */
module CheckpointIdentity {
  import opened Sorting
  import opened Text
  import opened CanonicalJson
  import opened AsciiNames
  import opened Wrappers

  const SUFFIX := ".json.gz"

  const OBJECT_LIMIT := 16 * 1048576

  /** What the native publication's receipt says, with the digest of the manifest it pins. */
  datatype Receipt = Receipt(rootSha: string, stopped: bool, discovered: int, certified: int, attempted: int,
                             usable: int, revisions: int, releaseId: string)

  /** The manifest beside the receipt: its bytes and what they parse to. */
  datatype Root = Root(raw: string, parsed: Json)

  datatype Failure =
    | NotPinned | NotPublic | NotComplete
    | WrongRelease(cik: string) | NotVerified(cik: string) | OutOfScope(cik: string)
    | WrongIdentity | WrongCounts | WrongRevisions

  /** What was hashed, how many checkpoints there were, and the usable ones, in order. */
  datatype Outcome = Inventory(hashed: string, attempted: nat, usable: seq<string>) | Failed(failure: Failure)

  /** The document whose digest names a publication. */
  function Document(release: string, records: map<string, Json>): Json {
    Obj(map["run_id" := Str(release), "checkpoints" := Obj(records)])
  }

  predicate PathLeq(a: string, b: string) {
    Leq(a + SUFFIX, b + SUFFIX)
  }

  /** The checkpoint names in the order of their sorted file paths. */
  function PathOrder(records: map<string, Json>): seq<string> {
    Sort(PathLeq, Ascending(records.Keys))
  }

  lemma PathOrderKeeps(records: map<string, Json>)
    ensures forall k :: k in PathOrder(records) <==> k in records
    ensures |PathOrder(records)| == |Ascending(records.Keys)|
  {
    SortKeeps(PathLeq, Ascending(records.Keys));
    SameElements(PathOrder(records), Ascending(records.Keys));
  }

  predicate Usable(checkpoint: Json) {
    Field(checkpoint, "status") == Str("USABLE")
  }

  predicate Verified(name: string, checkpoint: Json) {
    Field(checkpoint, "cik") == Str(name) && Field(Field(checkpoint, "verification"), "status") == Str("PASS")
  }

  predicate InScope(name: string, checkpoint: Json, release: string) {
    var ref := Field(checkpoint, "ref");
    && Field(ref, "key") == Str("gold/sec-engine/releases/" + release + "/companies/" + name + ".json")
    && Field(ref, "bytes").Int? && 0 < Field(ref, "bytes").n <= OBJECT_LIMIT
  }

  predicate HasStatus(checkpoint: Json) {
    checkpoint.Obj? && "status" in checkpoint.fields
  }

  /** What one checkpoint raises: another release for any, a missing status, and for a usable one a failed
      verification or an object outside the release. */
  function Raises(name: string, checkpoint: Json, release: string): Option<Failure> {
    if Field(checkpoint, "context") != Str(release) then Some(WrongRelease(name))
    else if !HasStatus(checkpoint) then Some(NotVerified(name))
    else if !Usable(checkpoint) then None
    else if !Verified(name, checkpoint) then Some(NotVerified(name))
    else if !InScope(name, checkpoint, release) then Some(OutOfScope(name))
    else None
  }

  /** What an accepted checkpoint is: of this release, and if it is usable then the one its file is named after,
      verified, with an object of this release that is not empty nor over 16 MiB. */
  ghost predicate Sourced(name: string, checkpoint: Json, release: string) {
    var ref := Field(checkpoint, "ref");
    && Field(checkpoint, "context") == Str(release)
    && (Field(checkpoint, "status") == Str("USABLE") ==>
          && Field(checkpoint, "cik") == Str(name)
          && Field(Field(checkpoint, "verification"), "status") == Str("PASS")
          && Field(ref, "key") == Str("gold/sec-engine/releases/" + release + "/companies/" + name + ".json")
          && Field(ref, "bytes").Int? && 0 < Field(ref, "bytes").n <= 16777216)
  }

  ghost predicate AllSourced(records: map<string, Json>, release: string) {
    forall k | k in records :: Sourced(k, records[k], release)
  }

  lemma AcceptedAreSourced(records: map<string, Json>, release: string)
    ensures (forall k | k in records :: Raises(k, records[k], release) == None) ==> AllSourced(records, release)
  {
    forall k | k in records { RaisesMeans(k, records[k], release); }
  }

  /** And a checkpoint that has a status is rejected only when it is not that. */
  lemma RaisesMeans(name: string, checkpoint: Json, release: string)
    ensures Raises(name, checkpoint, release) == None <==>
            checkpoint.Obj? && "status" in checkpoint.fields && Sourced(name, checkpoint, release)
  {
  }

  /** The sum of the revision counts of the listed checkpoints; one without a count has none. */
  function Revisions(records: map<string, Json>, names: seq<string>): Option<int>
    requires forall k | k in names :: k in records
  {
    if names == [] then Some(0)
    else
      var count := Field(Field(records[names[|names| - 1]], "ref"), "normalized_revisions");
      match Revisions(records, names[..|names| - 1])
      case Some(n) => if count.Int? then Some(n + count.n) else None
      case None => None
  }

  /** Nothing is summed twice or left out. */
  lemma {:induction false} RevisionsAdd(records: map<string, Json>, a: seq<string>, b: seq<string>)
    requires forall k | k in a + b :: k in records
    ensures (forall k | k in a :: k in records) && (forall k | k in b :: k in records)
    ensures Revisions(records, a + b) ==
            match (Revisions(records, a), Revisions(records, b))
            case (Some(x), Some(y)) => Some(x + y)
            case _ => None
  {
    assert forall k | k in a || k in b :: k in a + b;
    if b == [] {
      assert a + b == a;
    } else {
      assert (a + b)[..|a + b| - 1] == a + b[..|b| - 1];
      RevisionsAdd(records, a, b[..|b| - 1]);
    }
  }

  lemma RevisionsOfOne(records: map<string, Json>, name: string)
    requires name in records
    ensures var count := Field(Field(records[name], "ref"), "normalized_revisions");
      Revisions(records, [name]) == if count.Int? then Some(count.n) else None
  {
    assert [name][..0] == [];
    assert Revisions(records, []) == Some(0);
  }

  /** The names whose checkpoint satisfies `keep`, in order. */
  function Selected(records: map<string, Json>, names: seq<string>, keep: Json -> bool): seq<string>
    requires forall k | k in names :: k in records
  {
    if names == [] then []
    else
      var front, last := names[..|names| - 1], names[|names| - 1];
      Selected(records, front, keep) + if keep(records[last]) then [last] else []
  }

  /** The usable checkpoints, each listed once, in the order the files are visited. */
  lemma {:induction false} SelectedAdd(records: map<string, Json>, a: seq<string>, b: seq<string>, keep: Json -> bool)
    requires forall k | k in a + b :: k in records
    ensures (forall k | k in a :: k in records) && (forall k | k in b :: k in records)
    ensures Selected(records, a + b, keep) == Selected(records, a, keep) + Selected(records, b, keep)
  {
    assert forall k | k in a || k in b :: k in a + b;
    if b == [] {
      assert a + b == a;
    } else {
      assert (a + b)[..|a + b| - 1] == a + b[..|b| - 1];
      SelectedAdd(records, a, b[..|b| - 1], keep);
    }
  }

  lemma {:induction false} SelectedCounts(records: map<string, Json>, names: seq<string>, keep: Json -> bool, k: string)
    requires k in records && forall n | n in names :: n in records
    ensures multiset(Selected(records, names, keep))[k] == if keep(records[k]) then multiset(names)[k] else 0
  {
    if names != [] {
      var front, last := names[..|names| - 1], names[|names| - 1];
      SelectedCounts(records, front, keep, k);
      assert names == front + [last];
    }
  }

  /** The text before the first checkpoint, and between the last one and the release. */
  function Opening(): string {
    "{" + (Quoted("checkpoints") + ":") + "{"
  }

  function Closing(): string {
    "}," + (Quoted("run_id") + ":")
  }

  /** Everything fed to the hasher when the files are visited in the order `names`. */
  function Streamed(release: string, records: map<string, Json>, names: seq<string>): string
    requires forall k | k in names :: k in records
  {
    Opening() + Join(AsciiMembers(Obj(records), names)) + Closing() + AsciiQuoted(release) + "}"
  }

  /** The two literals the consumer writes are those texts. */
  lemma Literals()
    ensures "{\"checkpoints\":{" == Opening()
    ensures "},\"run_id\":" == Closing()
  {
    QuotedCheckpoints();
    QuotedRunId();
    CheckpointsLiteral(Quoted("checkpoints"));
    RunLiteral(Quoted("run_id"));
  }

  lemma QuotedCheckpoints()
    ensures Quoted("checkpoints") == "\"checkpoints\""
  {
    QuotedPlain("checkpoints", "\"checkpoints\"");
  }

  lemma QuotedRunId()
    ensures Quoted("run_id") == "\"run_id\""
  {
    QuotedPlain("run_id", "\"run_id\"");
  }

  lemma CheckpointsLiteral(quoted: string)
    requires quoted == "\"checkpoints\""
    ensures "{\"checkpoints\":{" == "{" + (quoted + ":") + "{"
  {
  }

  lemma RunLiteral(quoted: string)
    requires quoted == "\"run_id\""
    ensures "},\"run_id\":" == "}," + (quoted + ":")
  {
  }

  predicate Plain(s: string) {
    forall i | 0 <= i < |s| :: 32 <= s[i] as int && s[i] != '"' && s[i] != '\\'
  }

  lemma QuotedPlain(s: string, quoted: string)
    requires Plain(s) && quoted == "\"" + s + "\""
    ensures Quoted(s) == quoted
  {
    PlainText(s);
  }

  lemma {:induction false} PlainText(s: string)
    requires Plain(s)
    ensures EscapeAll(s) == s
  {
    if s != "" {
      PlainText(s[1..]);
    }
  }

  /** One more part after `front`: the separator is written before every part but the first. */
  lemma {:induction false} JoinAppend(front: seq<string>, last: string)
    ensures Join(front + [last]) == Join(front) + ((if front == [] then "" else ",") + last)
  {
    if |front| > 0 {
      JoinAppend(front[1..], last);
      assert (front + [last])[1..] == front[1..] + [last];
      if |front| == 1 { assert front[1..] + [last] == [last]; }
    } else {
      assert front + [last] == [last];
    }
  }

  lemma {:induction false} MembersAppend(j: Json, front: seq<string>, last: string)
    requires j.Obj? && last in j.fields && forall k | k in front :: k in j.fields
    ensures AsciiMembers(j, front + [last]) == AsciiMembers(j, front) + [AsciiMember(last, Encode(j.fields[last]))]
  {
    if front == [] {
      assert front + [last] == [last];
    } else {
      assert (front + [last])[1..] == front[1..] + [last];
      MembersAppend(j, front[1..], last);
    }
  }

  /** The joined members of the first `i` checkpoints. */
  function Body(records: map<string, Json>, names: seq<string>, i: nat): string
    requires i <= |names| && forall k | k in names :: k in records
  {
    Join(AsciiMembers(Obj(records), names[..i]))
  }

  lemma BodyGrows(records: map<string, Json>, names: seq<string>, i: nat, opening: string)
    requires i < |names| && forall k | k in names :: k in records
    ensures opening + Body(records, names, i + 1) ==
            opening + Body(records, names, i) +
            ((if i == 0 then "" else ",") + AsciiMember(names[i], Encode(records[names[i]])))
  {
    var member := AsciiMember(names[i], Encode(records[names[i]]));
    assert names[..i + 1] == names[..i] + [names[i]];
    MembersAppend(Obj(records), names[..i], names[i]);
    JoinAppend(AsciiMembers(Obj(records), names[..i]), member);
    Regroup(opening, Body(records, names, i), (if i == 0 then "" else ",") + member);
  }

  lemma SelectedGrows(records: map<string, Json>, names: seq<string>, keep: Json -> bool, i: nat)
    requires i < |names| && forall k | k in names :: k in records
    ensures Selected(records, names[..i + 1], keep) ==
            Selected(records, names[..i], keep) + if keep(records[names[i]]) then [names[i]] else []
  {
    assert names[..i + 1][..i] == names[..i];
  }

  /** The hasher is fed the separator, the key and the checkpoint, in three updates. */
  method Feed(hashed: string, first: bool, name: string, checkpoint: string) returns (r: string)
    ensures r == hashed + ((if first then "" else ",") + AsciiMember(name, checkpoint))
  {
    r := hashed;
    if !first {
      r := r + ",";
    }
    r := r + (AsciiQuoted(name) + ":");
    r := r + checkpoint;
  }

  predicate Complete(receipt: Receipt) {
    !receipt.stopped && receipt.attempted == receipt.discovered && receipt.certified == 0
  }

  /** The receipt pins the manifest, both name the same publication, and it was made from this release. */
  predicate Pinned(digest: string -> string, receipt: Receipt, root: Root, release: string) {
    var sources := Field(root.parsed, "source_releases");
    && digest(root.raw) == receipt.rootSha && Field(root.parsed, "release_id") == Str(receipt.releaseId)
    && sources.Arr? && Str(release) in sources.items
  }

  predicate PublicOnly(root: Root) {
    && Field(root.parsed, "rights") == Str("PUBLIC_SEC_ONLY")
    && Field(root.parsed, "licensed_sources_allowed") == Bool(false)
  }

  /** The three gates, in the words of the documents. */
  lemma GatesMean(digest: string -> string, receipt: Receipt, root: Root, release: string)
    ensures Pinned(digest, receipt, root, release) && PublicOnly(root) && Complete(receipt) <==>
      var sources := Field(root.parsed, "source_releases");
      && digest(root.raw) == receipt.rootSha && Field(root.parsed, "release_id") == Str(receipt.releaseId)
      && sources.Arr? && (exists i | 0 <= i < |sources.items| :: sources.items[i] == Str(release))
      && Field(root.parsed, "rights") == Str("PUBLIC_SEC_ONLY")
      && Field(root.parsed, "licensed_sources_allowed") == Bool(false)
      && !receipt.stopped && receipt.attempted == receipt.discovered && receipt.certified == 0
  {
  }

  /** The consumer's pass: one checkpoint in memory at a time, the identity hashed piece by piece. It accepts
      exactly when the manifest is pinned and public, the receipt complete, no checkpoint raises, the digest of
      the streamed text is the receipt's release, and the counts and revisions are the receipt's. */
  method SourceInventory(digest: string -> string, records: map<string, Json>, release: string, receipt: Receipt,
                         root: Root)
      returns (r: Outcome)
    ensures forall k | k in PathOrder(records) :: k in records
    ensures r.Inventory? <==>
      && Pinned(digest, receipt, root, release) && PublicOnly(root) && Complete(receipt)
      && (forall k | k in records :: Raises(k, records[k], release) == None)
      && digest(Streamed(release, records, PathOrder(records))) == receipt.releaseId
      && |records| == receipt.attempted && |Selected(records, PathOrder(records), Usable)| == receipt.usable
      && (forall k | k in Selected(records, PathOrder(records), Usable) :: k in records)
      && Revisions(records, Selected(records, PathOrder(records), Usable)) == Some(receipt.revisions)
    ensures r.Inventory? ==> r.usable == Selected(records, PathOrder(records), Usable)
    ensures r.Inventory? ==> r.hashed == Streamed(release, records, PathOrder(records)) && r.attempted == |records|
    ensures r.Inventory? ==> AllSourced(records, release)
  {
    PathOrderKeeps(records);
    PathOrderCounts(records);
    SelectedKept(records, PathOrder(records), Usable);
    AcceptedAreSourced(records, release);
    if !Pinned(digest, receipt, root, release) {
      return Failed(NotPinned);
    }
    if !PublicOnly(root) {
      return Failed(NotPublic);
    }
    if !Complete(receipt) {
      return Failed(NotComplete);
    }
    Literals();
    var raises: (string, Json) -> Option<Failure> := (k, c) => Raises(k, c, release);
    NoneRaisesAtAll(records, PathOrder(records), raises);
    r := HashCheckpoints(records, PathOrder(records), raises, Usable, "{\"checkpoints\":{");
    if r.Failed? {
      return;
    }
    var hashed := r.hashed + "},\"run_id\":" + AsciiQuoted(release) + "}";
    if digest(hashed) != receipt.releaseId {
      return Failed(WrongIdentity);
    }
    if r.attempted != receipt.attempted || |r.usable| != receipt.usable {
      return Failed(WrongCounts);
    }
    if Revisions(records, r.usable) != Some(receipt.revisions) {
      return Failed(WrongRevisions);
    }
    r := r.(hashed := hashed);
  }

  /** The files are visited each once, by ascending file name. */
  lemma PathOrderMeans(records: map<string, Json>)
    ensures forall k :: k in PathOrder(records) <==> k in records
    ensures |PathOrder(records)| == |records|
    ensures forall i, j | 0 <= i < j < |PathOrder(records)| ::
              Leq(PathOrder(records)[i] + ".json.gz", PathOrder(records)[j] + ".json.gz")
  {
    PathOrderKeeps(records);
    PathOrderCounts(records);
    var keys := Ascending(records.Keys);
    forall a, b | a in keys && b in keys && a + SUFFIX == b + SUFFIX ensures a == b { CutSuffix(a, b, SUFFIX); }
    TotalOnKeys((k: string) => k + SUFFIX, PathLeq, keys);
    SortSorts(PathLeq, keys);
    assert SortedBy(PathLeq, PathOrder(records));
  }

  lemma CutSuffix(a: string, b: string, suffix: string)
    requires a + suffix == b + suffix
    ensures a == b
  {
    assert |a| == |b| && a == (a + suffix)[..|a|] && b == (b + suffix)[..|b|];
  }

  lemma PathOrderCounts(records: map<string, Json>)
    ensures |PathOrder(records)| == |records|
  {
    PathOrderKeeps(records);
    AscendingCounts(records.Keys);
  }

  lemma {:induction false} AscendingCounts(names: set<string>)
    ensures |Ascending(names)| == |names|
  {
    if names != {} { AscendingCounts(names - {Least(names)}); }
  }

  lemma {:induction false} SelectedKept(records: map<string, Json>, names: seq<string>, keep: Json -> bool)
    requires forall k | k in names :: k in records
    ensures forall k | k in Selected(records, names, keep) :: k in names && keep(records[k])
  {
    if names != [] { SelectedKept(records, names[..|names| - 1], keep); }
  }

  ghost predicate NoneRaises(records: map<string, Json>, names: seq<string>, n: nat,
                             raises: (string, Json) -> Option<Failure>)
    requires n <= |names| && forall k | k in names :: k in records
  {
    forall i | 0 <= i < n :: raises(names[i], records[names[i]]) == None
  }

  lemma NoneRaisesAtAll(records: map<string, Json>, names: seq<string>, raises: (string, Json) -> Option<Failure>)
    requires forall k :: k in names <==> k in records
    ensures NoneRaises(records, names, |names|, raises) <==> forall k | k in records :: raises(k, records[k]) == None
  {
    if NoneRaises(records, names, |names|, raises) {
      forall k | k in records ensures raises(k, records[k]) == None {
        var i :| 0 <= i < |names| && names[i] == k;
      }
    }
  }

  method HashCheckpoints(records: map<string, Json>, names: seq<string>, raises: (string, Json) -> Option<Failure>,
                         keep: Json -> bool, opening: string) returns (r: Outcome)
    requires forall k | k in names :: k in records
    ensures r.Inventory? <==> NoneRaises(records, names, |names|, raises)
    ensures r.Failed? ==> exists k | k in names :: raises(k, records[k]) == Some(r.failure)
    ensures r.Inventory? ==>
      && r.hashed == opening + Join(AsciiMembers(Obj(records), names))
      && r.usable == Selected(records, names, keep)
      && r.attempted == |names|
  {
    var hashed, attempted, usable := opening, 0, [];
    HashedNone(records, names, keep, opening);
    while attempted < |names|
      invariant 0 <= attempted <= |names|
      invariant NoneRaises(records, names, attempted, raises)
      invariant HashedUpTo(records, names, keep, opening, attempted, hashed, usable)
    {
      var name := names[attempted];
      var checkpoint := records[name];
      var failure := raises(name, checkpoint);
      if failure.Some? {
        return Failed(failure.value);
      }
      HashedOneMore(records, names, keep, opening, attempted, hashed, usable);
      hashed := Feed(hashed, attempted == 0, name, Encode(checkpoint));
      usable := usable + if keep(checkpoint) then [name] else [];
      attempted := attempted + 1;
    }
    HashedAll(records, names, keep, opening, hashed, usable);
    r := Inventory(hashed, attempted, usable);
  }

  /** The digest and the usable list cover the first `n` checkpoints. */
  ghost predicate HashedUpTo(records: map<string, Json>, names: seq<string>, keep: Json -> bool, opening: string,
                             n: nat, hashed: string, usable: seq<string>)
    requires forall k | k in names :: k in records
  {
    n <= |names| && hashed == opening + Body(records, names, n) && usable == Selected(records, names[..n], keep)
  }

  lemma HashedNone(records: map<string, Json>, names: seq<string>, keep: Json -> bool, opening: string)
    requires forall k | k in names :: k in records
    ensures HashedUpTo(records, names, keep, opening, 0, opening, [])
  {
    assert names[..0] == [] && opening + "" == opening;
  }

  lemma HashedOneMore(records: map<string, Json>, names: seq<string>, keep: Json -> bool, opening: string, n: nat,
                      hashed: string, usable: seq<string>)
    requires n < |names| && forall k | k in names :: k in records
    requires HashedUpTo(records, names, keep, opening, n, hashed, usable)
    ensures HashedUpTo(records, names, keep, opening, n + 1,
              hashed + ((if n == 0 then "" else ",") + AsciiMember(names[n], Encode(records[names[n]]))),
              usable + if keep(records[names[n]]) then [names[n]] else [])
  {
    BodyGrows(records, names, n, opening);
    SelectedGrows(records, names, keep, n);
  }

  lemma HashedAll(records: map<string, Json>, names: seq<string>, keep: Json -> bool, opening: string,
                  hashed: string, usable: seq<string>)
    requires forall k | k in names :: k in records
    requires HashedUpTo(records, names, keep, opening, |names|, hashed, usable)
    ensures hashed == opening + Join(AsciiMembers(Obj(records), names)) && usable == Selected(records, names, keep)
  {
    assert names[..|names|] == names;
  }

  // ---------------------------------------------------------------- streamed == whole

  /** The whole document's text, in the shape of the streamed one. */
  lemma DocumentText(release: string, records: map<string, Json>)
    ensures forall k | k in Ascending(records.Keys) :: k in records
    ensures Encode(Document(release, records)) ==
            Opening() + Join(Members(Obj(records), Ascending(records.Keys))) + Closing() + Quoted(release) + "}"
  {
    assert Leq("checkpoints", "run_id");
    TwoFields("checkpoints", Obj(records), "run_id", Str(release));
    var body := Join(Members(Obj(records), Ascending(records.Keys)));
    Assemble(Quoted("checkpoints"), Encode(Obj(records)), body, Quoted("run_id"), Quoted(release));
  }

  lemma Assemble(first: string, whole: string, body: string, second: string, release: string)
    requires whole == "{" + body + "}"
    ensures "{" + (first + ":" + whole + "," + (second + ":" + release)) + "}" ==
            "{" + (first + ":") + "{" + body + ("}," + (second + ":")) + release + "}"
  {
  }

  lemma TwoFields(k: string, x: Json, l: string, y: Json)
    requires k != l && Leq(k, l)
    ensures Encode(Obj(map[l := y, k := x])) == "{" + (Member(k, Encode(x)) + "," + Member(l, Encode(y))) + "}"
  {
    var doc := Obj(map[l := y, k := x]);
    var keys := [k, l];
    assert forall n :: n in keys <==> n in doc.fields.Keys;
    AscendingUnique(doc.fields.Keys, keys);
    TwoMembers(doc, k, l);
  }

  lemma TwoMembers(doc: Json, k: string, l: string)
    requires doc.Obj? && k in doc.fields && l in doc.fields
    ensures Join(Members(doc, [k, l])) ==
            Member(k, Encode(doc.fields[k])) + "," + Member(l, Encode(doc.fields[l]))
  {
    var keys := [k, l];
    assert keys[1..] == [l];
    var p, q := Member(k, Encode(doc.fields[k])), Member(l, Encode(doc.fields[l]));
    assert Members(doc, [l]) == [q] + Members(doc, [l][1..]);
    assert Members(doc, keys) == [p] + Members(doc, keys[1..]);
    assert Members(doc, keys) == [p, q];
    assert [p, q][1..] == [q];
  }

  lemma SplitClosing(opening: string, body: string, key: string, release: string)
    ensures opening + body + ("}," + key) + release + "}" == opening + (body + "}" + ("," + key + release + "}"))
  {
  }

  /** Streaming `names` gives the text of some document exactly when it is this one, the names are visited in
      key order, and both encoders write the names and the release alike. */
  lemma StreamedIsDocument(release: string, records: map<string, Json>, names: seq<string>,
                           other: string, others: map<string, Json>)
    requires forall k | k in records :: WellFormed(records[k])
    requires forall k | k in others :: WellFormed(others[k])
    requires forall k :: k in names <==> k in records
    ensures Streamed(release, records, names) == Encode(Document(other, others)) <==>
            && release == other && records == others && names == Ascending(records.Keys)
            && IsAscii(release) && forall k | k in records :: IsAscii(k)
  {
    var keys := Ascending(others.Keys);
    DocumentText(other, others);
    var ours, theirs := AsciiMembers(Obj(records), names), Members(Obj(others), keys);
    var key := Quoted("run_id") + ":";
    SplitClosing(Opening(), Join(ours), key, AsciiQuoted(release));
    SplitClosing(Opening(), Join(theirs), key, Quoted(other));
    var tail, theirTail := "," + key + AsciiQuoted(release) + "}", "," + key + Quoted(other) + "}";
    if Streamed(release, records, names) == Encode(Document(other, others)) {
      Cut(Opening(), Closed(ours, "}", tail), Opening(), Closed(theirs, "}", theirTail));
      AsciiMembersPrefix(Obj(records), names, Obj(others), keys, tail, theirTail);
      SameFields(records, others, names);
      SameRelease(key, release, other);
    } else if release == other && records == others && names == Ascending(records.Keys)
              && IsAscii(release) && forall k | k in records :: IsAscii(k) {
      SharedMembers(Obj(records), names);
      SharedAlike(release);
    }
  }

  lemma SameRelease(key: string, release: string, other: string)
    requires "," + key + AsciiQuoted(release) + "}" == "," + key + Quoted(other) + "}"
    ensures release == other && IsAscii(release)
  {
    var head := "," + key;
    assert head + AsciiQuoted(release) + "}" == head + (AsciiQuoted(release) + "}");
    assert head + Quoted(other) + "}" == head + (Quoted(other) + "}");
    Cut(head, AsciiQuoted(release) + "}", head, Quoted(other) + "}");
    AsciiStringsUnique(release, other, "}", "}");
  }

  /** The streamed text is the whole document's text exactly when sorting the file paths visits the names in
      key order and no name and not the release has a character the two encoders write differently. */
  lemma StreamedEqualsWhole(release: string, records: map<string, Json>)
    requires forall k | k in records :: WellFormed(records[k])
    ensures forall k | k in PathOrder(records) :: k in records
    ensures Streamed(release, records, PathOrder(records)) == Encode(Document(release, records)) <==>
            && PathOrder(records) == Ascending(records.Keys)
            && IsAscii(release) && forall k | k in records :: IsAscii(k)
  {
    PathOrderKeeps(records);
    StreamedIsDocument(release, records, PathOrder(records), release, records);
  }

  /** Equally long names, such as ten-digit CIKs, are visited in key order. */
  lemma EqualLengthsInOrder(records: map<string, Json>, n: nat)
    requires forall k | k in records :: |k| == n
    ensures PathOrder(records) == Ascending(records.Keys)
  {
    var keys := Ascending(records.Keys);
    forall a, b | a in keys && b in keys ensures PathLeq(a, b) == Leq(a, b) { LeqWithSuffix(a, b, SUFFIX); }
    TotalOnStrings(keys);
    assert TotalOn(PathLeq, keys) by {
      forall a, b, c | a in keys && b in keys && c in keys && PathLeq(a, b) && PathLeq(b, c) ensures PathLeq(a, c) {
        LeqTransitive(a, b, c);
      }
    }
    SortKeeps(PathLeq, keys);
    SortSorts(PathLeq, keys);
    assert SortedBy(PathLeq, keys);
    SortedUnique(PathLeq, keys, Sort(PathLeq, keys));
  }

  /** Names of unequal length can be visited out of key order, and then the identities differ:
      `1-.json.gz` sorts before `1.json.gz`, but the key `1` before `1-`. */
  lemma UnequalLengthsDiffer(release: string, a: Json, b: Json)
    requires WellFormed(a) && WellFormed(b)
    ensures var records := map["1" := a, "1-" := b];
      && (forall k | k in PathOrder(records) :: k in records)
      && Streamed(release, records, PathOrder(records)) != Encode(Document(release, records))
  {
    var records := map["1" := a, "1-" := b];
    assert records.Keys == {"1", "1-"};
    ShortOrder(records);
    DisorderDiffers(release, records);
  }

  lemma DisorderDiffers(release: string, records: map<string, Json>)
    requires forall k | k in records :: WellFormed(records[k])
    requires PathOrder(records) != Ascending(records.Keys)
    ensures forall k | k in PathOrder(records) :: k in records
    ensures Streamed(release, records, PathOrder(records)) != Encode(Document(release, records))
  {
    StreamedEqualsWhole(release, records);
  }

  lemma ShortOrder(records: map<string, Json>)
    requires records.Keys == {"1", "1-"}
    ensures PathOrder(records) != Ascending(records.Keys)
  {
    ShortKeys();
    ShortPaths();
  }

  lemma ShortKeys()
    ensures Ascending({"1", "1-"}) == ["1", "1-"]
  {
    var keys := ["1", "1-"];
    assert Leq(keys[0], keys[1]);
    AscendingUnique({"1", "1-"}, keys);
  }

  lemma ShortPaths()
    ensures Sort(PathLeq, ["1", "1-"]) == ["1-", "1"]
  {
    assert !PathLeq("1", "1-") by { ShortNames(); }
    assert ["1", "1-"][1..] == ["1-"];
    assert Sort(PathLeq, ["1-"]) == ["1-"];
  }

  lemma ShortNames()
    ensures !Leq("1" + SUFFIX, "1-" + SUFFIX)
  {
    var a, b := "1" + SUFFIX, "1-" + SUFFIX;
    assert a[0] == b[0] && a[1..][0] == '.' && b[1..][0] == '-';
  }

  /** What a passing check proves: with a collision-free digest the checkpoints read are exactly the ones
      published, under the release they were published for; and it passes for those when their names are
      equally long and plain, as ten-digit CIKs and hexadecimal releases are. */
  lemma CheckedInventoryIsPublished(digest: string -> string, release: string, records: map<string, Json>,
                                    publishedRelease: string, published: map<string, Json>)
    requires forall x, y :: digest(x) == digest(y) ==> x == y
    requires forall k | k in records :: WellFormed(records[k])
    requires forall k | k in published :: WellFormed(published[k])
    ensures forall k | k in PathOrder(records) :: k in records
    ensures digest(Streamed(release, records, PathOrder(records))) ==
            digest(Encode(Document(publishedRelease, published)))
            <==> && release == publishedRelease && records == published
                 && PathOrder(records) == Ascending(records.Keys)
                 && IsAscii(release) && forall k | k in records :: IsAscii(k)
  {
    PathOrderKeeps(records);
    StreamedIsDocument(release, records, PathOrder(records), publishedRelease, published);
    var x, y := Streamed(release, records, PathOrder(records)), Encode(Document(publishedRelease, published));
    assert digest(x) == digest(y) <==> x == y;
  }
}
