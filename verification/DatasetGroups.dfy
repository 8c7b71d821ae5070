/** Grouping of records that share pixels or an upstream identity, so that no group straddles two splits. */
module DatasetGroups {
  import opened TextOrder
  import opened Wrappers

  datatype SourceKind = UhdIqa | Local | HuggingFace | HttpsArchive | Upload

  datatype Split = Train | Tuning | HeldOut

  /** What is known of an image before it is assigned. */
  datatype Source = Source(
    path: string,
    rgbChecksum: string,
    identity: Option<string>,
    upstreamSplit: Option<string>,
    eligible: bool)

  datatype Assignment = Assignment(duplicateGroup: string, splitGroup: string, split: Split, representative: string)

  datatype Record = Record(source: Source, assignment: Option<Assignment>)

  datatype Failure = DatasetEmpty | DatasetGroupsConflict | DatasetTrainingEmpty

  /** What can link two records; the prefixes of the source's strings keep the two kinds apart. */
  datatype Token = Rgb(checksum: string) | Identity(identity: string)

  function Keys(r: Source): (keys: seq<Token>)
    ensures |keys| <= 2
  {
    [Rgb(r.rgbChecksum)] + if r.identity.Some? then [Identity(r.identity.value)] else []
  }

  /** The request: declared splits, the seed and the digests, which are SHA-256 values in the source. */
  datatype Policy = Policy(
    kind: SourceKind,
    seed: int,
    trainingIntended: bool,
    mapping: map<string, Split>,
    digest: set<Token> -> string,
    draw: (int, string) -> nat)

  // Sorting by path.

  function Insert(r: Source, sorted: seq<Source>): seq<Source> {
    if sorted == [] then [r]
    else if AtMost(r.path, sorted[0].path) then [r] + sorted
    else [sorted[0]] + Insert(r, sorted[1..])
  }

  function Sort(records: seq<Source>): seq<Source> {
    if records == [] then [] else Insert(records[0], Sort(records[1..]))
  }

  ghost predicate Sorted(s: seq<Source>) {
    forall i, j :: 0 <= i < j < |s| ==> AtMost(s[i].path, s[j].path)
  }

  ghost predicate DistinctPaths(s: seq<Source>) {
    forall i, j :: 0 <= i < j < |s| ==> s[i].path != s[j].path
  }

  lemma {:induction false} InsertAdds(r: Source, s: seq<Source>)
    ensures multiset(Insert(r, s)) == multiset(s) + multiset{r}
  {
    if s != [] && !AtMost(r.path, s[0].path) {
      InsertAdds(r, s[1..]);
      assert s == [s[0]] + s[1..];
    }
  }

  lemma {:induction false} InsertSorts(r: Source, s: seq<Source>)
    requires Sorted(s)
    ensures Sorted(Insert(r, s))
  {
    if s == [] {
    } else if AtMost(r.path, s[0].path) {
      forall j | 0 <= j < |s|
        ensures AtMost(r.path, s[j].path)
      {
        if j > 0 { Transitive(r.path, s[0].path, s[j].path); }
      }
    } else {
      Total(r.path, s[0].path);
      var rest := Insert(r, s[1..]);
      InsertSorts(r, s[1..]);
      InsertAdds(r, s[1..]);
      forall j | 0 <= j < |rest|
        ensures AtMost(s[0].path, rest[j].path)
      {
        assert rest[j] in multiset(rest);
        assert rest[j] == r || rest[j] in s[1..];
      }
    }
  }

  lemma {:induction false} SortSorts(s: seq<Source>)
    ensures Sorted(Sort(s)) && multiset(Sort(s)) == multiset(s)
  {
    if s != [] {
      SortSorts(s[1..]);
      InsertAdds(s[0], Sort(s[1..]));
      InsertSorts(s[0], Sort(s[1..]));
      assert s == [s[0]] + s[1..];
    }
  }

  lemma SameLength(a: seq<Source>, b: seq<Source>)
    requires multiset(a) == multiset(b)
    ensures |a| == |b|
  {
    assert |a| == |multiset(a)| && |b| == |multiset(b)|;
  }

  lemma InBoth(a: seq<Source>, b: seq<Source>, x: Source)
    requires multiset(a) == multiset(b) && x in a
    ensures x in b
  {
    assert x in multiset(a);
  }

  /** A list with distinct paths has only one sorted arrangement. */
  lemma {:induction false} SortedUnique(a: seq<Source>, b: seq<Source>)
    requires Sorted(a) && Sorted(b) && multiset(a) == multiset(b) && DistinctPaths(a)
    ensures a == b
  {
    SameLength(a, b);
    if a != [] {
      InBoth(a, b, a[0]);
      InBoth(b, a, b[0]);
      if a[0] != b[0] {
        assert AtMost(a[0].path, b[0].path) && AtMost(b[0].path, a[0].path);
        Antisymmetric(a[0].path, b[0].path);
      }
      assert a == [a[0]] + a[1..] && b == [b[0]] + b[1..];
      assert multiset(a[1..]) == multiset(a) - multiset{a[0]};
      assert multiset(b[1..]) == multiset(b) - multiset{b[0]};
      SortedUnique(a[1..], b[1..]);
    }
  }

  // Linked records.

  predicate Shares(r: Source, q: Source) {
    exists t :: t in Keys(r) && t in Keys(q)
  }

  /** A chain of records of a set in which every record shares a token with the next. */
  ghost predicate Chain(records: set<Source>, p: seq<Source>) {
    && p != []
    && (forall i :: 0 <= i < |p| ==> p[i] in records)
    && (forall i :: 0 <= i < |p| - 1 ==> Shares(p[i], p[i + 1]))
  }

  ghost predicate Linked(records: set<Source>, r: Source, q: Source) {
    exists p :: Chain(records, p) && p[0] == r && p[|p| - 1] == q
  }

  lemma LinkedSelf(records: set<Source>, r: Source)
    requires r in records
    ensures Linked(records, r, r)
  {
    assert Chain(records, [r]);
  }

  lemma LinkedDirect(records: set<Source>, r: Source, q: Source)
    requires r in records && q in records && Shares(r, q)
    ensures Linked(records, r, q)
  {
    assert Chain(records, [r, q]);
  }

  function Reversed(p: seq<Source>): (r: seq<Source>)
    ensures |r| == |p| && forall i :: 0 <= i < |p| ==> r[i] == p[|p| - 1 - i]
  {
    seq(|p|, i requires 0 <= i < |p| => p[|p| - 1 - i])
  }

  lemma LinkedSymmetric(records: set<Source>, r: Source, q: Source)
    requires Linked(records, r, q)
    ensures Linked(records, q, r)
  {
    var p :| Chain(records, p) && p[0] == r && p[|p| - 1] == q;
    var back := Reversed(p);
    forall i | 0 <= i < |back| - 1
      ensures Shares(back[i], back[i + 1])
    {
      assert Shares(p[|p| - 2 - i], p[|p| - 2 - i + 1]);
    }
    assert Chain(records, back);
  }

  lemma LinkedTransitive(records: set<Source>, r: Source, q: Source, s: Source)
    requires Linked(records, r, q) && Linked(records, q, s)
    ensures Linked(records, r, s)
  {
    var p1 :| Chain(records, p1) && p1[0] == r && p1[|p1| - 1] == q;
    var p2 :| Chain(records, p2) && p2[0] == q && p2[|p2| - 1] == s;
    var p := p1 + p2[1..];
    forall i | 0 <= i < |p| - 1
      ensures Shares(p[i], p[i + 1])
    {
      if i >= |p1| - 1 {
        assert p[i] == p2[i - |p1| + 1] && p[i + 1] == p2[i - |p1| + 2];
      }
    }
    assert Chain(records, p);
  }

  ghost function Group(records: set<Source>, r: Source): set<Source> {
    set q | q in records && Linked(records, r, q)
  }

  // Decisions.

  function Tokens(group: set<Source>): set<Token> {
    set q, t | q in group && t in Keys(q) :: t
  }

  function Labels(group: set<Source>): set<string> {
    set q | q in group && q.upstreamSplit.Some? :: q.upstreamSplit.value
  }

  function Bucket(draw: nat): Split {
    if draw % 100 < 80 then Train else if draw % 100 < 90 then Tuning else HeldOut
  }

  /** The identifier and split of a whole group. */
  function Decide(group: set<Source>, policy: Policy): Result<(string, Split), Failure> {
    var identifier := policy.digest(Tokens(group));
    var labels := Labels(group);
    if exists name :: name in labels && name !in policy.mapping then Err(DatasetGroupsConflict)
    else
      var declared := set name | name in labels :: policy.mapping[name];
      if |declared| > 1 then Err(DatasetGroupsConflict)
      else if Train in declared then Ok((identifier, Train))
      else if Tuning in declared then Ok((identifier, Tuning))
      else if HeldOut in declared then Ok((identifier, HeldOut))
      else Ok((identifier, Bucket(policy.draw(policy.seed, identifier))))
  }

  predicate IsRemote(kind: SourceKind) {
    kind == HuggingFace || kind == HttpsArchive || kind == Upload
  }

  predicate DeclarationsAllowed(records: set<Source>, kind: SourceKind) {
    var declared := set r | r in records && r.upstreamSplit.Some?;
    && !(kind == Local && declared != {})
    && !(kind == UhdIqa && (declared != records || exists r :: r in records && r.identity.None?))
    && !(IsRemote(kind) && declared != {} && declared != records)
    && !(exists r :: r in declared && r.identity.None?)
  }

  /** The first record of an ordered list with a given checksum. */
  function FirstWith(ordered: seq<Source>, checksum: string): Source
    requires exists i :: 0 <= i < |ordered| && ordered[i].rgbChecksum == checksum
  {
    if ordered[0].rgbChecksum == checksum then ordered[0] else FirstWith(ordered[1..], checksum)
  }

  function Elements(s: seq<Source>): set<Source> {
    set r | r in s
  }

  ghost function Completed(ordered: seq<Source>, i: nat, policy: Policy): Record
    requires i < |ordered| && Decide(Group(Elements(ordered), ordered[i]), policy).Ok?
  {
    var r := ordered[i];
    var (identifier, split) := Decide(Group(Elements(ordered), r), policy).value;
    Record(r, Some(Assignment(r.rgbChecksum, identifier, split, FirstWith(ordered, r.rgbChecksum).path)))
  }

  predicate HasTrainingImage(result: seq<Record>) {
    exists k :: 0 <= k < |result| && result[k].source.eligible && result[k].assignment.Some?
      && result[k].assignment.value.split == Train
      && result[k].assignment.value.representative == result[k].source.path
  }

  ghost predicate AllDecided(ordered: seq<Source>, policy: Policy) {
    forall i :: 0 <= i < |ordered| ==> Decide(Group(Elements(ordered), ordered[i]), policy).Ok?
  }

  ghost function CompletedAll(ordered: seq<Source>, policy: Policy): (result: seq<Record>)
    requires AllDecided(ordered, policy)
    ensures |result| == |ordered| && forall i :: 0 <= i < |ordered| ==> result[i] == Completed(ordered, i, policy)
  {
    seq(|ordered|, i requires 0 <= i < |ordered| => Completed(ordered, i, policy))
  }

  ghost function AssignInOrder(ordered: seq<Source>, policy: Policy): Result<seq<Record>, Failure> {
    if !DistinctPaths(ordered) || !DeclarationsAllowed(Elements(ordered), policy.kind) then Err(DatasetGroupsConflict)
    else if !AllDecided(ordered, policy) then Err(DatasetGroupsConflict)
    else if policy.trainingIntended && !HasTrainingImage(CompletedAll(ordered, policy)) then Err(DatasetTrainingEmpty)
    else Ok(CompletedAll(ordered, policy))
  }

  function Sources(records: seq<Record>): (s: seq<Source>)
    ensures |s| == |records| && forall i :: 0 <= i < |s| ==> s[i] == records[i].source
  {
    seq(|records|, i requires 0 <= i < |records| => records[i].source)
  }

  /** What assignment gives: a function of the records' own facts. */
  ghost function AssignGroups(records: seq<Record>, policy: Policy): Result<seq<Record>, Failure> {
    if records == [] then Err(DatasetEmpty)
    else AssignInOrder(Sort(Sources(records)), policy)
  }
}
