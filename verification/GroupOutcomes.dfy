/** What group assignment computes, said without the functions that compute it: which records are related, the
    identifier and split of a group, and exactly when records are refused. */
module GroupOutcomes {
  import opened TextOrder
  import opened DatasetGroups
  import opened GroupProperties
  import opened Wrappers

  // Groups.

  /** Two images are related directly when they have the same pixels or the same upstream identity. */
  predicate Touch(r: Source, q: Source) {
    r.rgbChecksum == q.rgbChecksum || (r.identity.Some? && r.identity == q.identity)
  }

  lemma KeysAre(r: Source, t: Token)
    ensures t in Keys(r) <==> t == Rgb(r.rgbChecksum) || (r.identity.Some? && t == Identity(r.identity.value))
  {
    assert Keys(r)[0] == Rgb(r.rgbChecksum);
    if r.identity.Some? {
      assert Keys(r)[1] == Identity(r.identity.value);
    }
  }

  lemma SharesIsTouch(r: Source, q: Source)
    ensures Shares(r, q) <==> Touch(r, q)
  {
    forall t
      ensures t in Keys(r) <==> t == Rgb(r.rgbChecksum) || (r.identity.Some? && t == Identity(r.identity.value))
      ensures t in Keys(q) <==> t == Rgb(q.rgbChecksum) || (q.identity.Some? && t == Identity(q.identity.value))
    {
      KeysAre(r, t);
      KeysAre(q, t);
    }
    if r.rgbChecksum == q.rgbChecksum {
      assert Rgb(r.rgbChecksum) in Keys(r) && Rgb(r.rgbChecksum) in Keys(q);
    } else if r.identity.Some? && r.identity == q.identity {
      assert Identity(r.identity.value) in Keys(r) && Identity(r.identity.value) in Keys(q);
    }
  }

  /** Nothing outside touches anything inside. */
  predicate Closed(records: set<Source>, inside: set<Source>) {
    forall q, s :: q in inside && s in records && Touch(q, s) ==> s in inside
  }

  /** The group of a record is the least set that holds it and all that touch one of its members. */
  lemma GroupIsLeastClosed(records: set<Source>, r: Source)
    requires r in records
    ensures r in Group(records, r) && Group(records, r) <= records && Closed(records, Group(records, r))
    ensures forall inside :: r in inside && Closed(records, inside) ==> Group(records, r) <= inside
  {
    LinkedSelf(records, r);
    forall q, s | q in Group(records, r) && s in records && Touch(q, s)
      ensures s in Group(records, r)
    {
      SharesIsTouch(q, s);
      LinkedDirect(records, q, s);
      LinkedTransitive(records, r, q, s);
    }
    forall inside, q | r in inside && Closed(records, inside) && q in Group(records, r)
      ensures q in inside
    {
      var p :| Chain(records, p) && p[0] == r && p[|p| - 1] == q;
      ChainStaysInside(records, inside, p);
    }
  }

  lemma {:induction false} ChainStaysInside(records: set<Source>, inside: set<Source>, p: seq<Source>)
    requires Chain(records, p) && p[0] in inside && Closed(records, inside)
    ensures p[|p| - 1] in inside
    decreases |p|
  {
    if |p| > 1 {
      var front := p[..|p| - 1];
      forall i | 0 <= i < |front| - 1
        ensures Shares(front[i], front[i + 1])
      {
        assert Shares(p[i], p[i + 1]);
      }
      ChainStaysInside(records, inside, front);
      assert Shares(p[|p| - 2], p[|p| - 2 + 1]);
      SharesIsTouch(p[|p| - 2], p[|p| - 1]);
    }
  }

  /** All records' own facts, as a set. */
  function All(records: seq<Record>): set<Source> {
    set record | record in records :: record.source
  }

  lemma AllIsElements(records: seq<Record>)
    ensures All(records) == Elements(Sources(records))
  {
    forall r | r in All(records)
      ensures r in Elements(Sources(records))
    {
      var record :| record in records && record.source == r;
      var i :| 0 <= i < |records| && records[i] == record;
      assert Sources(records)[i] == r;
    }
  }

  // Identifier and split.

  /** The identifier of a group is the digest of its members' checksums and identities. */
  lemma IdentifierIsDigest(records: seq<Record>, policy: Policy, i: nat)
    requires AssignGroups(records, policy).Ok? && i < |AssignGroups(records, policy).value|
    ensures
      var given := AssignGroups(records, policy).value[i];
      var group := Group(All(records), given.source);
      && given.assignment.Some?
      && given.assignment.value.splitGroup ==
        policy.digest((set q | q in group :: Rgb(q.rgbChecksum)) + (set q | q in group && q.identity.Some? :: Identity(q.identity.value)))
  {
    AllIsElements(records);
    AssignedRecord(records, policy, i);
    TokensAre(Group(All(records), AssignGroups(records, policy).value[i].source));
  }

  lemma TokensAre(group: set<Source>)
    ensures Tokens(group) == (set q | q in group :: Rgb(q.rgbChecksum)) + (set q | q in group && q.identity.Some? :: Identity(q.identity.value))
  {
    var checksums := set q | q in group :: Rgb(q.rgbChecksum);
    var identities := set q | q in group && q.identity.Some? :: Identity(q.identity.value);
    forall t | t in Tokens(group)
      ensures t in checksums + identities
    {
      var q :| q in group && t in Keys(q);
      KeysAre(q, t);
    }
    forall q | q in group
      ensures Rgb(q.rgbChecksum) in Tokens(group) && (q.identity.Some? ==> Identity(q.identity.value) in Tokens(group))
    {
      KeysAre(q, Rgb(q.rgbChecksum));
      if q.identity.Some? {
        KeysAre(q, Identity(q.identity.value));
      }
    }
  }

  predicate Undeclared(group: set<Source>) {
    forall q :: q in group ==> q.upstreamSplit == None
  }

  /** Of a hundred draws eighty are for training, ten for tuning and ten held out. */
  predicate DrawnAs(bucket: nat, split: Split) {
    && (split == Train <==> bucket < 80)
    && (split == Tuning <==> 80 <= bucket < 90)
    && (split == HeldOut <==> 90 <= bucket)
  }

  lemma UndeclaredIsDrawn(group: set<Source>, policy: Policy)
    requires Undeclared(group)
    ensures Decide(group, policy).Ok?
    ensures DrawnAs(policy.draw(policy.seed, Decide(group, policy).value.0) % 100, Decide(group, policy).value.1)
  {
    assert Labels(group) == {};
  }

  /** A record none of whose group declares a split gets the one its group identifier draws. */
  lemma DrawnSplit(records: seq<Record>, policy: Policy, i: nat)
    requires AssignGroups(records, policy).Ok? && i < |AssignGroups(records, policy).value|
    requires Undeclared(Group(All(records), AssignGroups(records, policy).value[i].source))
    ensures var given := AssignGroups(records, policy).value[i].assignment;
      given.Some? && DrawnAs(policy.draw(policy.seed, given.value.splitGroup) % 100, given.value.split)
  {
    AllIsElements(records);
    AssignedRecord(records, policy, i);
    UndeclaredIsDrawn(Group(All(records), AssignGroups(records, policy).value[i].source), policy);
  }

  // Refusals.

  predicate PathsDiffer(records: seq<Record>) {
    forall i, j :: 0 <= i < j < |records| ==> records[i].source.path != records[j].source.path
  }

  /** What each kind of source may declare. */
  predicate DeclarationsFit(records: set<Source>, kind: SourceKind) {
    match kind
    case Local => forall r :: r in records ==> r.upstreamSplit == None
    case UhdIqa => forall r :: r in records ==> r.upstreamSplit.Some? && r.identity.Some?
    case _ =>
      || (forall r :: r in records ==> r.upstreamSplit == None)
      || (forall r :: r in records ==> r.upstreamSplit.Some? && r.identity.Some?)
  }

  lemma AllowedIsFitting(records: set<Source>, kind: SourceKind)
    ensures DeclarationsAllowed(records, kind) <==> DeclarationsFit(records, kind)
  {
    var declared := set r | r in records && r.upstreamSplit.Some?;
    assert declared == records <==> forall r :: r in records ==> r.upstreamSplit.Some? by {
      assert forall r :: r in records && r.upstreamSplit.Some? <==> r in declared;
    }
    assert declared == {} <==> forall r :: r in records ==> r.upstreamSplit == None by {
      assert forall r :: r in records && r.upstreamSplit.Some? <==> r in declared;
    }
  }

  /** A group goes to training when a member declares a split that is mapped to it, or none declares any and the
      draw falls so. */
  predicate Trains(group: set<Source>, policy: Policy)
    requires LabelsMapped(group, policy)
  {
    if Undeclared(group) then
      policy.draw(policy.seed, policy.digest(Tokens(group))) % 100 < 80
    else exists q :: q in group && q.upstreamSplit.Some? && policy.mapping[q.upstreamSplit.value] == Train
  }

  ghost predicate GroupsAgree(records: set<Source>, policy: Policy) {
    forall r :: r in records ==> LabelsMapped(Group(records, r), policy) && LabelsAgree(Group(records, r), policy)
  }

  predicate LeastOfItsPixels(records: set<Source>, r: Source) {
    forall q :: q in records && q.rgbChecksum == r.rgbChecksum ==> AtMost(r.path, q.path)
  }

  /** Some eligible image, the first with its pixels, is for training. */
  ghost predicate SomeTraining(records: set<Source>, policy: Policy)
    requires GroupsAgree(records, policy)
  {
    exists r :: r in records && r.eligible && LeastOfItsPixels(records, r) && Trains(Group(records, r), policy)
  }

  lemma TrainsIsDecided(group: set<Source>, policy: Policy)
    requires LabelsMapped(group, policy) && LabelsAgree(group, policy)
    ensures Decide(group, policy).Ok? && (Decide(group, policy).value.1 == Train <==> Trains(group, policy))
  {
    DecidableExactly(group, policy);
    if Undeclared(group) {
      UndeclaredIsDrawn(group, policy);
    } else {
      var q :| q in group && q.upstreamSplit.Some?;
      DeclaredSplitWins(group, policy, q);
    }
  }

  lemma DistinctIsDiffering(records: seq<Record>)
    ensures DistinctPaths(Sort(Sources(records))) <==> PathsDiffer(records)
  {
    var s := Sources(records);
    SortSorts(s);
    SameLength(Sort(s), s);
    if PathsDiffer(records) {
      PathsCountOnce(s);
      PathsCountedOnce(Sort(s), s);
    }
    if DistinctPaths(Sort(s)) {
      PathsCountOnce(Sort(s));
      PathsCountedOnce(s, Sort(s));
      forall i, j | 0 <= i < j < |records|
        ensures records[i].source.path != records[j].source.path
      {
        assert s[i] == records[i].source && s[j] == records[j].source;
      }
    }
  }

  /** No path comes twice, as a property of the multiset. */
  ghost predicate PathsOnce(m: multiset<Source>) {
    && (forall r :: r in m ==> m[r] == 1)
    && forall r, q :: r in m && q in m && r.path == q.path ==> r == q
  }

  lemma PathsCountOnce(s: seq<Source>)
    requires DistinctPaths(s)
    ensures PathsOnce(multiset(s))
  {
    forall r | r in multiset(s)
      ensures multiset(s)[r] == 1
    {
      var i :| 0 <= i < |s| && s[i] == r;
      assert s == s[..i] + [r] + s[i + 1..];
      assert r !in s[..i] && r !in s[i + 1..];
    }
  }

  lemma PathsCountedOnce(s: seq<Source>, t: seq<Source>)
    requires multiset(s) == multiset(t) && PathsOnce(multiset(t))
    ensures DistinctPaths(s)
  {
    forall i, j | 0 <= i < j < |s|
      ensures s[i].path != s[j].path
    {
      assert s[i] in multiset(s) && s[j] in multiset(s);
      assert s == s[..j] + [s[j]] + s[j + 1..];
      assert s[..j][i] == s[i];
      assert multiset(s)[s[j]] >= multiset(s[..j])[s[j]] + 1;
    }
  }

  lemma AgreeingIsDecided(records: seq<Record>, policy: Policy)
    ensures AllDecided(Sort(Sources(records)), policy) <==> GroupsAgree(All(records), policy)
  {
    var ordered := Sort(Sources(records));
    AllIsElements(records);
    SameElements(records);
    forall r | r in All(records)
      ensures Decide(Group(All(records), r), policy).Ok? <==>
        LabelsMapped(Group(All(records), r), policy) && LabelsAgree(Group(All(records), r), policy)
    {
      DecidableExactly(Group(All(records), r), policy);
    }
    if AllDecided(ordered, policy) {
      forall r | r in All(records)
        ensures Decide(Group(All(records), r), policy).Ok?
      {
        assert r in ordered;
        var i :| 0 <= i < |ordered| && ordered[i] == r;
      }
    }
    forall i | 0 <= i < |ordered|
      ensures ordered[i] in All(records)
    {
      assert ordered[i] in Elements(ordered);
    }
  }

  lemma FirstIsLeastOne(ordered: seq<Source>, i: nat)
    requires Sorted(ordered) && DistinctPaths(ordered) && i < |ordered|
    ensures FirstWith(ordered, ordered[i].rgbChecksum).path == ordered[i].path <==> LeastOfItsPixels(Elements(ordered), ordered[i])
  {
    var first := FirstWith(ordered, ordered[i].rgbChecksum);
    forall j | 0 <= j < |ordered| && ordered[j].rgbChecksum == ordered[i].rgbChecksum
      ensures AtMost(first.path, ordered[j].path)
    {
      FirstIsLeast(ordered, ordered[i].rgbChecksum, j);
    }
    FirstIsLeast(ordered, ordered[i].rgbChecksum, i);
    if LeastOfItsPixels(Elements(ordered), ordered[i]) {
      assert first in Elements(ordered);
      Antisymmetric(first.path, ordered[i].path);
    }
  }

  lemma TrainingIsSome(records: seq<Record>, policy: Policy)
    requires PathsDiffer(records) && GroupsAgree(All(records), policy)
    ensures AllDecided(Sort(Sources(records)), policy)
    ensures HasTrainingImage(CompletedAll(Sort(Sources(records)), policy)) <==> SomeTraining(All(records), policy)
  {
    var ordered := Sort(Sources(records));
    AgreeingIsDecided(records, policy);
    AllIsElements(records);
    SameElements(records);
    SortSorts(Sources(records));
    DistinctIsDiffering(records);
    var result := CompletedAll(ordered, policy);
    forall k | 0 <= k < |ordered|
      ensures result[k].assignment.Some? && result[k].source == ordered[k] && ordered[k] in All(records)
      ensures result[k].assignment.value.split == Train <==> Trains(Group(All(records), ordered[k]), policy)
      ensures result[k].assignment.value.representative == ordered[k].path <==> LeastOfItsPixels(All(records), ordered[k])
    {
      assert result[k] == Completed(ordered, k, policy);
      assert ordered[k] in Elements(ordered);
      TrainsIsDecided(Group(All(records), ordered[k]), policy);
      FirstIsLeastOne(ordered, k);
    }
    if SomeTraining(All(records), policy) {
      var r :| r in All(records) && r.eligible && LeastOfItsPixels(All(records), r) && Trains(Group(All(records), r), policy);
      assert r in ordered;
      var k :| 0 <= k < |ordered| && ordered[k] == r;
      assert result[k].source.eligible;
    }
  }

  /** Records are refused exactly when there are none, when a path comes twice, declarations do not fit the source or a
      group's declared splits are unknown or disagree, and when training is intended and nothing is left to train on. */
  lemma AssignedExactly(records: seq<Record>, policy: Policy)
    ensures
      var sound := PathsDiffer(records) && DeclarationsFit(All(records), policy.kind) && GroupsAgree(All(records), policy);
      match AssignGroups(records, policy)
      case Err(DatasetEmpty) => records == []
      case Err(DatasetGroupsConflict) => records != [] && !sound
      case Err(DatasetTrainingEmpty) => records != [] && sound && policy.trainingIntended && !SomeTraining(All(records), policy)
      case Ok(_) => records != [] && sound && (policy.trainingIntended ==> SomeTraining(All(records), policy))
  {
    AllIsElements(records);
    SameElements(records);
    DistinctIsDiffering(records);
    AllowedIsFitting(All(records), policy.kind);
    AgreeingIsDecided(records, policy);
    if PathsDiffer(records) && GroupsAgree(All(records), policy) {
      TrainingIsSome(records, policy);
    }
  }
}
