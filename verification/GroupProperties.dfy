/** What group assignment promises, for every list of records. */
module GroupProperties {
  import opened TextOrder
  import opened DatasetGroups

  /** The result lists the records once each, sorted by path, with their facts unchanged. */
  lemma ResultIsSortedPermutation(records: seq<Record>, policy: Policy)
    requires AssignGroups(records, policy).Ok?
    ensures var result := AssignGroups(records, policy).value;
      Sources(result) == Sort(Sources(records))
      && multiset(Sources(result)) == multiset(Sources(records))
      && Sorted(Sources(result)) && DistinctPaths(Sources(result))
  {
    SortSorts(Sources(records));
    assert Sources(AssignGroups(records, policy).value) == Sort(Sources(records));
  }

  ghost predicate InjectiveDigest(policy: Policy) {
    forall a: set<Token>, b: set<Token> :: policy.digest(a) == policy.digest(b) ==> a == b
  }

  lemma LinkedSameGroup(records: set<Source>, r: Source, q: Source)
    requires Linked(records, r, q)
    ensures Group(records, r) == Group(records, q)
  {
    LinkedSymmetric(records, r, q);
    forall s | s in records
      ensures Linked(records, r, s) <==> Linked(records, q, s)
    {
      if Linked(records, r, s) { LinkedTransitive(records, q, r, s); }
      if Linked(records, q, s) { LinkedTransitive(records, r, q, s); }
    }
  }

  lemma TokensSeparate(records: set<Source>, r: Source, q: Source)
    requires r in records && q in records && Tokens(Group(records, r)) == Tokens(Group(records, q))
    ensures Linked(records, r, q)
  {
    LinkedSelf(records, r);
    var t := Rgb(r.rgbChecksum);
    assert t in Keys(r) by { assert Keys(r)[0] == t; }
    assert t in Tokens(Group(records, r));
    var s :| s in Group(records, q) && t in Keys(s);
    LinkedDirect(records, r, s);
    LinkedSymmetric(records, q, s);
    LinkedTransitive(records, r, s, q);
  }

  lemma AssignedRecord(records: seq<Record>, policy: Policy, i: nat)
    requires AssignGroups(records, policy).Ok? && i < |AssignGroups(records, policy).value|
    ensures var r := AssignGroups(records, policy).value[i];
      var decision := Decide(Group(Elements(Sources(records)), r.source), policy);
      && r.assignment.Some? && decision.Ok? && r.source in Elements(Sources(records))
      && r.assignment.value.splitGroup == policy.digest(Tokens(Group(Elements(Sources(records)), r.source)))
      && (r.assignment.value.splitGroup, r.assignment.value.split) == decision.value
  {
    SameElements(records);
    assert AssignGroups(records, policy).value[i] == Completed(Sort(Sources(records)), i, policy);
  }

  /** Records linked by any chain of shared pixels or identities get one group and one split. */
  lemma NoLeakage(records: seq<Record>, policy: Policy, i: nat, j: nat)
    requires AssignGroups(records, policy).Ok?
    requires i < |AssignGroups(records, policy).value| && j < |AssignGroups(records, policy).value|
    requires Linked(Elements(Sources(records)), AssignGroups(records, policy).value[i].source, AssignGroups(records, policy).value[j].source)
    ensures var a, b := AssignGroups(records, policy).value[i].assignment, AssignGroups(records, policy).value[j].assignment;
      a.Some? && b.Some? && a.value.splitGroup == b.value.splitGroup && a.value.split == b.value.split
  {
    AssignedRecord(records, policy, i);
    AssignedRecord(records, policy, j);
    LinkedSameGroup(Elements(Sources(records)), AssignGroups(records, policy).value[i].source, AssignGroups(records, policy).value[j].source);
  }

  /** When the digest is collision free, only linked records share a group identifier. */
  lemma GroupIdentifiersSeparate(records: seq<Record>, policy: Policy, i: nat, j: nat)
    requires AssignGroups(records, policy).Ok? && InjectiveDigest(policy)
    requires i < |AssignGroups(records, policy).value| && j < |AssignGroups(records, policy).value|
    requires AssignGroups(records, policy).value[i].assignment.Some? && AssignGroups(records, policy).value[j].assignment.Some?
    requires AssignGroups(records, policy).value[i].assignment.value.splitGroup
          == AssignGroups(records, policy).value[j].assignment.value.splitGroup
    ensures Linked(Elements(Sources(records)), AssignGroups(records, policy).value[i].source, AssignGroups(records, policy).value[j].source)
  {
    AssignedRecord(records, policy, i);
    AssignedRecord(records, policy, j);
    TokensSeparate(Elements(Sources(records)), AssignGroups(records, policy).value[i].source, AssignGroups(records, policy).value[j].source);
  }

  /** The splits declared in a group, where its labels are mapped. */
  function DeclaredSplits(group: set<Source>, policy: Policy): set<Split>
    requires forall name :: name in Labels(group) ==> name in policy.mapping
  {
    set name | name in Labels(group) :: policy.mapping[name]
  }

  lemma TwoElements(s: set<Split>, a: Split, b: Split)
    requires a in s && b in s
    ensures a != b ==> |s| >= 2
  {
    if a != b {
      assert |{a, b}| == 2;
      assert s == {a, b} + (s - {a, b});
    }
  }

  lemma AllSameSmall(s: set<Split>)
    requires forall a, b :: a in s && b in s ==> a == b
    ensures |s| <= 1
  {
    if a :| a in s {
      assert s == {a};
    }
  }

  predicate LabelsMapped(group: set<Source>, policy: Policy) {
    forall q :: q in group && q.upstreamSplit.Some? ==> q.upstreamSplit.value in policy.mapping
  }

  predicate LabelsAgree(group: set<Source>, policy: Policy)
    requires LabelsMapped(group, policy)
  {
    forall q, r :: q in group && r in group && q.upstreamSplit.Some? && r.upstreamSplit.Some? ==>
      policy.mapping[q.upstreamSplit.value] == policy.mapping[r.upstreamSplit.value]
  }

  /** A group can be decided exactly when each of its labels is mapped and no two declare different splits. */
  lemma DecidableExactly(group: set<Source>, policy: Policy)
    ensures Decide(group, policy).Ok? <==> LabelsMapped(group, policy) && LabelsAgree(group, policy)
  {
    if LabelsMapped(group, policy) {
      var declared := DeclaredSplits(group, policy);
      if |declared| <= 1 {
        forall q, r | q in group && r in group && q.upstreamSplit.Some? && r.upstreamSplit.Some?
          ensures policy.mapping[q.upstreamSplit.value] == policy.mapping[r.upstreamSplit.value]
        {
          assert q.upstreamSplit.value in Labels(group) && r.upstreamSplit.value in Labels(group);
          TwoElements(declared, policy.mapping[q.upstreamSplit.value], policy.mapping[r.upstreamSplit.value]);
        }
      }
      if forall a, b :: a in declared && b in declared ==> a == b {
        AllSameSmall(declared);
      }
    }
  }

  /** A declared label decides the split of its whole group. */
  lemma DeclaredSplitWins(group: set<Source>, policy: Policy, q: Source)
    requires Decide(group, policy).Ok? && q in group && q.upstreamSplit.Some?
    ensures q.upstreamSplit.value in policy.mapping
    ensures Decide(group, policy).value.1 == policy.mapping[q.upstreamSplit.value]
  {
    assert q.upstreamSplit.value in Labels(group);
    var declared := DeclaredSplits(group, policy);
    var split := policy.mapping[q.upstreamSplit.value];
    assert split in declared;
    forall other | other in declared
      ensures other == split
    {
      TwoElements(declared, other, split);
    }
  }

  /** So every record linked to a declared one gets the declared split. */
  lemma DeclaredSplitSpreads(records: seq<Record>, policy: Policy, i: nat, q: Source)
    requires AssignGroups(records, policy).Ok? && i < |AssignGroups(records, policy).value|
    requires Linked(Elements(Sources(records)), AssignGroups(records, policy).value[i].source, q)
    requires q in Elements(Sources(records)) && q.upstreamSplit.Some?
    ensures q.upstreamSplit.value in policy.mapping
    ensures
      var given := AssignGroups(records, policy).value[i].assignment;
      given.Some? && given.value.split == policy.mapping[q.upstreamSplit.value]
  {
    AssignedRecord(records, policy, i);
    DeclaredSplitWins(Group(Elements(Sources(records)), AssignGroups(records, policy).value[i].source), policy, q);
  }

  lemma SameElements(records: seq<Record>)
    ensures Elements(Sort(Sources(records))) == Elements(Sources(records))
  {
    var s := Sources(records);
    SortSorts(s);
    forall r | r in s
      ensures r in Sort(s)
    {
      InBoth(s, Sort(s), r);
    }
    forall r | r in Sort(s)
      ensures r in s
    {
      InBoth(Sort(s), s, r);
    }
  }

  /** The result does not depend on the order of the input, nor on earlier assignments in it. */
  lemma OrderIndependent(a: seq<Record>, b: seq<Record>, policy: Policy)
    requires multiset(Sources(a)) == multiset(Sources(b))
    ensures AssignGroups(a, policy) == AssignGroups(b, policy)
  {
    var s, t := Sources(a), Sources(b);
    SameLength(s, t);
    SortSorts(s);
    SortSorts(t);
    if DistinctPaths(Sort(s)) {
      SortedUnique(Sort(s), Sort(t));
    } else if DistinctPaths(Sort(t)) {
      SortedUnique(Sort(t), Sort(s));
    }
  }

  /** Assigning again returns the same list, which revalidation of a saved dataset relies on. */
  lemma AssigningAgain(records: seq<Record>, policy: Policy)
    requires AssignGroups(records, policy).Ok?
    ensures AssignGroups(AssignGroups(records, policy).value, policy) == AssignGroups(records, policy)
  {
    ResultIsSortedPermutation(records, policy);
    OrderIndependent(AssignGroups(records, policy).value, records, policy);
  }

  lemma {:induction false} FirstIsLeast(ordered: seq<Source>, checksum: string, i: nat)
    requires Sorted(ordered) && i < |ordered| && ordered[i].rgbChecksum == checksum
    ensures FirstWith(ordered, checksum) in ordered
    ensures FirstWith(ordered, checksum).rgbChecksum == checksum
    ensures AtMost(FirstWith(ordered, checksum).path, ordered[i].path)
  {
    if ordered[0].rgbChecksum == checksum {
      Total(ordered[0].path, ordered[0].path);
    } else {
      FirstIsLeast(ordered[1..], checksum, i - 1);
    }
  }

  /** The representative is the least path among the records with the same pixels. */
  lemma RepresentativeIsLeast(records: seq<Record>, policy: Policy, i: nat, r: Source)
    requires AssignGroups(records, policy).Ok? && i < |AssignGroups(records, policy).value|
    requires r in Sources(records) && r.rgbChecksum == AssignGroups(records, policy).value[i].source.rgbChecksum
    ensures var given := AssignGroups(records, policy).value[i];
      && given.assignment.Some?
      && given.assignment.value.duplicateGroup == given.source.rgbChecksum
      && AtMost(given.assignment.value.representative, r.path)
      && exists q :: q in Sources(records) && q.rgbChecksum == r.rgbChecksum && q.path == given.assignment.value.representative
  {
    var ordered := Sort(Sources(records));
    SortSorts(Sources(records));
    InBoth(Sources(records), ordered, r);
    assert AssignGroups(records, policy).value[i] == Completed(ordered, i, policy);
    var k :| 0 <= k < |ordered| && ordered[k] == r;
    FirstIsLeast(ordered, r.rgbChecksum, k);
    var q := FirstWith(ordered, r.rgbChecksum);
    InBoth(ordered, Sources(records), q);
  }

  // Adding unrelated records.

  ghost predicate Unrelated(extra: set<Source>, group: set<Source>) {
    forall e, q :: e in extra && q in group ==> !Shares(q, e)
  }

  lemma {:induction false} ChainStaysInGroup(records: set<Source>, extra: set<Source>, r: Source, p: seq<Source>)
    requires r in records && Unrelated(extra, Group(records, r))
    requires Chain(records + extra, p) && p[0] == r
    ensures p[|p| - 1] in Group(records, r)
    decreases |p|
  {
    if |p| == 1 {
      LinkedSelf(records, r);
    } else {
      var n := |p| - 1;
      var front, last := p[..n], p[n];
      forall i | 0 <= i < |front| - 1
        ensures Shares(front[i], front[i + 1])
      {
        assert Shares(p[i], p[i + 1]);
      }
      ChainStaysInGroup(records, extra, r, front);
      assert Shares(p[n - 1], p[n - 1 + 1]);
      assert last !in extra;
      LinkedDirect(records, p[n - 1], last);
      LinkedTransitive(records, r, p[n - 1], last);
    }
  }

  /** Records that share no token with a group leave the group as it was. */
  lemma GroupUnchanged(records: set<Source>, extra: set<Source>, r: Source)
    requires r in records && Unrelated(extra, Group(records, r))
    ensures Group(records + extra, r) == Group(records, r)
  {
    forall q | q in Group(records + extra, r)
      ensures q in Group(records, r)
    {
      var p :| Chain(records + extra, p) && p[0] == r && p[|p| - 1] == q;
      ChainStaysInGroup(records, extra, r, p);
    }
    forall q | q in Group(records, r)
      ensures q in Group(records + extra, r)
    {
      var p :| Chain(records, p) && p[0] == r && p[|p| - 1] == q;
      assert Chain(records + extra, p);
    }
  }

  /** A group's identifier and split are unchanged by adding records that share no token with it. */
  lemma SplitIsLocal(records: seq<Record>, extra: seq<Record>, policy: Policy, i: nat, j: nat)
    requires AssignGroups(records, policy).Ok? && AssignGroups(records + extra, policy).Ok?
    requires i < |AssignGroups(records, policy).value| && j < |AssignGroups(records + extra, policy).value|
    requires AssignGroups(records, policy).value[i].source == AssignGroups(records + extra, policy).value[j].source
    requires Unrelated(Elements(Sources(extra)), Group(Elements(Sources(records)), AssignGroups(records, policy).value[i].source))
    ensures var a, b := AssignGroups(records, policy).value[i].assignment, AssignGroups(records + extra, policy).value[j].assignment;
      a.Some? && b.Some? && a.value.splitGroup == b.value.splitGroup && a.value.split == b.value.split
  {
    var r := AssignGroups(records, policy).value[i].source;
    SameElements(records);
    SameElements(records + extra);
    ElementsOfSum(records, extra);
    assert AssignGroups(records, policy).value[i] == Completed(Sort(Sources(records)), i, policy);
    assert AssignGroups(records + extra, policy).value[j] == Completed(Sort(Sources(records + extra)), j, policy);
    GroupUnchanged(Elements(Sources(records)), Elements(Sources(extra)), r);
  }

  lemma ElementsOfSum(records: seq<Record>, extra: seq<Record>)
    ensures Elements(Sources(records + extra)) == Elements(Sources(records)) + Elements(Sources(extra))
  {
    assert Sources(records + extra) == Sources(records) + Sources(extra);
  }
}
