/** The assignment loops of the grouping service, proved against the declarative groups. */
module DatasetAssignment {
  import opened DisjointSets
  import opened DatasetGroups
  import opened Wrappers

  /** Roots only join linked records. */
  ghost predicate RootsLinked(ordered: seq<Source>, root: seq<nat>) {
    |root| == |ordered| && forall i, j :: 0 <= i < |root| && 0 <= j < |root| && root[i] == root[j] ==>
      Linked(Elements(ordered), ordered[i], ordered[j])
  }

  ghost predicate SharersJoined(ordered: seq<Source>, root: seq<nat>) {
    |root| == |ordered| && forall i, j :: 0 <= i < |root| && 0 <= j < |root| && Shares(ordered[i], ordered[j]) ==>
      root[i] == root[j]
  }

  /** Two records have the same root exactly when a chain of shared tokens links them. */
  ghost predicate RootsAreGroups(ordered: seq<Source>, root: seq<nat>) {
    |root| == |ordered| && forall i, j :: 0 <= i < |root| && 0 <= j < |root| ==>
      (root[i] == root[j] <==> Linked(Elements(ordered), ordered[i], ordered[j]))
  }

  lemma {:induction false} ChainHasOneRoot(ordered: seq<Source>, root: seq<nat>, p: seq<Source>, i: nat, j: nat)
    requires SharersJoined(ordered, root) && DistinctPaths(ordered)
    requires Chain(Elements(ordered), p) && i < |ordered| && j < |ordered|
    requires p[0] == ordered[i] && p[|p| - 1] == ordered[j]
    ensures root[i] == root[j]
    decreases |p|
  {
    if |p| > 1 {
      assert p[1] in Elements(ordered);
      var k :| 0 <= k < |ordered| && ordered[k] == p[1];
      assert Shares(p[0], p[0 + 1]);
      var rest := p[1..];
      forall m | 0 <= m < |rest| - 1
        ensures Shares(rest[m], rest[m + 1])
      {
        assert Shares(p[m + 1], p[m + 1 + 1]);
      }
      ChainHasOneRoot(ordered, root, rest, k, j);
    }
  }

  lemma JoinedRootsAreGroups(ordered: seq<Source>, root: seq<nat>)
    requires RootsLinked(ordered, root) && SharersJoined(ordered, root) && DistinctPaths(ordered)
    ensures RootsAreGroups(ordered, root)
  {
    forall i, j | 0 <= i < |root| && 0 <= j < |root| && Linked(Elements(ordered), ordered[i], ordered[j])
      ensures root[i] == root[j]
    {
      var p :| Chain(Elements(ordered), p) && p[0] == ordered[i] && p[|p| - 1] == ordered[j];
      ChainHasOneRoot(ordered, root, p, i, j);
    }
  }

  lemma MergeKeepsLinked(ordered: seq<Source>, root: seq<nat>, x: nat, y: nat)
    requires RootsLinked(ordered, root) && x < |root| && y < |root| && Shares(ordered[x], ordered[y])
    ensures RootsLinked(ordered, Merged(root, root[x], root[y]))
  {
    var e, merged := Elements(ordered), Merged(root, root[x], root[y]);
    LinkedDirect(e, ordered[x], ordered[y]);
    forall i, j | 0 <= i < |root| && 0 <= j < |root| && merged[i] == merged[j]
      ensures Linked(e, ordered[i], ordered[j])
    {
      if root[i] != root[j] {
        if root[i] == root[x] {
          CrossLink(e, ordered[i], ordered[x], ordered[y], ordered[j]);
        } else {
          CrossLink(e, ordered[j], ordered[x], ordered[y], ordered[i]);
          LinkedSymmetric(e, ordered[j], ordered[i]);
        }
      }
    }
  }

  lemma CrossLink(e: set<Source>, a: Source, x: Source, y: Source, b: Source)
    requires Linked(e, a, x) && Linked(e, x, y) && Linked(e, y, b)
    ensures Linked(e, a, b)
  {
    LinkedTransitive(e, a, x, y);
    LinkedTransitive(e, a, y, b);
  }

  /** The first `count` keys of a record are registered to its root. */
  ghost predicate Registered(ordered: seq<Source>, tokens: map<Token, nat>, root: seq<nat>, i: nat, count: nat)
    requires i < |ordered| && count <= |Keys(ordered[i])|
  {
    forall k :: 0 <= k < count ==>
      Keys(ordered[i])[k] in tokens && tokens[Keys(ordered[i])[k]] < |root| && i < |root|
      && root[tokens[Keys(ordered[i])[k]]] == root[i]
  }

  ghost predicate TokensOwned(ordered: seq<Source>, tokens: map<Token, nat>) {
    forall t :: t in tokens ==> tokens[t] < |ordered| && t in Keys(ordered[tokens[t]])
  }

  lemma RegisteredSharersJoined(ordered: seq<Source>, tokens: map<Token, nat>, root: seq<nat>)
    requires |root| == |ordered|
    requires forall i :: 0 <= i < |ordered| ==> Registered(ordered, tokens, root, i, |Keys(ordered[i])|)
    ensures SharersJoined(ordered, root)
  {
    forall i, j | 0 <= i < |root| && 0 <= j < |root| && Shares(ordered[i], ordered[j])
      ensures root[i] == root[j]
    {
      var t :| t in Keys(ordered[i]) && t in Keys(ordered[j]);
      var a :| 0 <= a < |Keys(ordered[i])| && Keys(ordered[i])[a] == t;
      var b :| 0 <= b < |Keys(ordered[j])| && Keys(ordered[j])[b] == t;
      assert Registered(ordered, tokens, root, i, |Keys(ordered[i])|);
      assert Registered(ordered, tokens, root, j, |Keys(ordered[j])|);
    }
  }

  lemma {:induction false} FirstWithAt(ordered: seq<Source>, index: nat)
    requires index < |ordered|
    requires forall j :: 0 <= j < index ==> ordered[j].rgbChecksum != ordered[index].rgbChecksum
    ensures FirstWith(ordered, ordered[index].rgbChecksum) == ordered[index]
  {
    if index > 0 {
      FirstWithAt(ordered[1..], index - 1);
    }
  }

  ghost predicate Represented(ordered: seq<Source>, representatives: map<string, string>, count: nat)
    requires count <= |ordered|
  {
    && (forall j :: 0 <= j < count ==>
          ordered[j].rgbChecksum in representatives
          && representatives[ordered[j].rgbChecksum] == FirstWith(ordered, ordered[j].rgbChecksum).path)
    && (forall c :: c in representatives ==> exists j :: 0 <= j < count && ordered[j].rgbChecksum == c)
  }

  /** The state of the union loop: the first `index` records and `count` keys of the next are registered. */
  ghost predicate Progress(ordered: seq<Source>, tokens: map<Token, nat>, root: seq<nat>, index: nat, count: nat)
    requires index < |ordered| && count <= |Keys(ordered[index])|
  {
    && RootsLinked(ordered, root)
    && TokensOwned(ordered, tokens)
    && (forall i :: 0 <= i < index ==> Registered(ordered, tokens, root, i, |Keys(ordered[i])|))
    && Registered(ordered, tokens, root, index, count)
  }

  ghost predicate RegisteredBelow(ordered: seq<Source>, tokens: map<Token, nat>, root: seq<nat>, index: nat) {
    && RootsLinked(ordered, root)
    && TokensOwned(ordered, tokens)
    && index <= |ordered|
    && (forall i :: 0 <= i < index ==> Registered(ordered, tokens, root, i, |Keys(ordered[i])|))
  }

  lemma RecordStarted(ordered: seq<Source>, tokens: map<Token, nat>, root: seq<nat>, index: nat)
    requires index < |ordered| && RegisteredBelow(ordered, tokens, root, index)
    ensures Progress(ordered, tokens, root, index, 0)
  {
  }

  lemma RecordFinished(ordered: seq<Source>, tokens: map<Token, nat>, root: seq<nat>, index: nat)
    requires index < |ordered| && Progress(ordered, tokens, root, index, |Keys(ordered[index])|)
    ensures RegisteredBelow(ordered, tokens, root, index + 1)
  {
  }

  lemma NothingRegistered(ordered: seq<Source>, tokens: map<Token, nat>, root: seq<nat>, rank: seq<nat>)
    requires |root| == |rank| == |ordered| && tokens == map[]
    requires forall i :: 0 <= i < |root| ==> root[i] == i && rank[i] == 0
    ensures Forest(root, root, rank, 0) && RegisteredBelow(ordered, tokens, root, 0)
  {
    SingletonsLinked(ordered, root);
  }

  lemma AllRegistered(ordered: seq<Source>, tokens: map<Token, nat>, root: seq<nat>)
    requires DistinctPaths(ordered) && RegisteredBelow(ordered, tokens, root, |ordered|)
    ensures RootsAreGroups(ordered, root)
  {
    RegisteredSharersJoined(ordered, tokens, root);
    JoinedRootsAreGroups(ordered, root);
  }

  lemma KnownKey(ordered: seq<Source>, tokens: map<Token, nat>, root: seq<nat>, index: nat, count: nat)
    requires index < |ordered| && count < |Keys(ordered[index])|
    requires Progress(ordered, tokens, root, index, count) && Keys(ordered[index])[count] in tokens
    ensures tokens[Keys(ordered[index])[count]] < |root|
    ensures Progress(ordered, tokens, Merged(root, root[index], root[tokens[Keys(ordered[index])[count]]]), index, count + 1)
  {
    var key := Keys(ordered[index])[count];
    var other := tokens[key];
    var merged := Merged(root, root[index], root[other]);
    assert Shares(ordered[index], ordered[other]);
    MergeKeepsLinked(ordered, root, index, other);
    assert Registered(ordered, tokens, merged, index, count + 1);
  }

  lemma StillRegistered(ordered: seq<Source>, tokens: map<Token, nat>, key: Token, index: nat, root: seq<nat>, i: nat, count: nat)
    requires i < |ordered| && count <= |Keys(ordered[i])| && key !in tokens
    requires Registered(ordered, tokens, root, i, count)
    ensures Registered(ordered, tokens[key := index], root, i, count)
  {
  }

  lemma NewKey(ordered: seq<Source>, tokens: map<Token, nat>, root: seq<nat>, index: nat, count: nat)
    requires index < |ordered| && count < |Keys(ordered[index])|
    requires Progress(ordered, tokens, root, index, count) && Keys(ordered[index])[count] !in tokens
    ensures Progress(ordered, tokens[Keys(ordered[index])[count] := index], root, index, count + 1)
  {
    var key := Keys(ordered[index])[count];
    forall i | 0 <= i < index
      ensures Registered(ordered, tokens[key := index], root, i, |Keys(ordered[i])|)
    {
      StillRegistered(ordered, tokens, key, index, root, i, |Keys(ordered[i])|);
    }
    StillRegistered(ordered, tokens, key, index, root, index, count);
    assert Registered(ordered, tokens[key := index], root, index, count + 1);
  }

  /** The registration of one record's keys. */
  method RegisterKeys(ordered: seq<Source>, index: nat, parents: array<nat>, tokens: map<Token, nat>,
                      ghost root: seq<nat>, ghost rank: seq<nat>, ghost bound: nat)
    returns (tokens': map<Token, nat>, ghost root': seq<nat>, ghost rank': seq<nat>, ghost bound': nat)
    requires parents.Length == |ordered| && index < |ordered|
    requires Forest(parents[..], root, rank, bound) && Progress(ordered, tokens, root, index, 0)
    modifies parents
    ensures Forest(parents[..], root', rank', bound')
    ensures Progress(ordered, tokens', root', index, |Keys(ordered[index])|)
  {
    tokens', root', rank', bound' := tokens, root, rank, bound;
    var keys := Keys(ordered[index]);
    for k := 0 to |keys|
      invariant Forest(parents[..], root', rank', bound')
      invariant Progress(ordered, tokens', root', index, k)
    {
      var key := keys[k];
      if key in tokens' {
        KnownKey(ordered, tokens', root', index, k);
        rank' := Unite(parents, index, tokens'[key], root', rank', bound');
        root', bound' := Merged(root', root'[index], root'[tokens'[key]]), bound' + 1;
      } else {
        NewKey(ordered, tokens', root', index, k);
        tokens' := tokens'[key := index];
      }
    }
  }

  lemma NewRepresentative(ordered: seq<Source>, representatives: map<string, string>, index: nat)
    requires index < |ordered| && Represented(ordered, representatives, index)
    ensures
      var r := ordered[index];
      Represented(ordered, if r.rgbChecksum in representatives then representatives else representatives[r.rgbChecksum := r.path], index + 1)
  {
    var r := ordered[index];
    if r.rgbChecksum !in representatives {
      FirstWithAt(ordered, index);
    }
  }

  /** The union loop over the ordered records. */
  method UniteRecords(ordered: seq<Source>)
    returns (parents: array<nat>, representatives: map<string, string>, ghost root: seq<nat>, ghost rank: seq<nat>, ghost bound: nat)
    requires DistinctPaths(ordered)
    ensures fresh(parents) && parents.Length == |ordered| && Forest(parents[..], root, rank, bound)
    ensures RootsAreGroups(ordered, root)
    ensures Represented(ordered, representatives, |ordered|)
  {
    var n := |ordered|;
    parents := new nat[n](i requires 0 <= i => i);
    root, rank, bound := seq(n, i requires 0 <= i => i), seq(n, i => 0), 0;
    var tokens: map<Token, nat> := map[];
    representatives := map[];
    NothingRegistered(ordered, tokens, root, rank);
    assert parents[..] == root;
    for index := 0 to n
      invariant Forest(parents[..], root, rank, bound)
      invariant RegisteredBelow(ordered, tokens, root, index)
      invariant Represented(ordered, representatives, index)
    {
      var record := ordered[index];
      NewRepresentative(ordered, representatives, index);
      if record.rgbChecksum !in representatives {
        representatives := representatives[record.rgbChecksum := record.path];
      }
      RecordStarted(ordered, tokens, root, index);
      tokens, root, rank, bound := RegisterKeys(ordered, index, parents, tokens, root, rank, bound);
      RecordFinished(ordered, tokens, root, index);
    }
    AllRegistered(ordered, tokens, root);
  }

  lemma SingletonsLinked(ordered: seq<Source>, root: seq<nat>)
    requires |root| == |ordered| && forall i :: 0 <= i < |root| ==> root[i] == i
    ensures RootsLinked(ordered, root)
  {
    forall i | 0 <= i < |root|
      ensures Linked(Elements(ordered), ordered[i], ordered[i])
    {
      LinkedSelf(Elements(ordered), ordered[i]);
    }
  }

  // Group decisions.

  ghost predicate AllWithRoot(root: seq<nat>, indices: seq<nat>, r: nat, count: nat)
    requires count <= |root|
  {
    forall k :: 0 <= k < |indices| ==> indices[k] < count && root[indices[k]] == r
  }

  /** Only records with this root, each once and in record order. */
  ghost predicate Listed(root: seq<nat>, indices: seq<nat>, r: nat, count: nat)
    requires count <= |root|
  {
    AllWithRoot(root, indices, r, count) && Ascending(indices)
  }

  predicate Ascending(indices: seq<nat>) {
    forall i, j :: 0 <= i < j < |indices| ==> indices[i] < indices[j]
  }

  predicate EachOnce(roots: seq<nat>) {
    forall i, j :: 0 <= i < j < |roots| ==> roots[i] != roots[j]
  }

  /** `members` lists, by root, the indices of the first `count` records, each once and in record order;
      `roots` are its keys, each once. */
  ghost predicate Collected(root: seq<nat>, members: map<nat, seq<nat>>, roots: seq<nat>, count: nat)
    requires count <= |root|
  {
    && (forall r :: r in members ==> members[r] != [])
    && (forall r :: r in members ==> Listed(root, members[r], r, count))
    && (forall j :: 0 <= j < count ==> root[j] in members && j in members[root[j]])
    && (forall r :: r in members <==> r in roots)
    && EachOnce(roots)
  }

  /** The members map after one more record with root r. */
  function Joined(members: map<nat, seq<nat>>, r: nat, index: nat): map<nat, seq<nat>> {
    members[r := (if r in members then members[r] else []) + [index]]
  }

  lemma ListOne(root: seq<nat>, indices: seq<nat>, r: nat, index: nat)
    requires index < |root| && root[index] == r && Listed(root, indices, r, index)
    ensures Listed(root, indices + [index], r, index + 1)
  {
  }

  lemma StillListed(root: seq<nat>, indices: seq<nat>, r: nat, index: nat)
    requires index < |root| && Listed(root, indices, r, index)
    ensures Listed(root, indices, r, index + 1)
  {
  }

  lemma CollectOne(root: seq<nat>, members: map<nat, seq<nat>>, roots: seq<nat>, index: nat)
    requires index < |root| && Collected(root, members, roots, index)
    ensures Collected(root, Joined(members, root[index], index), if root[index] in members then roots else roots + [root[index]], index + 1)
  {
    var r := root[index];
    var after := Joined(members, r, index);
    forall q | q in after
      ensures Listed(root, after[q], q, index + 1)
    {
      if q == r {
        ListOne(root, if r in members then members[r] else [], r, index);
      } else {
        StillListed(root, members[q], q, index);
      }
    }
    assert index in after[r];
    forall j | 0 <= j < index
      ensures root[j] in after && j in after[root[j]]
    {
      assert j in members[root[j]];
    }
  }

  method CollectMembers(size: nat, parents: array<nat>, ghost root: seq<nat>, ghost rank: seq<nat>, ghost bound: nat)
    returns (members: map<nat, seq<nat>>, roots: seq<nat>)
    requires parents.Length == size && Forest(parents[..], root, rank, bound)
    modifies parents
    ensures Collected(root, members, roots, size)
  {
    members, roots := map[], [];
    for index := 0 to size
      invariant Forest(parents[..], root, rank, bound)
      invariant Collected(root, members, roots, index)
    {
      var r := Find(parents, index, root, rank, bound);
      CollectOne(root, members, roots, index);
      if r !in members {
        roots := roots + [r];
      }
      members := Joined(members, r, index);
    }
  }

  function IndexedSources(ordered: seq<Source>, indices: seq<nat>): set<Source>
    requires InRange(indices, |ordered|)
  {
    set k | 0 <= k < |indices| :: ordered[indices[k]]
  }

  predicate InRange(indices: seq<nat>, size: nat) {
    forall k :: 0 <= k < |indices| ==> indices[k] < size
  }

  lemma MembersShareRoot(root: seq<nat>, members: map<nat, seq<nat>>, roots: seq<nat>, r: nat)
    requires Collected(root, members, roots, |root|) && r in members
    ensures InRange(members[r], |root|) && members[r] != []
    ensures forall k :: 0 <= k < |members[r]| ==> root[members[r][k]] == r
  {
    assert AllWithRoot(root, members[r], r, |root|);
  }

  /** The members of a root are the group of each of them. */
  lemma MembersAreGroup(ordered: seq<Source>, root: seq<nat>, members: map<nat, seq<nat>>, roots: seq<nat>, j: nat)
    requires RootsAreGroups(ordered, root) && Collected(root, members, roots, |root|)
    requires j < |root| && root[j] in members && InRange(members[root[j]], |ordered|)
    ensures IndexedSources(ordered, members[root[j]]) == Group(Elements(ordered), ordered[j])
  {
    var e, indices := Elements(ordered), members[root[j]];
    MembersShareRoot(root, members, roots, root[j]);
    forall q | q in Group(e, ordered[j])
      ensures q in IndexedSources(ordered, indices)
    {
      var k :| 0 <= k < |ordered| && ordered[k] == q;
      assert k in indices;
      var m :| 0 <= m < |indices| && indices[m] == k;
    }
    forall q | q in IndexedSources(ordered, indices)
      ensures q in Group(e, ordered[j])
    {
      var m :| 0 <= m < |indices| && ordered[indices[m]] == q;
    }
  }

  ghost predicate Decided(ordered: seq<Source>, policy: Policy, decisions: map<string, (string, Split)>, j: nat)
    requires j < |ordered|
  {
    var decision := Decide(Group(Elements(ordered), ordered[j]), policy);
    decision.Ok? && ordered[j].path in decisions && decisions[ordered[j].path] == decision.value
  }

  /** Some listed record has the path. */
  ghost predicate Mentions(ordered: seq<Source>, indices: seq<nat>, path: string)
    requires InRange(indices, |ordered|)
  {
    exists k :: 0 <= k < |indices| && ordered[indices[k]].path == path
  }

  lemma MentionsOneMore(ordered: seq<Source>, indices: seq<nat>, k: nat, path: string)
    requires InRange(indices, |ordered|) && k < |indices|
    ensures Mentions(ordered, indices[..k + 1], path) <==>
      Mentions(ordered, indices[..k], path) || ordered[indices[k]].path == path
  {
    var before, after := indices[..k], indices[..k + 1];
    if Mentions(ordered, before, path) {
      var m :| 0 <= m < |before| && ordered[before[m]].path == path;
      assert after[m] == before[m];
    }
    if Mentions(ordered, after, path) && ordered[indices[k]].path != path {
      var m :| 0 <= m < |after| && ordered[after[m]].path == path;
      assert before[m] == after[m];
    }
    assert after[k] == indices[k];
  }

  /** Record a group's decision for each of its members. */
  method RecordDecision(ordered: seq<Source>, indices: seq<nat>, decision: (string, Split), decisions: map<string, (string, Split)>)
    returns (decisions': map<string, (string, Split)>)
    requires InRange(indices, |ordered|)
    ensures forall p :: p in decisions' <==> p in decisions || Mentions(ordered, indices, p)
    ensures forall p :: p in decisions' ==>
      decisions'[p] == if Mentions(ordered, indices, p) then decision else decisions[p]
  {
    decisions' := decisions;
    for k := 0 to |indices|
      invariant forall p :: p in decisions' <==> p in decisions || Mentions(ordered, indices[..k], p)
      invariant forall p :: p in decisions' ==>
        decisions'[p] == if Mentions(ordered, indices[..k], p) then decision else decisions[p]
    {
      forall p: string {
        MentionsOneMore(ordered, indices, k, p);
      }
      decisions' := decisions'[ordered[indices[k]].path := decision];
    }
    assert indices[..|indices|] == indices;
  }

  lemma NotMentioned(ordered: seq<Source>, indices: seq<nat>, j: nat)
    requires DistinctPaths(ordered) && InRange(indices, |ordered|) && j < |ordered| && j !in indices
    ensures !Mentions(ordered, indices, ordered[j].path)
  {
    forall k | 0 <= k < |indices|
      ensures ordered[indices[k]].path != ordered[j].path
    {
      assert indices[k] in indices;
      if indices[k] < j { } else { }
    }
  }

  /** Decide group by group; a conflict in any group is a conflict of the whole. */
  method DecideGroups(ordered: seq<Source>, members: map<nat, seq<nat>>, roots: seq<nat>, policy: Policy, ghost root: seq<nat>)
    returns (conflict: bool, decisions: map<string, (string, Split)>)
    requires DistinctPaths(ordered) && RootsAreGroups(ordered, root) && Collected(root, members, roots, |root|)
    ensures conflict <==> exists j :: 0 <= j < |ordered| && Decide(Group(Elements(ordered), ordered[j]), policy).Err?
    ensures !conflict ==> forall j :: 0 <= j < |ordered| ==> Decided(ordered, policy, decisions, j)
  {
    decisions, conflict := map[], false;
    for m := 0 to |roots|
      invariant forall j :: 0 <= j < |ordered| && root[j] in roots[..m] ==> Decided(ordered, policy, decisions, j)
    {
      var r := roots[m];
      assert r in members;
      var indices := members[r];
      MembersShareRoot(root, members, roots, r);
      MembersAreGroup(ordered, root, members, roots, indices[0]);
      var decision := Decide(IndexedSources(ordered, indices), policy);
      if decision.Err? {
        assert Decide(Group(Elements(ordered), ordered[indices[0]]), policy).Err?;
        return true, decisions;
      }
      ghost var before := decisions;
      decisions := RecordDecision(ordered, indices, decision.value, decisions);
      forall j | 0 <= j < |ordered| && root[j] in roots[..m + 1]
        ensures Decided(ordered, policy, decisions, j)
      {
        if j in indices {
          MembersAreGroup(ordered, root, members, roots, j);
          var k :| 0 <= k < |indices| && indices[k] == j;
          assert Mentions(ordered, indices, ordered[j].path);
        } else {
          assert root[j] in roots[..m];
          assert Decided(ordered, policy, before, j);
          NotMentioned(ordered, indices, j);
        }
      }
    }
    forall j | 0 <= j < |ordered|
      ensures Decided(ordered, policy, decisions, j)
    {
      assert root[j] in roots[..|roots|];
    }
  }

  /** The records with their decisions and representatives filled in. */
  method CompleteRecords(ordered: seq<Source>, decisions: map<string, (string, Split)>, representatives: map<string, string>, policy: Policy)
    returns (result: seq<Record>)
    requires forall j :: 0 <= j < |ordered| ==> Decided(ordered, policy, decisions, j)
    requires Represented(ordered, representatives, |ordered|)
    ensures |result| == |ordered|
    ensures forall j :: 0 <= j < |ordered| ==> Decided(ordered, policy, decisions, j) && result[j] == Completed(ordered, j, policy)
  {
    result := [];
    for i := 0 to |ordered|
      invariant |result| == i
      invariant forall j :: 0 <= j < i ==> Decided(ordered, policy, decisions, j) && result[j] == Completed(ordered, j, policy)
    {
      var r := ordered[i];
      assert Decided(ordered, policy, decisions, i);
      result := result + [Record(r, Some(Assignment(r.rgbChecksum, decisions[r.path].0, decisions[r.path].1, representatives[r.rgbChecksum])))];
    }
  }

  /** Unite, collect and decide: the records' groups with their decisions, or a conflict. */
  method GroupRecords(ordered: seq<Source>, policy: Policy)
    returns (conflict: bool, decisions: map<string, (string, Split)>, representatives: map<string, string>)
    requires DistinctPaths(ordered)
    ensures conflict <==> !AllDecided(ordered, policy)
    ensures !conflict ==> forall j :: 0 <= j < |ordered| ==> Decided(ordered, policy, decisions, j)
    ensures Represented(ordered, representatives, |ordered|)
  {
    var parents, firsts, root, rank, bound := UniteRecords(ordered);
    var members, roots := CollectMembers(|ordered|, parents, root, rank, bound);
    conflict, decisions := DecideGroups(ordered, members, roots, policy, root);
    representatives := firsts;
  }

  /** The checks and loops after sorting. */
  method AssignOrdered(ordered: seq<Source>, policy: Policy) returns (result: Result<seq<Record>, Failure>)
    requires ordered != []
    ensures result == AssignInOrder(ordered, policy)
  {
    var distinct := forall i, j :: 0 <= i < j < |ordered| ==> ordered[i].path != ordered[j].path;
    if !distinct || !DeclarationsAllowed(Elements(ordered), policy.kind) {
      return Err(DatasetGroupsConflict);
    }
    var conflict, decisions, representatives := GroupRecords(ordered, policy);
    if conflict {
      return Err(DatasetGroupsConflict);
    }
    var completed := CompleteRecords(ordered, decisions, representatives, policy);
    assert completed == CompletedAll(ordered, policy);
    if policy.trainingIntended && !HasTrainingImage(completed) {
      return Err(DatasetTrainingEmpty);
    }
    return Ok(completed);
  }

  /** The whole assignment. */
  method Assign(records: seq<Record>, policy: Policy) returns (result: Result<seq<Record>, Failure>)
    ensures result == AssignGroups(records, policy)
  {
    if records == [] {
      return Err(DatasetEmpty);
    }
    var ordered := Sort(Sources(records));
    SortSorts(Sources(records));
    SameLength(Sources(records), ordered);
    result := AssignOrdered(ordered, policy);
  }
}
