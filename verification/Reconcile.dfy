/** Global speaker identity (processing/pipelines/speaker_cluster.py): the batch rebuild
    of one model's corpus and its reconciliation with the persistent `speakers` rows,
    over the tables of database/repos/speakers.py. One user's rows only. */
module Reconcile {
  import opened Linkage
  import opened Sorting
  import opened Wrappers
  import opened NnChain
  import opened Clustering

  datatype Speaker = Speaker(model: string, name: Option<string>)

  /** A `speaker_embeddings` row: the model of its vector and its assignment. */
  datatype Print = Print(model: string, speaker: Option<Identity>)

  /** One voice-print as the rebuild loads it. */
  datatype Row = Row(
    artifact: nat,
    embedding: seq<Coordinate>,
    talkMs: Option<int>,
    pinnedTo: Option<Identity>,
    speaker: Option<Identity>
  )

  /** What the two tables hold at one time. */
  datatype Tables = Tables(speakers: map<Identity, Speaker>, prints: map<nat, Print>)

  class SpeakerTables {
    var speakers: map<Identity, Speaker>
    var prints: map<nat, Print>
    var next: nat  // ids from here on are fresh

    ghost predicate Valid()
      reads this
    {
      forall id :: id in speakers ==> id.uuid < next
    }

    ghost function Contents(): Tables
      reads this
    {
      Tables(speakers, prints)
    }

    /** UPDATE ... SET speaker_id = NULL for every print of the model. */
    method ClearAssignments(model: string)
      modifies this`prints
      ensures prints == Cleared(old(prints), model)
      ensures forall id :: HeldBy(prints, id) == HeldBy(old(prints), id) - PrintsOf(old(prints), model)
    {
      ClearedMembers(prints, model);
      prints := Cleared(prints, model);
    }

    /** UPDATE ... SET speaker_id for the listed prints. */
    method SetAssignments(id: Identity, artifacts: set<nat>)
      modifies this`prints
      ensures prints == AssignedTo(old(prints), id, artifacts)
      ensures HeldBy(prints, id) == HeldBy(old(prints), id) + artifacts * old(prints).Keys
      ensures forall other :: other != id ==> HeldBy(prints, other) == HeldBy(old(prints), other) - artifacts
    {
      AssignedMembers(prints, id, artifacts);
      prints := AssignedTo(prints, id, artifacts);
    }

    /** INSERT of an unnamed speaker. */
    method Create(model: string) returns (id: Identity)
      requires Valid()
      modifies this`speakers, this`next
      ensures Valid() && id !in old(speakers)
      ensures speakers == old(speakers)[id := Speaker(model, None)]
    {
      id := Identity(next);
      speakers := speakers[id := Speaker(model, None)];
      next := next + 1;
    }

    /** DELETE of the model's unnamed speakers without a print. No print loses its speaker. */
    method DeleteEmptyUnlabeled(model: string)
      modifies this`speakers
      ensures speakers == Pruned(old(speakers), prints, model)
      ensures old(speakers).Keys - speakers.Keys
           == set id | id in old(speakers) && Prunable(old(speakers), prints, model, id)
      ensures Refers(old(speakers), prints) ==> Refers(speakers, prints)
      ensures old(Valid()) ==> Valid()
    {
      PrunedRefers(speakers, prints, model);
      speakers := Pruned(speakers, prints, model);
    }
  }

  predicate HasMember(prints: map<nat, Print>, id: Identity) {
    exists a :: a in prints && prints[a].speaker == Some(id)
  }

  /** The prints assigned to a speaker. */
  function HeldBy(prints: map<nat, Print>, id: Identity): set<nat> {
    set a | a in prints && prints[a].speaker == Some(id)
  }

  function PrintsOf(prints: map<nat, Print>, model: string): set<nat> {
    set a | a in prints && prints[a].model == model
  }

  /** The foreign key of the prints: every assignment is to an existing speaker. */
  predicate Refers(speakers: map<Identity, Speaker>, prints: map<nat, Print>) {
    forall a :: a in prints && prints[a].speaker.Some? ==> prints[a].speaker.value in speakers
  }

  predicate Prunable(speakers: map<Identity, Speaker>, prints: map<nat, Print>, model: string, id: Identity)
    requires id in speakers
  {
    speakers[id].model == model && speakers[id].name.None? && !HasMember(prints, id)
  }

  function Cleared(prints: map<nat, Print>, model: string): map<nat, Print> {
    map a | a in prints :: if prints[a].model == model then prints[a].(speaker := None) else prints[a]
  }

  function AssignedTo(prints: map<nat, Print>, id: Identity, artifacts: set<nat>): map<nat, Print> {
    map a | a in prints :: if a in artifacts then prints[a].(speaker := Some(id)) else prints[a]
  }

  function Pruned(speakers: map<Identity, Speaker>, prints: map<nat, Print>, model: string): map<Identity, Speaker> {
    map id | id in speakers && !Prunable(speakers, prints, model, id) :: speakers[id]
  }

  /** Clearing a model takes its prints, and no others, from every speaker; models stay. */
  lemma ClearedMembers(prints: map<nat, Print>, model: string)
    ensures forall id :: HeldBy(Cleared(prints, model), id) == HeldBy(prints, id) - PrintsOf(prints, model)
    ensures forall m :: PrintsOf(Cleared(prints, model), m) == PrintsOf(prints, m)
  {
    forall id ensures HeldBy(Cleared(prints, model), id) == HeldBy(prints, id) - PrintsOf(prints, model) {
    }
    forall m ensures PrintsOf(Cleared(prints, model), m) == PrintsOf(prints, m) {
    }
  }

  /** Assigning moves exactly the listed prints: to the speaker, from wherever they were. */
  lemma AssignedMembers(prints: map<nat, Print>, id: Identity, artifacts: set<nat>)
    ensures HeldBy(AssignedTo(prints, id, artifacts), id) == HeldBy(prints, id) + artifacts * prints.Keys
    ensures forall other :: other != id ==>
      HeldBy(AssignedTo(prints, id, artifacts), other) == HeldBy(prints, other) - artifacts
  {
    forall other | other != id
      ensures HeldBy(AssignedTo(prints, id, artifacts), other) == HeldBy(prints, other) - artifacts
    {
    }
  }

  /** Pruning leaves every assignment with its speaker: what it removes has no member. */
  lemma PrunedRefers(speakers: map<Identity, Speaker>, prints: map<nat, Print>, model: string)
    ensures Refers(speakers, prints) ==> Refers(Pruned(speakers, prints, model), prints)
    ensures forall id :: id in speakers && HeldBy(prints, id) != {} ==> id in Pruned(speakers, prints, model)
  {
    forall id | id in speakers && HeldBy(prints, id) != {} ensures id in Pruned(speakers, prints, model) {
      var a :| a in HeldBy(prints, id);
      assert HasMember(prints, id);
    }
    forall a | a in prints && prints[a].speaker.Some? ensures HasMember(prints, prints[a].speaker.value) {
    }
  }

  // ----- the previous identity of an unpinned cluster

  /** How many of the group came from a speaker. */
  function Votes(group: seq<Row>, id: Identity): (n: nat)
    ensures n > 0 <==> exists k :: 0 <= k < |group| && group[k].speaker == Some(id)
  {
    if group == [] then 0
    else
      var rest := group[..|group| - 1];
      Votes(rest, id) + if group[|group| - 1].speaker == Some(id) then 1 else 0
  }

  /** Votes are the group's prints that the speaker holds. */
  lemma {:induction false} VotesAreCounted(group: seq<Row>, id: Identity)
    ensures Votes(group, id) == |set k | 0 <= k < |group| && group[k].speaker == Some(id)|
  {
    var held := set k | 0 <= k < |group| && group[k].speaker == Some(id);
    if group == [] {
      assert held == {};
    } else {
      var n := |group| - 1;
      var rest := group[..n];
      VotesAreCounted(rest, id);
      var before := set k | 0 <= k < |rest| && rest[k].speaker == Some(id);
      if group[n].speaker == Some(id) {
        assert held == before + {n};
      } else {
        assert held == before;
      }
    }
  }

  /** A previous speaker of the group that still exists and is not taken. */
  predicate Candidate(group: seq<Row>, existing: map<Identity, Speaker>, claimed: set<Identity>, id: Identity) {
    Votes(group, id) > 0 && id in existing && id !in claimed
  }

  /** Named before unnamed, then more votes, then the lower id. */
  predicate Outranks(group: seq<Row>, existing: map<Identity, Speaker>, a: Identity, b: Identity)
    requires a in existing && b in existing
  {
    var na, nb := existing[a].name.Some?, existing[b].name.Some?;
    if na != nb then na else RankLe(group, a, b)
  }

  predicate RankLe(group: seq<Row>, a: Identity, b: Identity) {
    Votes(group, a) > Votes(group, b) || (Votes(group, a) == Votes(group, b) && a.uuid <= b.uuid)
  }

  /** The ids the group's prints carried, each once. */
  method PreviousIds(group: seq<Row>) returns (ids: seq<Identity>)
    ensures Distinct(ids) && forall id :: id in ids <==> Votes(group, id) > 0
  {
    ids := [];
    for k := 0 to |group|
      invariant Distinct(ids)
      invariant forall id :: id in ids <==> exists j :: 0 <= j < k && group[j].speaker == Some(id)
    {
      if group[k].speaker.Some? && group[k].speaker.value !in ids {
        ids := ids + [group[k].speaker.value];
      }
    }
  }

  /** The candidate that outranks all others, if there is one. */
  ghost predicate BestMatch(group: seq<Row>, existing: map<Identity, Speaker>, claimed: set<Identity>,
                            found: Option<Identity>) {
    && (found == None <==> forall id :: !Candidate(group, existing, claimed, id))
    && (found.Some? ==> Candidate(group, existing, claimed, found.value))
    && (found.Some? ==>
          forall id :: Candidate(group, existing, claimed, id) ==> Outranks(group, existing, found.value, id))
  }

  /** In full: none exactly when no print of the group is held by a speaker that exists and is free;
      else such a speaker, a named one if there is one, and of those of equal naming none holds more
      of the group's prints, or as many under a lower id. */
  lemma BestMatchMeans(group: seq<Row>, existing: map<Identity, Speaker>, claimed: set<Identity>,
                       found: Option<Identity>)
    requires BestMatch(group, existing, claimed, found)
    ensures found == None <==>
      forall k :: 0 <= k < |group| && group[k].speaker.Some? ==>
        group[k].speaker.value !in existing || group[k].speaker.value in claimed
    ensures found.Some? ==> found.value in existing && found.value !in claimed
    ensures found.Some? ==> exists k :: 0 <= k < |group| && group[k].speaker == found
    ensures found.Some? ==>
      forall id, j :: 0 <= j < |group| && group[j].speaker == Some(id) && id in existing && id !in claimed ==>
        var mine := |set k | 0 <= k < |group| && group[k].speaker == found|;
        var others := |set k | 0 <= k < |group| && group[k].speaker == Some(id)|;
        && (existing[id].name.Some? ==> existing[found.value].name.Some?)
        && (existing[id].name.Some? == existing[found.value].name.Some? ==>
              mine > others || (mine == others && found.value.uuid <= id.uuid))
  {
    hide Votes;
    forall k | 0 <= k < |group| && group[k].speaker.Some?
      ensures Votes(group, group[k].speaker.value) > 0
      ensures found == None ==> !Candidate(group, existing, claimed, group[k].speaker.value)
    {
    }
    if found.Some? {
      assert Candidate(group, existing, claimed, found.value);
      var k :| 0 <= k < |group| && group[k].speaker == Some(found.value);
      assert group[k].speaker.Some?;
      VotesAreCounted(group, found.value);
      forall id, j | 0 <= j < |group| && group[j].speaker == Some(id) && id in existing && id !in claimed
        ensures Votes(group, id) == |set k | 0 <= k < |group| && group[k].speaker == Some(id)|
        ensures Outranks(group, existing, found.value, id)
      {
        VotesAreCounted(group, id);
        assert Candidate(group, existing, claimed, id);
      }
    }
  }

  /** `_match_identity` */
  method MatchIdentity(group: seq<Row>, existing: map<Identity, Speaker>, claimed: set<Identity>)
    returns (found: Option<Identity>)
    ensures BestMatch(group, existing, claimed, found)
    ensures found == None <==>
      forall k :: 0 <= k < |group| && group[k].speaker.Some? ==>
        group[k].speaker.value !in existing || group[k].speaker.value in claimed
    ensures found.Some? ==>
      forall id, j :: 0 <= j < |group| && group[j].speaker == Some(id) && id in existing && id !in claimed ==>
        var mine := |set k | 0 <= k < |group| && group[k].speaker == found|;
        var others := |set k | 0 <= k < |group| && group[k].speaker == Some(id)|;
        && found.value in existing && found.value !in claimed
        && (existing[id].name.Some? ==> existing[found.value].name.Some?)
        && (existing[id].name.Some? == existing[found.value].name.Some? ==>
              mine > others || (mine == others && found.value.uuid <= id.uuid))
  {
    found := RankedMatch(group, existing, claimed);
    BestMatchMeans(group, existing, claimed, found);
  }

  /** Its two passes over the ranked speakers. */
  method RankedMatch(group: seq<Row>, existing: map<Identity, Speaker>, claimed: set<Identity>)
    returns (found: Option<Identity>)
    ensures BestMatch(group, existing, claimed, found)
  {
    var previous := PreviousIds(group);
    var le := (a: Identity, b: Identity) => RankLe(group, a, b);
    var ranked := Sort(previous, le);
    SortSorts(previous, le);
    SortKeepsMembers(previous, le);
    for pass := 0 to 2
      invariant pass >= 1 ==> forall id :: Candidate(group, existing, claimed, id) ==> existing[id].name.None?
      invariant pass == 2 ==> forall id :: Candidate(group, existing, claimed, id) ==> existing[id].name.Some?
    {
      var wantNamed := pass == 0;
      for k := 0 to |ranked|
        invariant forall j :: 0 <= j < k && Candidate(group, existing, claimed, ranked[j]) ==>
          existing[ranked[j]].name.Some? != wantNamed
      {
        var id := ranked[k];
        if id in existing && id !in claimed && existing[id].name.Some? == wantNamed {
          forall other | Candidate(group, existing, claimed, other)
            ensures Outranks(group, existing, id, other)
          {
            assert other in ranked;
            var j :| 0 <= j < |ranked| && ranked[j] == other;
            if j > k { assert le(ranked[k], ranked[j]); }
          }
          assert id in ranked;
          return Some(id);
        }
      }
      forall id | Candidate(group, existing, claimed, id)
        ensures existing[id].name.Some? != wantNamed
      {
        assert id in ranked;
      }
    }
    return None;
  }

  // ----- mapping result clusters onto speakers

  predicate IsPinned(rows: seq<Row>, cluster: seq<nat>) {
    exists i :: i in cluster && i < |rows| && rows[i].pinnedTo.Some?
  }

  function FirstArtifact(rows: seq<Row>, cluster: seq<nat>): nat {
    if cluster != [] && cluster[0] < |rows| then rows[cluster[0]].artifact else 0
  }

  /** Pinned first, then larger, then by the first member's artifact id. */
  predicate ClusterLe(rows: seq<Row>, a: seq<nat>, b: seq<nat>) {
    var pa, pb := IsPinned(rows, a), IsPinned(rows, b);
    if pa != pb then pa
    else if |a| != |b| then |a| > |b|
    else FirstArtifact(rows, a) <= FirstArtifact(rows, b)
  }

  ghost predicate InClusterOrder(rows: seq<Row>, ordered: seq<seq<nat>>) {
    forall j, k :: 0 <= j < k < |ordered| ==> ClusterLe(rows, ordered[j], ordered[k])
  }

  /** What the clusterer guarantees about its result, pins read from the rows. */
  ghost predicate Clustered(rows: seq<Row>, clusters: seq<seq<nat>>) {
    && (forall k :: 0 <= k < |clusters| ==> clusters[k] != [])
    && (forall k, i :: 0 <= k < |clusters| && i in clusters[k] ==> i < |rows|)
    && (forall i: nat :: i < |rows| ==> InSome(clusters, i))
    && (forall k, l, i :: 0 <= k < |clusters| && 0 <= l < |clusters| && k != l && i in clusters[k] ==>
          i !in clusters[l])
    && (forall k, i, j: nat :: (0 <= k < |clusters| && i in clusters[k] && i < |rows| && rows[i].pinnedTo.Some?
          && j < |rows| && rows[j].pinnedTo.Some?) ==>
          (j in clusters[k] <==> rows[i].pinnedTo == rows[j].pinnedTo))
  }

  /** i and j are in one cluster. */
  ghost predicate Together(clusters: seq<seq<nat>>, i: nat, j: nat) {
    exists k :: 0 <= k < |clusters| && i in clusters[k] && j in clusters[k]
  }

  ghost predicate SameGrouping(rows: seq<Row>, a: seq<seq<nat>>, b: seq<seq<nat>>) {
    forall i: nat, j: nat :: i < |rows| && j < |rows| ==> (Together(a, i, j) <==> Together(b, i, j))
  }

  function InOrderOf(rows: seq<Row>, clusters: seq<seq<nat>>): seq<seq<nat>> {
    Sort(clusters, (a: seq<nat>, b: seq<nat>) => ClusterLe(rows, a, b))
  }

  lemma SortedInOrder(rows: seq<Row>, clusters: seq<seq<nat>>)
    ensures InClusterOrder(rows, InOrderOf(rows, clusters))
  {
    var le := (a: seq<nat>, b: seq<nat>) => ClusterLe(rows, a, b);
    var ordered := Sort(clusters, le);
    SortSorts(clusters, le);
    hide ClusterLe;
    forall j, k | 0 <= j < k < |ordered| ensures ClusterLe(rows, ordered[j], ordered[k]) {
      assert le(ordered[j], ordered[k]);
    }
  }

  /** In full: a pinned cluster before an unpinned one, of equal pinning a larger before a smaller, and
      of equal size the one whose first print has the lower id. */
  lemma ClusterOrderMeans(rows: seq<Row>, ordered: seq<seq<nat>>, j: nat, k: nat)
    requires InClusterOrder(rows, ordered) && j < k < |ordered| && ordered[j] != [] && ordered[k] != []
    requires ordered[j][0] < |rows| && ordered[k][0] < |rows|
    ensures (exists i :: i in ordered[k] && i < |rows| && rows[i].pinnedTo.Some?) ==>
            exists i :: i in ordered[j] && i < |rows| && rows[i].pinnedTo.Some?
    ensures ((exists i :: i in ordered[j] && i < |rows| && rows[i].pinnedTo.Some?) ==>
             exists i :: i in ordered[k] && i < |rows| && rows[i].pinnedTo.Some?) ==>
      |ordered[j]| > |ordered[k]|
      || (|ordered[j]| == |ordered[k]| && rows[ordered[j][0]].artifact <= rows[ordered[k][0]].artifact)
  {
    assert ClusterLe(rows, ordered[j], ordered[k]);
  }

  lemma PinnedFirst(rows: seq<Row>, ordered: seq<seq<nat>>)
    requires InClusterOrder(rows, ordered)
    ensures forall j, k :: 0 <= j < k < |ordered| && IsPinned(rows, ordered[k]) ==> IsPinned(rows, ordered[j])
  {
    hide IsPinned;
    forall j, k | 0 <= j < k < |ordered| && IsPinned(rows, ordered[k]) ensures IsPinned(rows, ordered[j]) {
      assert ClusterLe(rows, ordered[j], ordered[k]);
    }
  }

  /** The same lists, each once, in another order. */
  ghost predicate Rearranged(a: seq<seq<nat>>, b: seq<seq<nat>>) {
    Distinct(b) && forall x :: x in a <==> x in b
  }

  lemma SortRearranges(rows: seq<Row>, clusters: seq<seq<nat>>)
    requires Clustered(rows, clusters)
    ensures Rearranged(clusters, InOrderOf(rows, clusters))
  {
    var le := (a: seq<nat>, b: seq<nat>) => ClusterLe(rows, a, b);
    SortKeepsMembers(clusters, le);
    forall j, k | 0 <= j < k < |clusters| ensures clusters[j] != clusters[k] {
      assert clusters[j][0] in clusters[j];
    }
    SortKeepsDistinct(clusters, le);
  }

  lemma RearrangedClusters(rows: seq<Row>, clusters: seq<seq<nat>>, ordered: seq<seq<nat>>)
    requires Clustered(rows, clusters) && Rearranged(clusters, ordered)
    ensures Clustered(rows, ordered)
  {
    forall k | 0 <= k < |ordered| ensures exists l :: 0 <= l < |clusters| && clusters[l] == ordered[k] {
      assert ordered[k] in ordered;
    }
    forall i: nat | i < |rows| ensures InSome(ordered, i) {
      assert InSome(clusters, i);
      var k :| 0 <= k < |clusters| && i in clusters[k];
      assert clusters[k] in ordered;
    }
  }

  lemma RearrangedGrouping(rows: seq<Row>, clusters: seq<seq<nat>>, ordered: seq<seq<nat>>)
    requires Rearranged(clusters, ordered)
    ensures SameGrouping(rows, clusters, ordered)
  {
    forall i: nat, j: nat | i < |rows| && j < |rows|
      ensures Together(clusters, i, j) <==> Together(ordered, i, j)
    {
      if Together(clusters, i, j) {
        var k :| 0 <= k < |clusters| && i in clusters[k] && j in clusters[k];
        assert clusters[k] in ordered;
      }
      if Together(ordered, i, j) {
        var k :| 0 <= k < |ordered| && i in ordered[k] && j in ordered[k];
        assert ordered[k] in clusters;
      }
    }
  }

  lemma SortedClusters(rows: seq<Row>, clusters: seq<seq<nat>>) returns (ordered: seq<seq<nat>>)
    requires Clustered(rows, clusters)
    ensures ordered == InOrderOf(rows, clusters)
    ensures Clustered(rows, ordered) && SameGrouping(rows, clusters, ordered)
    ensures forall j, k :: 0 <= j < k < |ordered| && IsPinned(rows, ordered[k]) ==> IsPinned(rows, ordered[j])
    ensures InClusterOrder(rows, ordered)
  {
    hide Clustered, SameGrouping, Rearranged, InClusterOrder, IsPinned, InOrderOf;
    ordered := InOrderOf(rows, clusters);
    SortedInOrder(rows, clusters);
    PinnedFirst(rows, ordered);
    SortRearranges(rows, clusters);
    RearrangedClusters(rows, clusters, ordered);
    RearrangedGrouping(rows, clusters, ordered);
  }

  function PinsIn(rows: seq<Row>, cluster: seq<nat>): set<Identity> {
    set i | i in cluster && i < |rows| && rows[i].pinnedTo.Some? :: rows[i].pinnedTo.value
  }

  function GroupOfRows(rows: seq<Row>, cluster: seq<nat>): (g: seq<Row>)
    requires forall i :: i in cluster ==> i < |rows|
    ensures |g| == |cluster|
    ensures forall k :: 0 <= k < |cluster| ==> cluster[k] in cluster && g[k] == rows[cluster[k]]
  {
    seq(|cluster|, k requires 0 <= k < |cluster| => assert cluster[k] in cluster; rows[cluster[k]])
  }

  /** The identities the ordered clusters resolve to: pairwise different, each pinned
      cluster to its pin, each other one to a free existing speaker or to none. */
  ghost predicate Resolves(rows: seq<Row>, ordered: seq<seq<nat>>, existing: map<Identity, Speaker>,
                           resolved: seq<Option<Identity>>) {
    && |resolved| <= |ordered|
    && (forall j, k :: 0 <= j < k < |resolved| && resolved[j].Some? ==> resolved[j] != resolved[k])
    && (forall k, i :: 0 <= k < |resolved| && i in ordered[k] && i < |rows| && rows[i].pinnedTo.Some? ==>
          resolved[k] == rows[i].pinnedTo)
    && (forall k :: 0 <= k < |resolved| && !IsPinned(rows, ordered[k]) && resolved[k].Some? ==>
          resolved[k].value in existing)
  }

  ghost predicate Claims(resolved: seq<Option<Identity>>, claimed: set<Identity>) {
    && (forall id :: id in claimed ==> exists j :: 0 <= j < |resolved| && resolved[j] == Some(id))
    && (forall j :: 0 <= j < |resolved| && resolved[j].Some? ==> resolved[j].value in claimed)
  }

  /** The identities taken by the first k clusters. */
  function ClaimedBefore(resolved: seq<Option<Identity>>, k: nat): set<Identity>
    requires k <= |resolved|
  {
    set j | 0 <= j < k && resolved[j].Some? :: resolved[j].value
  }

  /** An unpinned cluster takes its best match among what the clusters before it left. */
  ghost predicate MatchedAt(rows: seq<Row>, ordered: seq<seq<nat>>, existing: map<Identity, Speaker>,
                            resolved: seq<Option<Identity>>, k: nat)
    requires k < |resolved| <= |ordered|
  {
    && (forall i :: i in ordered[k] ==> i < |rows|)
    && (!IsPinned(rows, ordered[k]) ==>
          BestMatch(GroupOfRows(rows, ordered[k]), existing, ClaimedBefore(resolved, k), resolved[k]))
  }

  ghost predicate Matched(rows: seq<Row>, ordered: seq<seq<nat>>, existing: map<Identity, Speaker>,
                          resolved: seq<Option<Identity>>) {
    |resolved| <= |ordered| && forall k :: 0 <= k < |resolved| ==> MatchedAt(rows, ordered, existing, resolved, k)
  }

  lemma ClaimedIs(resolved: seq<Option<Identity>>, claimed: set<Identity>)
    requires Claims(resolved, claimed)
    ensures ClaimedBefore(resolved, |resolved|) == claimed
  {
    forall id | id in claimed ensures id in ClaimedBefore(resolved, |resolved|) {
      var j :| 0 <= j < |resolved| && resolved[j] == Some(id);
      assert resolved[j].Some?;
    }
  }

  lemma ClaimedPrefix(resolved: seq<Option<Identity>>, found: Option<Identity>, k: nat)
    requires k <= |resolved|
    ensures ClaimedBefore(resolved + [found], k) == ClaimedBefore(resolved, k)
  {
    var more := resolved + [found];
    forall id | id in ClaimedBefore(resolved, k) ensures id in ClaimedBefore(more, k) {
      var j :| 0 <= j < k && resolved[j] == Some(id);
      assert more[j].Some?;
    }
    forall id | id in ClaimedBefore(more, k) ensures id in ClaimedBefore(resolved, k) {
      var j :| 0 <= j < k && more[j] == Some(id);
      assert resolved[j].Some?;
    }
  }

  lemma MatchedNext(rows: seq<Row>, ordered: seq<seq<nat>>, existing: map<Identity, Speaker>,
                    resolved: seq<Option<Identity>>, claimed: set<Identity>, found: Option<Identity>)
    requires Matched(rows, ordered, existing, resolved) && |resolved| < |ordered| && Claims(resolved, claimed)
    requires forall i :: i in ordered[|resolved|] ==> i < |rows|
    requires !IsPinned(rows, ordered[|resolved|]) ==>
      BestMatch(GroupOfRows(rows, ordered[|resolved|]), existing, claimed, found)
    ensures Matched(rows, ordered, existing, resolved + [found])
  {
    hide IsPinned, BestMatch;
    var more := resolved + [found];
    ClaimedIs(resolved, claimed);
    ClaimedPrefix(resolved, found, |resolved|);
    forall k | 0 <= k < |resolved| ensures MatchedAt(rows, ordered, existing, more, k) {
      assert MatchedAt(rows, ordered, existing, resolved, k);
      ClaimedPrefix(resolved, found, k);
    }
  }

  /** Every print carries the speaker of its cluster, a different existing one for each cluster,
      and no pin says otherwise. */
  ghost predicate Carried(rows: seq<Row>, ordered: seq<seq<nat>>, existing: map<Identity, Speaker>,
                          own: seq<Identity>) {
    && |ordered| == |own| && Distinct(own)
    && (forall k :: 0 <= k < |ordered| ==> CarriedAt(rows, ordered[k], existing, own[k]))
    && (forall i :: 0 <= i < |rows| && rows[i].pinnedTo.Some? ==> rows[i].pinnedTo == rows[i].speaker)
  }

  ghost predicate CarriedAt(rows: seq<Row>, cluster: seq<nat>, existing: map<Identity, Speaker>, id: Identity) {
    cluster != [] && id in existing && forall i :: i in cluster ==> i < |rows| && rows[i].speaker == Some(id)
  }

  /** Identities are stable: clusters whose prints already carry them resolve to them again. */
  lemma UnchangedClustersKeepIds(rows: seq<Row>, ordered: seq<seq<nat>>, existing: map<Identity, Speaker>,
                                 resolved: seq<Option<Identity>>, own: seq<Identity>)
    requires Resolves(rows, ordered, existing, resolved) && Matched(rows, ordered, existing, resolved)
    requires |resolved| == |ordered| && Carried(rows, ordered, existing, own)
    ensures forall k :: 0 <= k < |ordered| ==> resolved[k] == Some(own[k])
  {
    for k := 0 to |ordered|
      invariant forall j :: 0 <= j < k ==> resolved[j] == Some(own[j])
    {
      NextKeepsId(rows, ordered, existing, resolved, own, k);
    }
  }

  lemma NextKeepsId(rows: seq<Row>, ordered: seq<seq<nat>>, existing: map<Identity, Speaker>,
                    resolved: seq<Option<Identity>>, own: seq<Identity>, k: nat)
    requires Resolves(rows, ordered, existing, resolved) && Matched(rows, ordered, existing, resolved)
    requires k < |resolved| == |ordered| && Carried(rows, ordered, existing, own)
    requires forall j :: 0 <= j < k ==> resolved[j] == Some(own[j])
    ensures resolved[k] == Some(own[k])
  {
    hide Outranks;
    assert CarriedAt(rows, ordered[k], existing, own[k]);
    if IsPinned(rows, ordered[k]) {
      var i :| i in ordered[k] && i < |rows| && rows[i].pinnedTo.Some?;
    } else {
      assert MatchedAt(rows, ordered, existing, resolved, k);
      var group, claimed := GroupOfRows(rows, ordered[k]), ClaimedBefore(resolved, k);
      assert ordered[k][0] in ordered[k] && group[0] == rows[ordered[k][0]];
      forall id | Candidate(group, existing, claimed, id) ensures id == own[k] {
        var p :| 0 <= p < |group| && group[p].speaker == Some(id);
        assert ordered[k][p] in ordered[k];
      }
      assert Candidate(group, existing, claimed, own[k]);
    }
  }

  /** Pins claim their identity before majority matching can steal it. */
  lemma PinIsFree(rows: seq<Row>, ordered: seq<seq<nat>>, existing: map<Identity, Speaker>,
                  resolved: seq<Option<Identity>>, i: nat)
    requires Clustered(rows, ordered) && Resolves(rows, ordered, existing, resolved) && |resolved| < |ordered|
    requires i in ordered[|resolved|] && i < |rows| && rows[i].pinnedTo.Some?
    requires forall j, k :: 0 <= j < k < |ordered| && IsPinned(rows, ordered[k]) ==> IsPinned(rows, ordered[j])
    ensures Resolves(rows, ordered, existing, resolved + [rows[i].pinnedTo])
  {
    var k, more := |resolved|, resolved + [rows[i].pinnedTo];
    assert IsPinned(rows, ordered[k]);
    forall j | 0 <= j < k ensures resolved[j] != rows[i].pinnedTo {
      assert IsPinned(rows, ordered[j]);
      var p :| p in ordered[j] && p < |rows| && rows[p].pinnedTo.Some?;
      assert i !in ordered[j];
    }
  }

  lemma MatchIsFree(rows: seq<Row>, ordered: seq<seq<nat>>, existing: map<Identity, Speaker>,
                    resolved: seq<Option<Identity>>, claimed: set<Identity>, found: Option<Identity>)
    requires Clustered(rows, ordered) && Resolves(rows, ordered, existing, resolved) && |resolved| < |ordered|
    requires !IsPinned(rows, ordered[|resolved|]) && Claims(resolved, claimed)
    requires found.Some? ==> found.value in existing && found.value !in claimed
    ensures Resolves(rows, ordered, existing, resolved + [found])
  {
  }

  lemma NoPins(rows: seq<Row>, cluster: seq<nat>)
    ensures IsPinned(rows, cluster) ==> PinsIn(rows, cluster) != {}
  {
    if IsPinned(rows, cluster) {
      var i :| i in cluster && i < |rows| && rows[i].pinnedTo.Some?;
      assert rows[i].pinnedTo.value in PinsIn(rows, cluster);
    }
  }

  lemma ClaimOne(resolved: seq<Option<Identity>>, claimed: set<Identity>, id: Identity)
    requires Claims(resolved, claimed)
    ensures Claims(resolved + [Some(id)], claimed + {id})
  {
    var more := resolved + [Some(id)];
    forall other | other in claimed + {id}
      ensures exists j :: 0 <= j < |more| && more[j] == Some(other)
    {
      if other == id {
        assert more[|resolved|] == Some(id);
      } else {
        var j :| 0 <= j < |resolved| && resolved[j] == Some(other);
        assert more[j] == Some(other);
      }
    }
  }

  lemma ClaimNone(resolved: seq<Option<Identity>>, claimed: set<Identity>)
    requires Claims(resolved, claimed)
    ensures Claims(resolved + [None], claimed)
  {
    forall id | id in claimed
      ensures exists j :: 0 <= j < |resolved| + 1 && (resolved + [None])[j] == Some(id)
    {
      var j :| 0 <= j < |resolved| && resolved[j] == Some(id);
      assert (resolved + [None])[j] == Some(id);
    }
  }

  lemma ClusterInRange(rows: seq<Row>, ordered: seq<seq<nat>>, k: nat)
    requires Clustered(rows, ordered) && k < |ordered|
    ensures forall i :: i in ordered[k] ==> i < |rows|
  {
  }

  lemma NothingClaimed()
    ensures Claims([], {})
  {
  }

  lemma PinnedBy(rows: seq<Row>, cluster: seq<nat>, i: nat)
    requires i in cluster && i < |rows| && rows[i].pinnedTo.Some?
    ensures IsPinned(rows, cluster)
  {
  }

  lemma FoundIsFree(group: seq<Row>, existing: map<Identity, Speaker>, claimed: set<Identity>, found: Option<Identity>)
    requires BestMatch(group, existing, claimed, found)
    ensures found.Some? ==> found.value in existing && found.value !in claimed
  {
  }

  method Resolve(rows: seq<Row>, ordered: seq<seq<nat>>, existing: map<Identity, Speaker>)
    returns (resolved: seq<Option<Identity>>)
    requires Clustered(rows, ordered)
    requires forall j, k :: 0 <= j < k < |ordered| && IsPinned(rows, ordered[k]) ==> IsPinned(rows, ordered[j])
    ensures |resolved| == |ordered| && Resolves(rows, ordered, existing, resolved)
    ensures Matched(rows, ordered, existing, resolved)
  {
    hide Clustered, IsPinned, Votes, Claims, MatchedAt, Candidate, Outranks;
    var claimed: set<Identity> := {};
    resolved := [];
    assert Claims(resolved, claimed) by { NothingClaimed(); }
    for k := 0 to |ordered|
      invariant |resolved| == k && Resolves(rows, ordered, existing, resolved) && Claims(resolved, claimed)
      invariant Matched(rows, ordered, existing, resolved)
    {
      hide Resolves, Matched;
      ClusterInRange(rows, ordered, k);
      var pins := PinsIn(rows, ordered[k]);
      if pins != {} {
        var identity :| identity in pins;
        ghost var i :| i in ordered[k] && i < |rows| && rows[i].pinnedTo == Some(identity);
        PinIsFree(rows, ordered, existing, resolved, i);
        PinnedBy(rows, ordered[k], i);
        MatchedNext(rows, ordered, existing, resolved, claimed, Some(identity));
        ClaimOne(resolved, claimed, identity);
        claimed := claimed + {identity};
        resolved := resolved + [Some(identity)];
      } else {
        NoPins(rows, ordered[k]);
        var found := MatchIdentity(GroupOfRows(rows, ordered[k]), existing, claimed);
        FoundIsFree(GroupOfRows(rows, ordered[k]), existing, claimed, found);
        MatchIsFree(rows, ordered, existing, resolved, claimed, found);
        MatchedNext(rows, ordered, existing, resolved, claimed, found);
        if found.Some? {
          ClaimOne(resolved, claimed, found.value);
          claimed := claimed + {found.value};
        } else {
          ClaimNone(resolved, claimed);
        }
        resolved := resolved + [found];
      }
    }
  }

  // ----- writing the assignments

  predicate Numbered(rows: seq<Row>) {
    forall i, j :: 0 <= i < j < |rows| ==> rows[i].artifact != rows[j].artifact
  }

  /** The rows are prints of this model. */
  ghost predicate FromTables(rows: seq<Row>, prints: map<nat, Print>, model: string) {
    && Numbered(rows)
    && forall i :: 0 <= i < |rows| ==> rows[i].artifact in prints && prints[rows[i].artifact].model == model
  }

  function Artifacts(rows: seq<Row>, cluster: seq<nat>): set<nat> {
    set i | i in cluster && i < |rows| :: rows[i].artifact
  }

  /** The tables after the first |ids| clusters are written: only speakers added, only
      those clusters' prints assigned. */
  ghost predicate Written(before: map<Identity, Speaker>, speakers: map<Identity, Speaker>,
                          cleared: map<nat, Print>, prints: map<nat, Print>, model: string,
                          rows: seq<Row>, ordered: seq<seq<nat>>, ids: seq<Identity>) {
    && |ids| <= |ordered| && Distinct(ids)
    && (forall id :: id in before ==> id in speakers && speakers[id] == before[id])
    && (forall id :: id in speakers && id !in before ==> speakers[id] == Speaker(model, None) && id in ids)
    && (forall k :: 0 <= k < |ids| ==> ids[k] in speakers)
    && prints.Keys == cleared.Keys
    && (forall a :: a in prints ==> prints[a].model == cleared[a].model)
    && (forall k, i :: 0 <= k < |ids| && i in ordered[k] && i < |rows| ==>
          rows[i].artifact in prints && prints[rows[i].artifact].speaker == Some(ids[k]))
    && (forall a :: a in prints && (forall k :: 0 <= k < |ids| ==> a !in Artifacts(rows, ordered[k])) ==>
          prints[a] == cleared[a])
  }

  /** Each written cluster got the identity it resolved to, when that one exists. */
  ghost predicate Kept(before: map<Identity, Speaker>, existing: map<Identity, Speaker>,
                       resolved: seq<Option<Identity>>, ids: seq<Identity>) {
    && |ids| <= |resolved|
    && forall k :: 0 <= k < |ids| ==>
         if resolved[k].Some? && resolved[k].value in existing then ids[k] == resolved[k].value
         else ids[k] !in before
  }

  lemma WriteOne(before: map<Identity, Speaker>, speakers: map<Identity, Speaker>, more: map<Identity, Speaker>,
                 cleared: map<nat, Print>, prints: map<nat, Print>, model: string,
                 rows: seq<Row>, ordered: seq<seq<nat>>, ids: seq<Identity>, id: Identity)
    requires Written(before, speakers, cleared, prints, model, rows, ordered, ids)
    requires Clustered(rows, ordered) && FromTables(rows, cleared, model) && |ids| < |ordered|
    requires id !in ids && id in more
    requires more == speakers || (id !in speakers && more == speakers[id := Speaker(model, None)])
    ensures Written(before, more, cleared, AssignedTo(prints, id, Artifacts(rows, ordered[|ids|])), model, rows,
                    ordered, ids + [id])
  {
    var k := |ids|;
    var group := Artifacts(rows, ordered[k]);
    var prints', ids' := AssignedTo(prints, id, group), ids + [id];
    forall j, i | 0 <= j < |ids'| && i in ordered[j] && i < |rows|
      ensures rows[i].artifact in prints' && prints'[rows[i].artifact].speaker == Some(ids'[j])
    {
      if j == k {
        assert rows[i].artifact in group;
      } else {
        forall p | p in ordered[k] && p < |rows| ensures rows[p].artifact != rows[i].artifact {
          assert p != i;
        }
      }
    }
  }

  // ----- what a rebuild of one model leaves behind

  /** Every pin to an existing speaker of the model is honoured. */
  ghost predicate PinsKept(existing: map<Identity, Speaker>, prints: map<nat, Print>, rows: seq<Row>) {
    forall i :: 0 <= i < |rows| && rows[i].pinnedTo.Some? && rows[i].pinnedTo.value in existing ==>
      rows[i].artifact in prints && prints[rows[i].artifact].speaker == rows[i].pinnedTo
  }

  /** Every gated print has a speaker of the model; two share it exactly when one result
      cluster holds both. */
  ghost predicate OneSpeakerPerCluster(speakers: map<Identity, Speaker>, prints: map<nat, Print>, model: string,
                                       rows: seq<Row>, clusters: seq<seq<nat>>) {
    && (forall i :: 0 <= i < |rows| ==> AssignedInModel(speakers, prints, model, rows[i].artifact))
    && (forall i: nat, j: nat :: i < |rows| && j < |rows| ==>
          (Together(clusters, i, j) <==> prints[rows[i].artifact].speaker == prints[rows[j].artifact].speaker))
  }

  ghost predicate AssignedInModel(speakers: map<Identity, Speaker>, prints: map<nat, Print>, model: string, a: nat) {
    && a in prints && prints[a].speaker.Some?
    && prints[a].speaker.value in speakers && speakers[prints[a].speaker.value].model == model
  }

  /** Prints of the model outside the gate are unassigned; other models' are untouched. */
  ghost predicate OthersCleared(before: map<nat, Print>, prints: map<nat, Print>, model: string, rows: seq<Row>) {
    && prints.Keys == before.Keys
    && (forall a :: a in prints && before[a].model != model ==> prints[a] == before[a])
    && (forall a :: a in prints && before[a].model == model ==> prints[a].model == model)
    && (forall a :: a in prints && before[a].model == model && (forall i :: 0 <= i < |rows| ==> rows[i].artifact != a)
          ==> prints[a].speaker == None)
  }

  /** Named speakers and other models' survive; unnamed ones of the model only with a member. */
  ghost predicate SpeakersPruned(before: map<Identity, Speaker>, speakers: map<Identity, Speaker>,
                                 prints: map<nat, Print>, model: string) {
    && (forall id :: id in before && (before[id].model != model || before[id].name.Some?) ==> id in speakers)
    && (forall id :: id in before && HasMember(prints, id) ==> id in speakers)
    && (forall id :: id in speakers ==> speakers[id] == if id in before then before[id] else Speaker(model, None))
    && (forall id :: id in speakers && speakers[id].model == model && speakers[id].name.None? ==> HasMember(prints, id))
  }

  function OfModel(speakers: map<Identity, Speaker>, model: string): (own: map<Identity, Speaker>)
    ensures forall id :: id in own <==> id in speakers && speakers[id].model == model
    ensures forall id :: id in own ==> own[id] == speakers[id]
  {
    map id | id in speakers && speakers[id].model == model :: speakers[id]
  }

  lemma ClusterOf(rows: seq<Row>, ordered: seq<seq<nat>>, i: nat) returns (k: nat)
    requires Clustered(rows, ordered) && i < |rows|
    ensures k < |ordered| && i in ordered[k]
  {
    assert InSome(ordered, i);
    k :| 0 <= k < |ordered| && i in ordered[k];
  }

  /** The end of the writing loop. */
  ghost predicate AllWritten(before: map<Identity, Speaker>, speakers: map<Identity, Speaker>, stored: map<nat, Print>,
                             prints: map<nat, Print>, model: string, rows: seq<Row>, ordered: seq<seq<nat>>,
                             resolved: seq<Option<Identity>>, ids: seq<Identity>) {
    && Written(before, speakers, Cleared(stored, model), prints, model, rows, ordered, ids)
    && |ids| == |resolved| == |ordered| && Kept(before, OfModel(before, model), resolved, ids)
    && Clustered(rows, ordered) && FromTables(rows, stored, model)
    && Resolves(rows, ordered, OfModel(before, model), resolved)
  }

  lemma WrittenKeepsPins(before: map<Identity, Speaker>, speakers: map<Identity, Speaker>, stored: map<nat, Print>,
                         prints: map<nat, Print>, model: string, rows: seq<Row>, ordered: seq<seq<nat>>,
                         resolved: seq<Option<Identity>>, ids: seq<Identity>)
    requires AllWritten(before, speakers, stored, prints, model, rows, ordered, resolved, ids)
    ensures PinsKept(OfModel(before, model), prints, rows)
  {
    forall i | 0 <= i < |rows| && rows[i].pinnedTo.Some? && rows[i].pinnedTo.value in OfModel(before, model)
      ensures rows[i].artifact in prints && prints[rows[i].artifact].speaker == rows[i].pinnedTo
    {
      var k := ClusterOf(rows, ordered, i);
      assert resolved[k] == rows[i].pinnedTo;
    }
  }

  lemma SpeakerOf(before: map<Identity, Speaker>, speakers: map<Identity, Speaker>, stored: map<nat, Print>,
                  prints: map<nat, Print>, model: string, rows: seq<Row>, ordered: seq<seq<nat>>,
                  resolved: seq<Option<Identity>>, ids: seq<Identity>, i: nat)
    returns (k: nat)
    requires AllWritten(before, speakers, stored, prints, model, rows, ordered, resolved, ids) && i < |rows|
    ensures k < |ordered| && i in ordered[k] && k < |ids|
    ensures rows[i].artifact in prints && prints[rows[i].artifact].speaker == Some(ids[k])
    ensures AssignedInModel(Pruned(speakers, prints, model), prints, model, rows[i].artifact)
  {
    k := ClusterOf(rows, ordered, i);
    assert prints[rows[i].artifact].speaker == Some(ids[k]);
    assert HasMember(prints, ids[k]);
    assert speakers[ids[k]].model == model;
  }

  lemma WrittenAssignsClusters(before: map<Identity, Speaker>, speakers: map<Identity, Speaker>,
                               stored: map<nat, Print>, prints: map<nat, Print>, model: string, rows: seq<Row>,
                               ordered: seq<seq<nat>>, resolved: seq<Option<Identity>>, ids: seq<Identity>)
    requires AllWritten(before, speakers, stored, prints, model, rows, ordered, resolved, ids)
    ensures OneSpeakerPerCluster(Pruned(speakers, prints, model), prints, model, rows, ordered)
  {
    forall i: nat, j: nat | i < |rows| && j < |rows|
      ensures AssignedInModel(Pruned(speakers, prints, model), prints, model, rows[i].artifact)
      ensures Together(ordered, i, j) <==> prints[rows[i].artifact].speaker == prints[rows[j].artifact].speaker
    {
      var k := SpeakerOf(before, speakers, stored, prints, model, rows, ordered, resolved, ids, i);
      var l := SpeakerOf(before, speakers, stored, prints, model, rows, ordered, resolved, ids, j);
      if Together(ordered, i, j) {
        var m :| 0 <= m < |ordered| && i in ordered[m] && j in ordered[m];
      }
    }
  }

  lemma WrittenClearsOthers(before: map<Identity, Speaker>, speakers: map<Identity, Speaker>, stored: map<nat, Print>,
                            prints: map<nat, Print>, model: string, rows: seq<Row>, ordered: seq<seq<nat>>,
                            resolved: seq<Option<Identity>>, ids: seq<Identity>)
    requires AllWritten(before, speakers, stored, prints, model, rows, ordered, resolved, ids)
    ensures OthersCleared(stored, prints, model, rows)
  {
    forall a | a in prints && (forall i :: 0 <= i < |rows| ==> rows[i].artifact != a)
      ensures prints[a] == Cleared(stored, model)[a]
    {
      forall k | 0 <= k < |ids| ensures a !in Artifacts(rows, ordered[k]) {}
    }
  }

  lemma WrittenThenPruned(before: map<Identity, Speaker>, speakers: map<Identity, Speaker>, stored: map<nat, Print>,
                          prints: map<nat, Print>, model: string, rows: seq<Row>, ordered: seq<seq<nat>>,
                          resolved: seq<Option<Identity>>, ids: seq<Identity>)
    requires AllWritten(before, speakers, stored, prints, model, rows, ordered, resolved, ids)
    ensures SpeakersPruned(before, Pruned(speakers, prints, model), prints, model)
  {
  }

  /** What the identity chosen for the next cluster must satisfy. */
  lemma ChoiceFits(before: map<Identity, Speaker>, speakers: map<Identity, Speaker>, cleared: map<nat, Print>,
                   prints: map<nat, Print>, model: string, rows: seq<Row>, ordered: seq<seq<nat>>,
                   resolved: seq<Option<Identity>>, ids: seq<Identity>, id: Identity)
    requires Written(before, speakers, cleared, prints, model, rows, ordered, ids)
    requires |ids| < |resolved| == |ordered| && Kept(before, OfModel(before, model), resolved, ids)
    requires Resolves(rows, ordered, OfModel(before, model), resolved)
    requires if resolved[|ids|].Some? && resolved[|ids|].value in OfModel(before, model)
             then id == resolved[|ids|].value else id !in speakers
    ensures id !in ids && Kept(before, OfModel(before, model), resolved, ids + [id])
  {
  }

  /** Every print of cluster k has the speaker the cluster resolved to, or a new one when it
      resolved to none of the model's. */
  ghost predicate FollowsResolution(before: map<Identity, Speaker>, existing: map<Identity, Speaker>,
                                    prints: map<nat, Print>, rows: seq<Row>, ordered: seq<seq<nat>>,
                                    resolved: seq<Option<Identity>>) {
    && |resolved| == |ordered|
    && forall k, i :: 0 <= k < |ordered| && i in ordered[k] && i < |rows| ==>
         && rows[i].artifact in prints && prints[rows[i].artifact].speaker.Some?
         && if resolved[k].Some? && resolved[k].value in existing then prints[rows[i].artifact].speaker == resolved[k]
            else prints[rows[i].artifact].speaker.value !in before
  }

  lemma WrittenFollows(before: map<Identity, Speaker>, speakers: map<Identity, Speaker>, stored: map<nat, Print>,
                       prints: map<nat, Print>, model: string, rows: seq<Row>, ordered: seq<seq<nat>>,
                       resolved: seq<Option<Identity>>, ids: seq<Identity>)
    requires AllWritten(before, speakers, stored, prints, model, rows, ordered, resolved, ids)
    ensures FollowsResolution(before, OfModel(before, model), prints, rows, ordered, resolved)
  {
    hide Resolves, Clustered, FromTables, OfModel, Cleared;
    forall k, i | 0 <= k < |ordered| && i in ordered[k] && i < |rows|
      ensures rows[i].artifact in prints && prints[rows[i].artifact].speaker == Some(ids[k])
    {
    }
  }

  /** The rows carry the assignments of the table they were read from. */
  ghost predicate Loaded(rows: seq<Row>, prints: map<nat, Print>) {
    forall i :: 0 <= i < |rows| ==> rows[i].artifact in prints && rows[i].speaker == prints[rows[i].artifact].speaker
  }

  /** A rebuild that finds the clusters the table already carries changes none of their assignments. */
  lemma UnchangedRebuildKeepsPrints(stored: map<nat, Print>, before: map<Identity, Speaker>,
                                    existing: map<Identity, Speaker>, prints: map<nat, Print>,
                                    rows: seq<Row>, ordered: seq<seq<nat>>, resolved: seq<Option<Identity>>,
                                    own: seq<Identity>, k: nat, i: nat)
    requires Loaded(rows, stored) && FollowsResolution(before, existing, prints, rows, ordered, resolved)
    requires Resolves(rows, ordered, existing, resolved) && Matched(rows, ordered, existing, resolved)
    requires |resolved| == |ordered| && Carried(rows, ordered, existing, own)
    requires k < |ordered| && i in ordered[k]
    ensures i < |rows| && rows[i].artifact in prints && rows[i].artifact in stored
    ensures prints[rows[i].artifact].speaker == stored[rows[i].artifact].speaker
  {
    hide Resolves, Matched;
    UnchangedClustersKeepIds(rows, ordered, existing, resolved, own);
    assert CarriedAt(rows, ordered[k], existing, own[k]);
  }

  /** The clusters as they came and as they were taken, and the identity each resolved to. */
  datatype Grouping = Grouping(
    clusters: seq<seq<nat>>,
    ordered: seq<seq<nat>>,
    resolved: seq<Option<Identity>>
  )

  /** What `_reconcile` turns the tables into: clusters on speakers, pins honoured, other prints of
      the model unassigned, empty unnamed speakers gone, and every identity the best one there was. */
  ghost predicate Reconciled(before: Tables, after: Tables, model: string, rows: seq<Row>, r: Grouping) {
    var existing := OfModel(before.speakers, model);
    && PinsKept(existing, after.prints, rows)
    && OneSpeakerPerCluster(after.speakers, after.prints, model, rows, r.clusters)
    && OthersCleared(before.prints, after.prints, model, rows)
    && SpeakersPruned(before.speakers, after.speakers, after.prints, model)
    && Clustered(rows, r.ordered) && SameGrouping(rows, r.clusters, r.ordered) && InClusterOrder(rows, r.ordered)
    && Resolves(rows, r.ordered, existing, r.resolved) && Matched(rows, r.ordered, existing, r.resolved)
    && FollowsResolution(before.speakers, existing, after.prints, rows, r.ordered, r.resolved)
  }

  /** `_reconcile`. */
  method Reconcile(t: SpeakerTables, model: string, rows: seq<Row>, clusters: seq<seq<nat>>)
    returns (ghost r: Grouping)
    requires t.Valid() && Clustered(rows, clusters) && FromTables(rows, t.prints, model)
    modifies t
    ensures t.Valid() && r.clusters == clusters
    ensures Reconciled(old(t.Contents()), t.Contents(), model, rows, r)
  {
    hide Matched, InClusterOrder, FollowsResolution;
    hide Clustered, Written, Kept, Resolves, FromTables, IsPinned, Artifacts, AssignedTo, OfModel, SameGrouping;
    hide PinsKept, OneSpeakerPerCluster, OthersCleared, SpeakersPruned, Prunable, ClusterLe, Together;
    ghost var before, stored := t.speakers, t.prints;
    var existing := OfModel(t.speakers, model);
    var inOrder := InOrderOf(rows, clusters);
    ghost var ordered := SortedClusters(rows, clusters);
    var identities := Resolve(rows, inOrder, existing);
    ghost var resolved := identities;
    t.ClearAssignments(model);
    ghost var cleared := t.prints;
    ghost var ids: seq<Identity> := [];
    NothingWritten(before, cleared, model, rows, ordered, existing, resolved);
    ClearedFromTables(rows, stored, model);
    for k := 0 to |inOrder|
      invariant t.Valid() && |ids| == k && Kept(before, existing, resolved, ids)
      invariant Written(before, t.speakers, cleared, t.prints, model, rows, ordered, ids)
    {
      var id;
      ghost var speakers := t.speakers;
      if identities[k].Some? && identities[k].value in existing {
        id := identities[k].value;
        ExistingStay(before, speakers, cleared, t.prints, model, rows, ordered, ids, id);
      } else {
        id := t.Create(model);
      }
      ChoiceFits(before, speakers, cleared, t.prints, model, rows, ordered, resolved, ids, id);
      WriteOne(before, speakers, t.speakers, cleared, t.prints, model, rows, ordered, ids, id);
      t.SetAssignments(id, Artifacts(rows, inOrder[k]));
      ids := ids + [id];
    }
    WrittenKeepsPins(before, t.speakers, stored, t.prints, model, rows, ordered, resolved, ids);
    WrittenAssignsClusters(before, t.speakers, stored, t.prints, model, rows, ordered, resolved, ids);
    WrittenClearsOthers(before, t.speakers, stored, t.prints, model, rows, ordered, resolved, ids);
    WrittenThenPruned(before, t.speakers, stored, t.prints, model, rows, ordered, resolved, ids);
    WrittenFollows(before, t.speakers, stored, t.prints, model, rows, ordered, resolved, ids);
    t.DeleteEmptyUnlabeled(model);
    RegroupSpeakers(t.speakers, t.prints, model, rows, ordered, clusters);
    r := Grouping(clusters, ordered, resolved);
  }

  lemma NothingWritten(before: map<Identity, Speaker>, cleared: map<nat, Print>, model: string, rows: seq<Row>,
                       ordered: seq<seq<nat>>, existing: map<Identity, Speaker>, resolved: seq<Option<Identity>>)
    ensures Written(before, before, cleared, cleared, model, rows, ordered, []) && Kept(before, existing, resolved, [])
  {
  }

  lemma ClearedFromTables(rows: seq<Row>, stored: map<nat, Print>, model: string)
    requires FromTables(rows, stored, model)
    ensures FromTables(rows, Cleared(stored, model), model)
  {
  }

  lemma ExistingStay(before: map<Identity, Speaker>, speakers: map<Identity, Speaker>, cleared: map<nat, Print>,
                     prints: map<nat, Print>, model: string, rows: seq<Row>, ordered: seq<seq<nat>>,
                     ids: seq<Identity>, id: Identity)
    requires Written(before, speakers, cleared, prints, model, rows, ordered, ids) && id in OfModel(before, model)
    ensures id in speakers
  {
  }

  lemma RegroupSpeakers(speakers: map<Identity, Speaker>, prints: map<nat, Print>, model: string, rows: seq<Row>,
                        ordered: seq<seq<nat>>, clusters: seq<seq<nat>>)
    requires OneSpeakerPerCluster(speakers, prints, model, rows, ordered) && SameGrouping(rows, clusters, ordered)
    ensures OneSpeakerPerCluster(speakers, prints, model, rows, clusters)
  {
  }

  /** Passes the talk gate: long enough, of unknown length, or pinned. */
  predicate Gated(row: Row, minTalkMs: int) {
    row.pinnedTo.Some? || row.talkMs.None? || row.talkMs.value >= minTalkMs
  }

  /** The pins of the gated rows, by position. */
  ghost predicate PinsOf(rows: seq<Row>, pins: map<nat, Identity>) {
    && (forall j :: j in pins <==> 0 <= j < |rows| && rows[j].pinnedTo.Some?)
    && (forall j :: j in pins ==> j < |rows| && rows[j].pinnedTo == Some(pins[j]))
  }

  /** The rows that pass, in their order. */
  function GatedOf(corpus: seq<Row>, minTalkMs: int): seq<Row> {
    if corpus == [] then []
    else
      var row := corpus[|corpus| - 1];
      GatedOf(corpus[..|corpus| - 1], minTalkMs) + if Gated(row, minTalkMs) then [row] else []
  }

  /** The norms of the rows' vectors. */
  ghost predicate NormsOf(rows: seq<Row>, norms: seq<real>) {
    && |norms| == |rows|
    && forall j :: 0 <= j < |rows| ==> IsNorm(rows[j].embedding, norms[j])
  }

  lemma {:induction false} GatedMembers(corpus: seq<Row>, minTalkMs: int)
    ensures forall row :: row in GatedOf(corpus, minTalkMs) <==> row in corpus && Gated(row, minTalkMs)
  {
    if corpus != [] {
      GatedMembers(corpus[..|corpus| - 1], minTalkMs);
      assert corpus == corpus[..|corpus| - 1] + [corpus[|corpus| - 1]];
    }
  }

  /** The gate in full: the positions of the rows that pass, in order, are those of the rows that are
      pinned, of unknown length, or long enough. */
  lemma {:induction false} GateMeans(corpus: seq<Row>, minTalkMs: int) returns (positions: seq<nat>)
    ensures Increasing(positions) && |positions| == |GatedOf(corpus, minTalkMs)|
    ensures forall k :: 0 <= k < |positions| ==>
      positions[k] < |corpus| && GatedOf(corpus, minTalkMs)[k] == corpus[positions[k]]
    ensures forall i: nat :: i in positions <==>
      && i < |corpus|
      && (corpus[i].pinnedTo.Some? || corpus[i].talkMs.None? || corpus[i].talkMs.value >= minTalkMs)
  {
    if corpus == [] {
      positions := [];
    } else {
      var n := |corpus| - 1;
      var before := GateMeans(corpus[..n], minTalkMs);
      forall x | x in before ensures x < n {}
      AppendKeepsIncreasing(before, n);
      positions := before + if Gated(corpus[n], minTalkMs) then [n] else [];
    }
  }

  lemma GateNext(corpus: seq<Row>, minTalkMs: int, i: nat)
    requires i < |corpus|
    ensures GatedOf(corpus[..i + 1], minTalkMs) ==
            GatedOf(corpus[..i], minTalkMs) + if Gated(corpus[i], minTalkMs) then [corpus[i]] else []
  {
    assert corpus[..i + 1][..i] == corpus[..i];
  }

  lemma GateNothing(minTalkMs: int)
    ensures GatedOf([], minTalkMs) == []
  {
  }

  /** `gated` and `pins` of the rebuild. */
  method Gate(corpus: seq<Row>, norms: seq<real>, minTalkMs: int)
    returns (gated: seq<Row>, lengths: seq<real>, pins: map<nat, Identity>)
    requires Numbered(corpus) && NormsOf(corpus, norms)
    ensures gated == GatedOf(corpus, minTalkMs) && NormsOf(gated, lengths) && Numbered(gated) && PinsOf(gated, pins)
  {
    hide Safe, Dot, GatedOf;
    gated, lengths, pins := [], [], map[];
    GateNothing(minTalkMs);
    assert corpus[..0] == [];
    for i := 0 to |corpus|
      invariant gated == GatedOf(corpus[..i], minTalkMs) && NormsOf(gated, lengths)
      invariant Numbered(gated) && PinsOf(gated, pins)
    {
      var row := corpus[i];
      GateNext(corpus, minTalkMs, i);
      GatedMembers(corpus[..i], minTalkMs);
      if Gated(row, minTalkMs) {
        forall j | 0 <= j < |gated| ensures gated[j].artifact != row.artifact {
          assert gated[j] in gated;
        }
        if row.pinnedTo.Some? { pins := pins[|gated| := row.pinnedTo.value]; }
        gated, lengths := gated + [row], lengths + [norms[i]];
      }
    }
    assert corpus[..|corpus|] == corpus;
  }

  /** The corpus the clusterer sees: the gated prints' directions, by position, and their pins. */
  ghost predicate IsCorpusOf(c: Corpus, rows: seq<Row>) {
    && |c.unit| == |c.finite| == |rows| && PinsOf(rows, c.pins)
    && forall i :: 0 <= i < |rows| ==>
         && c.finite[i] == AllFinite(rows[i].embedding)
         && IsDirection(rows[i].embedding, c.unit[i])
  }

  /** The row divided by its Euclidean length. */
  ghost predicate IsDirection(row: seq<Coordinate>, v: Vector) {
    exists norm: real :: v == Unit(row, norm) && IsNorm(row, norm)
  }

  lemma CorpusOfGated(rows: seq<Row>, vectors: seq<seq<Coordinate>>, lengths: seq<real>, pins: map<nat, Identity>,
                      dim: nat)
    requires PinsOf(rows, pins) && |lengths| == |rows| == |vectors|
    requires forall j :: 0 <= j < |rows| ==>
      vectors[j] == rows[j].embedding && IsNorm(rows[j].embedding, lengths[j])
    ensures IsCorpusOf(Normalised(vectors, lengths, pins, dim), rows)
  {
    hide IsNorm, Unit, AllFinite;
    var c := Normalised(vectors, lengths, pins, dim);
    forall i | 0 <= i < |rows| ensures IsDirection(rows[i].embedding, c.unit[i]) {
      assert c.unit[i] == Unit(rows[i].embedding, lengths[i]);
    }
  }

  /** One rebuild over rows: the corpus they make up, its average linkage at the threshold, and the
      tables reconciled with those clusters. */
  ghost predicate Rebuilt(before: Tables, after: Tables, model: string, rows: seq<Row>, dim: nat, threshold: real,
                          r: Grouping) {
    && Reconciled(before, after, model, rows, r)
    && exists c :: ClusteredAs(c, rows, dim, threshold, r.clusters)
  }

  ghost predicate ClusteredAs(c: Corpus, rows: seq<Row>, dim: nat, threshold: real, clusters: seq<seq<nat>>) {
    && c.Valid() && c.dim == dim && IsCorpusOf(c, rows) && AverageLinkageOf(c, threshold, clusters)
  }

  /** The rebuild of one model: gate, cluster, reconcile. */
  method RebuildModel(t: SpeakerTables, model: string, corpus: seq<Row>, norms: seq<real>, dim: nat,
                      minTalkMs: int, threshold: real)
    returns (gated: seq<Row>, clusters: seq<seq<nat>>, ghost c: Corpus, ghost r: Grouping)
    requires t.Valid() && FromTables(corpus, t.prints, model) && NormsOf(corpus, norms)
    requires forall i :: 0 <= i < |corpus| ==> |corpus[i].embedding| == dim
    modifies t
    ensures t.Valid() && gated == GatedOf(corpus, minTalkMs) && r.clusters == clusters
    ensures Rebuilt(old(t.Contents()), t.Contents(), model, gated, dim, threshold, r)
    ensures ClusteredAs(c, gated, dim, threshold, clusters) && Partition(clusters, |gated|)
    ensures forall k :: 0 <= k < |clusters| ==> Justified(c, Elements(clusters[k]), threshold)
    ensures forall k, l :: 0 <= k < l < |clusters| ==> Apart(c, Elements(clusters[k]), Elements(clusters[l]), threshold)
  {
    hide Safe, Dot, Justified, IsCorpusOf, Reconciled, Apart, GatedOf, AverageLinkageOf;
    var lengths, pins;
    gated, lengths, pins := Gate(corpus, norms, minTalkMs);
    GatedMembers(corpus, minTalkMs);
    forall j | 0 <= j < |gated|
      ensures |gated[j].embedding| == dim
      ensures gated[j].artifact in t.prints && t.prints[gated[j].artifact].model == model
    {
      assert gated[j] in gated;
    }
    var vectors := seq(|gated|, j requires 0 <= j < |gated| => gated[j].embedding);
    clusters := ClusterCorpus(vectors, lengths, pins, dim, threshold);
    c := Normalised(vectors, lengths, pins, dim);
    ClustererMeetsReconcile(gated, clusters, c, threshold);
    CorpusOfGated(gated, vectors, lengths, pins, dim);
    assert ClusteredAs(c, gated, dim, threshold, clusters);
    r := Reconcile(t, model, gated, clusters);
  }

  lemma ClustererMeetsReconcile(rows: seq<Row>, clusters: seq<seq<nat>>, c: Corpus, threshold: real)
    requires c.Valid() && |c.unit| == |rows| && Partition(clusters, |rows|)
    requires PinsOf(rows, c.pins)
    requires forall k :: 0 <= k < |clusters| ==> Justified(c, Elements(clusters[k]), threshold)
    ensures Clustered(rows, clusters)
  {
    PinsAreHonoured(c, clusters, threshold);
  }

  // ----- rebuilding again

  /** The same rows, read again after a rebuild. */
  function Reread(rows: seq<Row>, prints: map<nat, Print>): (r: seq<Row>)
    requires forall i :: 0 <= i < |rows| ==> rows[i].artifact in prints
    ensures |r| == |rows|
    ensures forall i :: 0 <= i < |rows| ==> r[i] == rows[i].(speaker := prints[rows[i].artifact].speaker)
  {
    seq(|rows|, i requires 0 <= i < |rows| => rows[i].(speaker := prints[rows[i].artifact].speaker))
  }

  /** Every pin is to a speaker of the model. */
  predicate PinsInModel(rows: seq<Row>, speakers: map<Identity, Speaker>, model: string) {
    forall i :: 0 <= i < |rows| && rows[i].pinnedTo.Some? ==> rows[i].pinnedTo.value in OfModel(speakers, model)
  }

  /** The foreign key of the pins. */
  predicate PinsRefer(rows: seq<Row>, speakers: map<Identity, Speaker>) {
    forall i :: 0 <= i < |rows| && rows[i].pinnedTo.Some? ==> rows[i].pinnedTo.value in speakers
  }

  /** The rebuild keeps the foreign key of the prints. */
  lemma RebuildRefers(speakers: map<Identity, Speaker>, prints: map<nat, Print>,
                      after: map<Identity, Speaker>, linked: map<nat, Print>, model: string, rows: seq<Row>,
                      clusters: seq<seq<nat>>)
    requires Refers(speakers, prints) && OneSpeakerPerCluster(after, linked, model, rows, clusters)
    requires OthersCleared(prints, linked, model, rows) && SpeakersPruned(speakers, after, linked, model)
    ensures Refers(after, linked)
  {
    hide Together;
    forall a | a in linked && linked[a].speaker.Some? ensures linked[a].speaker.value in after {
      if prints[a].model != model {
        assert HasMember(linked, linked[a].speaker.value);
      } else {
        var i :| 0 <= i < |rows| && rows[i].artifact == a;
        assert AssignedInModel(after, linked, model, rows[i].artifact);
      }
    }
  }

  /** The speaker each cluster got. */
  ghost function SpeakersOf(rows: seq<Row>, ordered: seq<seq<nat>>): (own: seq<Identity>)
    requires forall k :: 0 <= k < |ordered| ==>
      ordered[k] != [] && ordered[k][0] < |rows| && rows[ordered[k][0]].speaker.Some?
    ensures |own| == |ordered| && forall k :: 0 <= k < |ordered| ==> Some(own[k]) == rows[ordered[k][0]].speaker
  {
    seq(|ordered|, k requires 0 <= k < |ordered| => rows[ordered[k][0]].speaker.value)
  }

  lemma SameCluster(rows: seq<Row>, ordered: seq<seq<nat>>, k: nat, l: nat, i: nat, j: nat)
    requires Clustered(rows, ordered) && k < |ordered| && l < |ordered| && i in ordered[k] && j in ordered[l]
    ensures i < |rows| && j < |rows| && (Together(ordered, i, j) <==> k == l)
  {
    if Together(ordered, i, j) {
      var m :| 0 <= m < |ordered| && i in ordered[m] && j in ordered[m];
    }
  }

  /** Read again, the prints carry the speakers of their clusters. */
  lemma RereadIsCarried(after: map<Identity, Speaker>, linked: map<nat, Print>, existing: map<Identity, Speaker>,
                        model: string, rows: seq<Row>, clusters: seq<seq<nat>>, ordered: seq<seq<nat>>)
    returns (own: seq<Identity>)
    requires OneSpeakerPerCluster(after, linked, model, rows, clusters) && existing == OfModel(after, model)
    requires Clustered(Reread(rows, linked), ordered) && SameGrouping(Reread(rows, linked), clusters, ordered)
    requires forall i :: 0 <= i < |rows| && rows[i].pinnedTo.Some? ==>
      linked[rows[i].artifact].speaker == rows[i].pinnedTo
    ensures Carried(Reread(rows, linked), ordered, existing, own)
  {
    var again := Reread(rows, linked);
    hide Together, Clustered, SameGrouping, OneSpeakerPerCluster;
    forall k | 0 <= k < |ordered|
      ensures ordered[k] != [] && ordered[k][0] < |again| && again[ordered[k][0]].speaker.Some?
    {
      ClusterFirst(again, ordered, k);
      RowIsAssigned(after, linked, model, rows, clusters, ordered[k][0]);
    }
    own := SpeakersOf(again, ordered);
    forall k | 0 <= k < |ordered| ensures CarriedAt(again, ordered[k], existing, own[k]) {
      RowIsAssigned(after, linked, model, rows, clusters, ordered[k][0]);
      forall i | i in ordered[k] ensures i < |again| && again[i].speaker == Some(own[k]) {
        SameCluster(again, ordered, k, k, i, ordered[k][0]);
        GroupedAlike(after, linked, model, rows, again, clusters, ordered, i, ordered[k][0]);
      }
    }
    forall k, l | 0 <= k < l < |ordered| ensures own[k] != own[l] {
      SameCluster(again, ordered, k, l, ordered[k][0], ordered[l][0]);
      GroupedAlike(after, linked, model, rows, again, clusters, ordered, ordered[k][0], ordered[l][0]);
    }
  }

  lemma ClusterFirst(rows: seq<Row>, ordered: seq<seq<nat>>, k: nat)
    requires Clustered(rows, ordered) && k < |ordered|
    ensures ordered[k] != [] && ordered[k][0] < |rows|
  {
    assert ordered[k] != [] && ordered[k][0] in ordered[k];
  }

  lemma RowIsAssigned(after: map<Identity, Speaker>, linked: map<nat, Print>, model: string, rows: seq<Row>,
                      clusters: seq<seq<nat>>, i: nat)
    requires OneSpeakerPerCluster(after, linked, model, rows, clusters) && i < |rows|
    ensures AssignedInModel(after, linked, model, rows[i].artifact)
  {
    hide Together;
  }

  lemma GroupedAlike(after: map<Identity, Speaker>, linked: map<nat, Print>, model: string, rows: seq<Row>,
                     again: seq<Row>, clusters: seq<seq<nat>>, ordered: seq<seq<nat>>, i: nat, j: nat)
    requires OneSpeakerPerCluster(after, linked, model, rows, clusters) && i < |rows| == |again| && j < |rows|
    requires SameGrouping(again, clusters, ordered)
    ensures rows[i].artifact in linked && rows[j].artifact in linked
    ensures Together(ordered, i, j) <==> linked[rows[i].artifact].speaker == linked[rows[j].artifact].speaker
  {
    hide Together;
    RowIsAssigned(after, linked, model, rows, clusters, i);
    RowIsAssigned(after, linked, model, rows, clusters, j);
  }

  /** Pins to speakers of the model: the second rebuild assigns every gated print as the first. */
  lemma SecondKeepsGated(speakers: map<Identity, Speaker>, after: map<Identity, Speaker>, linked: map<nat, Print>,
                         last: map<nat, Print>, model: string, rows: seq<Row>, clusters: seq<seq<nat>>,
                         ordered: seq<seq<nat>>, resolved: seq<Option<Identity>>, i: nat)
    requires PinsKept(OfModel(speakers, model), linked, rows) && PinsInModel(rows, speakers, model)
    requires OneSpeakerPerCluster(after, linked, model, rows, clusters) && i < |rows|
    requires var again := Reread(rows, linked);
      && Clustered(again, ordered) && SameGrouping(again, clusters, ordered)
      && Resolves(again, ordered, OfModel(after, model), resolved)
      && Matched(again, ordered, OfModel(after, model), resolved)
      && FollowsResolution(after, OfModel(after, model), last, again, ordered, resolved)
    ensures SameSpeaker(linked, last, rows[i].artifact)
  {
    var again := Reread(rows, linked);
    hide Together, Clustered, SameGrouping, OneSpeakerPerCluster, Resolves, Matched, OfModel, Carried;
    var own := RereadIsCarried(after, linked, OfModel(after, model), model, rows, clusters, ordered);
    var k := ClusterOf(again, ordered, i);
    assert Loaded(again, linked);
    UnchangedRebuildKeepsPrints(linked, after, OfModel(after, model), last, again, ordered, resolved, own, k, i);
  }

  predicate SameSpeaker(linked: map<nat, Print>, last: map<nat, Print>, a: nat) {
    a in last && a in linked && last[a].speaker == linked[a].speaker
  }

  /** What the model's other prints and the other models' hold does not change again. */
  lemma SecondKeepsOthers(prints: map<nat, Print>, linked: map<nat, Print>, last: map<nat, Print>, model: string,
                          rows: seq<Row>, again: seq<Row>)
    requires OthersCleared(prints, linked, model, rows) && OthersCleared(linked, last, model, again)
    requires |again| == |rows| && forall i :: 0 <= i < |rows| ==> again[i].artifact == rows[i].artifact
    requires forall i :: 0 <= i < |rows| ==> SameSpeaker(linked, last, rows[i].artifact)
    ensures last == linked
  {
    forall a | a in linked ensures a in last && last[a] == linked[a] {
      if linked[a].model == model {
        assert prints[a].model == model;
        if forall i :: 0 <= i < |rows| ==> rows[i].artifact != a {
          assert last[a].speaker == None && linked[a].speaker == None;
        }
      }
    }
  }

  lemma SecondKeepsSpeakers(speakers: map<Identity, Speaker>, after: map<Identity, Speaker>,
                            end: map<Identity, Speaker>, linked: map<nat, Print>, model: string)
    requires SpeakersPruned(speakers, after, linked, model) && SpeakersPruned(after, end, linked, model)
    requires Refers(after, linked)
    ensures end == after
  {
    forall id | id in after ensures id in end {
    }
    forall id | id in end ensures id in after {
      if HasMember(linked, id) { MemberExists(after, linked, id); }
    }
  }

  lemma MemberExists(speakers: map<Identity, Speaker>, prints: map<nat, Print>, id: Identity)
    requires Refers(speakers, prints) && HasMember(prints, id)
    ensures id in speakers
  {
  }

  lemma UnitOnce(row: seq<Coordinate>, u: Vector, v: Vector)
    requires IsDirection(row, u) && IsDirection(row, v)
    ensures u == v
  {
    hide Unit;
    var m: real :| u == Unit(row, m) && IsNorm(row, m);
    var n: real :| v == Unit(row, n) && IsNorm(row, n);
    hide Dot, Safe;
    RootOnce(m, n);
  }

  lemma RootOnce(m: real, n: real)
    requires m >= 0.0 && n >= 0.0 && m * m == n * n
    ensures m == n
  {
    assert (m - n) * (m + n) == m * m - n * n;
    if m + n != 0.0 {
      QuotientIs(0.0, m + n, m - n);
      QuotientIs(0.0, m + n, 0.0);
    }
  }

  /** The corpus depends on the vectors and the pins only. */
  lemma CorpusIsDetermined(c: Corpus, d: Corpus, rows: seq<Row>, again: seq<Row>)
    requires c.dim == d.dim && IsCorpusOf(c, rows) && IsCorpusOf(d, again) && |again| == |rows|
    requires forall i :: 0 <= i < |rows| ==>
      again[i].embedding == rows[i].embedding && again[i].pinnedTo == rows[i].pinnedTo
    ensures c == d
  {
    hide IsDirection, AllFinite;
    forall i | 0 <= i < |rows| ensures c.unit[i] == d.unit[i] {
      UnitOnce(rows[i].embedding, c.unit[i], d.unit[i]);
    }
    forall j ensures j in c.pins <==> j in d.pins {}
    forall j | j in c.pins ensures c.pins[j] == d.pins[j] {}
  }

  /** Rows that differ in their assignments only are clustered alike. */
  lemma ClusteredAlike(a: Grouping, b: Grouping, rows: seq<Row>, again: seq<Row>, dim: nat, threshold: real)
    requires exists c :: ClusteredAs(c, rows, dim, threshold, a.clusters)
    requires exists c :: ClusteredAs(c, again, dim, threshold, b.clusters)
    requires |again| == |rows| && forall i :: 0 <= i < |rows| ==>
      again[i].embedding == rows[i].embedding && again[i].pinnedTo == rows[i].pinnedTo
    ensures a.clusters == b.clusters
  {
    hide IsCorpusOf, AverageLinkageOf;
    var c :| ClusteredAs(c, rows, dim, threshold, a.clusters);
    var d :| ClusteredAs(d, again, dim, threshold, b.clusters);
    CorpusIsDetermined(c, d, rows, again);
    ClustersAreDetermined(c, threshold, a.clusters, b.clusters);
  }

  /** A pin to another model's speaker gets a fresh speaker every time. */
  lemma ForeignPinMoves(before: Tables, after: Tables, end: Tables, model: string, rows: seq<Row>, a: Grouping,
                        b: Grouping, i: nat)
    requires Reconciled(before, after, model, rows, a) && i < |rows|
    requires forall j :: 0 <= j < |rows| ==> rows[j].artifact in after.prints
    requires Reconciled(after, end, model, Reread(rows, after.prints), b)
    requires rows[i].pinnedTo.Some? && rows[i].pinnedTo.value in before.speakers
    requires rows[i].pinnedTo.value !in OfModel(before.speakers, model)
    ensures var p := rows[i].artifact;
      && p in after.prints && after.prints[p].speaker.Some? && p in end.prints
      && end.prints[p].speaker.Some? && end.prints[p].speaker.value !in after.speakers
      && after.prints[p].speaker.value in after.speakers && after.prints[p].speaker != rows[i].pinnedTo
  {
    var again := Reread(rows, after.prints);
    hide Together, Clustered, OneSpeakerPerCluster;
    var k := ClusterOf(again, b.ordered, i);
    RowIsAssigned(after.speakers, after.prints, model, rows, a.clusters, i);
    assert again[i].pinnedTo == rows[i].pinnedTo && again[i].artifact == rows[i].artifact;
    assert b.resolved[k] == rows[i].pinnedTo && b.resolved[k].value !in OfModel(after.speakers, model);
  }

  /** Over the same clusters, the second rebuild changes nothing at all exactly when every pin is to
      a speaker of the model. */
  lemma SameClustersExactlyWhen(before: Tables, after: Tables, end: Tables, model: string, rows: seq<Row>,
                                a: Grouping, b: Grouping)
    requires Refers(before.speakers, before.prints) && PinsRefer(rows, before.speakers)
    requires Reconciled(before, after, model, rows, a) && a.clusters == b.clusters
    requires forall i :: 0 <= i < |rows| ==> rows[i].artifact in after.prints
    requires Reconciled(after, end, model, Reread(rows, after.prints), b)
    ensures end == after <==> PinsInModel(rows, before.speakers, model)
  {
    var again := Reread(rows, after.prints);
    if PinsInModel(rows, before.speakers, model) {
      hide Together, Clustered, SameGrouping, OneSpeakerPerCluster, Resolves, Matched, OfModel, InClusterOrder;
      hide FollowsResolution, OthersCleared, SpeakersPruned, PinsKept, Refers;
      RebuildRefers(before.speakers, before.prints, after.speakers, after.prints, model, rows, a.clusters);
      forall i: nat | i < |rows|
        ensures SameSpeaker(after.prints, end.prints, rows[i].artifact)
      {
        SecondKeepsGated(before.speakers, after.speakers, after.prints, end.prints, model, rows, a.clusters,
                         b.ordered, b.resolved, i);
      }
      SecondKeepsOthers(before.prints, after.prints, end.prints, model, rows, again);
      SecondKeepsSpeakers(before.speakers, after.speakers, end.speakers, after.prints, model);
    } else {
      hide Reconciled, OfModel;
      var i: nat :| i < |rows| && rows[i].pinnedTo.Some?
                    && rows[i].pinnedTo.value !in OfModel(before.speakers, model);
      ForeignPinMoves(before, after, end, model, rows, a, b, i);
    }
  }

  /** A second rebuild over the same corpus changes nothing at all exactly when every gated pin is to
      a speaker of the model. It clusters as the first one did, because the vectors and the pins
      determine the clusters. */
  lemma SecondRebuildExactlyWhen(before: Tables, after: Tables, end: Tables, model: string, corpus: seq<Row>,
                                 minTalkMs: int, dim: nat, threshold: real, a: Grouping, b: Grouping)
    requires Refers(before.speakers, before.prints) && PinsRefer(GatedOf(corpus, minTalkMs), before.speakers)
    requires forall i :: 0 <= i < |corpus| ==> corpus[i].artifact in after.prints
    requires Rebuilt(before, after, model, GatedOf(corpus, minTalkMs), dim, threshold, a)
    requires Rebuilt(after, end, model, GatedOf(Reread(corpus, after.prints), minTalkMs), dim, threshold, b)
    ensures end == after <==> PinsInModel(GatedOf(corpus, minTalkMs), before.speakers, model)
  {
    hide Reconciled, ClusteredAs, GatedOf, PinsInModel, PinsRefer, Refers;
    var rows := GatedOf(corpus, minTalkMs);
    GateIgnoresSpeakers(corpus, after.prints, minTalkMs);
    ClusteredAlike(a, b, rows, Reread(rows, after.prints), dim, threshold);
    SameClustersExactlyWhen(before, after, end, model, rows, a, b);
  }

  /** Such a pin is made when a label is pinned after its print was taken under a new model: the one
      print of "new" below is pinned to a speaker of "old". */
  lemma ForeignPinExample(after: Tables, end: Tables, threshold: real, a: Grouping, b: Grouping)
    requires var before := Tables(map[Identity(1) := Speaker("old", Some("Ann"))], map[7 := Print("new", None)]);
      var corpus := [Row(7, [Finite(1.0)], None, Some(Identity(1)), None)];
      && Rebuilt(before, after, "new", GatedOf(corpus, 0), 1, threshold, a) && 7 in after.prints
      && Rebuilt(after, end, "new", GatedOf(Reread(corpus, after.prints), 0), 1, threshold, b)
    ensures 7 in end.prints && end.prints[7].speaker != after.prints[7].speaker
    ensures after.prints[7].speaker.Some? && after.prints[7].speaker != Some(Identity(1))
  {
    hide Reconciled, ClusteredAs;
    var before := Tables(map[Identity(1) := Speaker("old", Some("Ann"))], map[7 := Print("new", None)]);
    var corpus := [Row(7, [Finite(1.0)], None, Some(Identity(1)), None)];
    assert corpus[..0] == [] && GatedOf([], 0) == [];
    assert GatedOf(corpus, 0) == corpus;
    GateIgnoresSpeakers(corpus, after.prints, 0);
    ForeignPinMoves(before, after, end, "new", corpus, a, b, 0);
  }

  lemma RereadNext(before: seq<Row>, row: Row, prints: map<nat, Print>)
    requires row.artifact in prints && forall i :: 0 <= i < |before| ==> before[i].artifact in prints
    ensures Reread(before + [row], prints) == Reread(before, prints) + [row.(speaker := prints[row.artifact].speaker)]
  {
  }

  /** The gate does not look at assignments: the same rows pass the second time. */
  lemma {:induction false} GateIgnoresSpeakers(corpus: seq<Row>, prints: map<nat, Print>, minTalkMs: int)
    requires forall i :: 0 <= i < |corpus| ==> corpus[i].artifact in prints
    ensures forall i :: 0 <= i < |GatedOf(corpus, minTalkMs)| ==> GatedOf(corpus, minTalkMs)[i].artifact in prints
    ensures GatedOf(Reread(corpus, prints), minTalkMs) == Reread(GatedOf(corpus, minTalkMs), prints)
  {
    hide GatedOf;
    if corpus == [] {
      GateNothing(minTalkMs);
    } else {
      var n := |corpus| - 1;
      var before, row := corpus[..n], corpus[n];
      GateIgnoresSpeakers(before, prints, minTalkMs);
      var again := Reread(corpus, prints);
      assert corpus == before + [row] && corpus[..n + 1] == corpus && again[..n + 1] == again;
      assert again[..n] == Reread(before, prints);
      GateNext(corpus, minTalkMs, n);
      GateNext(again, minTalkMs, n);
      RereadNext(GatedOf(before, minTalkMs), row, prints);
    }
  }
}
