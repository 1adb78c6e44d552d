/** What each pipeline's transactions achieve when nobody else's come between them: from any state,
    the rows that go and the rows that come. */
module Publications {
  import opened Wrappers
  import opened Artifacts

  /** The transactions lead from s to t. */
  ghost predicate Leads(s: State, steps: seq<Step>, t: State)
    decreases |steps|
  {
    if steps == [] then t == s
    else Enabled(s, steps[0]) && Leads(Apply(s, steps[0]), steps[1..], t)
  }

  lemma {:induction false} Then(s: State, steps: seq<Step>, t: State, e: Step)
    requires Leads(s, steps, t) && Enabled(t, e)
    ensures Leads(s, steps + [e], Apply(t, e))
    decreases |steps|
  {
    if steps == [] {
      assert steps + [e] == [e] && [e][1..] == [];
    } else {
      Then(Apply(s, steps[0]), steps[1..], t, e);
      assert (steps + [e])[1..] == steps[1..] + [e];
    }
  }

  /** Rows of the conversation tier of a session. */
  predicate OfConversations(a: Artifact, session: Id) {
    (a.Conversation? || a.ConversationMap?) && a.session == session
  }

  /** Sessions come and go, maintenance can always be run, and a worker can always give up. */
  lemma NeverRefused(s: State, x: Id)
    ensures Enabled(s, if x in s.sessions then DeleteSession(x) else CreateSession(x))
    ensures Enabled(s, Rediarize(x)) && Enabled(s, Retranscribe(x)) && Enabled(s, DropConversations(x))
    ensures x in s.jobs ==> Enabled(s, Abandon(x))
  {
  }

  /** A diarization: the session's utterances, diarize-map, transcripts and conversations are replaced by
      the new utterances and their map; its candidates and all other sessions' rows stay. */
  lemma DiarizeAlone(s: State, session: Id, hosts: map<Id, Option<Id>>, mapId: Id)
    requires session in s.sessions && s.table.Keys <= s.used && mapId !in hosts && mapId !in s.used
    requires forall u :: u in hosts ==>
      u !in s.used && (hosts[u].Some? ==> hosts[u].value in hosts && hosts[hosts[u].value] == None)
    ensures Enabled(s, PublishDiarize(session, hosts, mapId))
    ensures var t := Apply(s, PublishDiarize(session, hosts, mapId));
      && t.jobs == s.jobs && t.sessions == s.sessions
      && mapId in t.table && t.table[mapId] == DiarizeMap(session)
      && (forall u :: u in hosts ==> u in t.table && t.table[u] == Utterance(session, hosts[u]))
      && (forall i :: i in s.table ==>
            (i in t.table <==> s.table[i].session != session || s.table[i].Candidate?)
            && (i in t.table ==> t.table[i] == s.table[i]))
      && forall i :: i in t.table ==> i in s.table || i in hosts || i == mapId
  {
  }

  /** The conversation tier's three transactions, on the present diarize-map: the session's conversations
      are replaced by those of the groups, and their map. */
  lemma RegroupAlone(s: State, job: Id, session: Id, mapId: Id, read: set<Id>, groups: map<Id, set<Id>>, newMap: Id)
    returns (t: State)
    requires job !in s.jobs && mapId in s.table && s.table[mapId] == DiarizeMap(session) && s.table.Keys <= s.used
    requires read == (set u | u in s.table && s.table[u].Utterance? && s.table[u].session == session)
    requires |read| <= 200_000 && forall c :: c in groups ==> groups[c] <= read && c !in s.used
    requires newMap !in groups && newMap !in s.used
    ensures Leads(s, [EnqueueRegroup(job, mapId), ReadUtterances(job, read), PublishConversations(job, groups, newMap)],
                  t)
    ensures t.jobs == s.jobs && t.sessions == s.sessions
    ensures newMap in t.table && t.table[newMap] == ConversationMap(session, mapId)
    ensures forall c :: c in groups ==> c in t.table && t.table[c] == Conversation(session, mapId, groups[c], {})
    ensures forall i :: i in s.table ==>
      (i in t.table <==> !OfConversations(s.table[i], session)) && (i in t.table ==> t.table[i] == s.table[i])
    ensures forall i :: i in t.table ==> i in s.table || i in groups || i == newMap
  {
    hide Apply, Enabled, OfConversations;
    var e, f, g := EnqueueRegroup(job, mapId), ReadUtterances(job, read), PublishConversations(job, groups, newMap);
    var a, b := ReadAlone(s, job, session, mapId, read);
    PublishGroups(b, job, session, mapId, read, groups, newMap);
    t := Apply(b, g);
    assert t.jobs == s.jobs;
    Then(s, [], s, e);
    Then(s, [] + [e], a, f);
    Then(s, [] + [e] + [f], b, g);
    assert [] + [e] + [f] + [g] == [e, f, g];
  }

  lemma ReadAlone(s: State, job: Id, session: Id, mapId: Id, read: set<Id>) returns (a: State, b: State)
    requires job !in s.jobs && mapId in s.table && s.table[mapId] == DiarizeMap(session) && s.table.Keys <= s.used
    requires read == (set u | u in s.table && s.table[u].Utterance? && s.table[u].session == session)
    requires |read| <= 200_000
    ensures Enabled(s, EnqueueRegroup(job, mapId)) && a == Apply(s, EnqueueRegroup(job, mapId))
    ensures Enabled(a, ReadUtterances(job, read)) && b == Apply(a, ReadUtterances(job, read))
    ensures b == s.(jobs := s.jobs[job := Grouped(session, mapId, read)])
  {
    assert read == UtterancesOf(s.table, session);
    a := Apply(s, EnqueueRegroup(job, mapId));
    assert a == s.(jobs := s.jobs[job := Regroup(session, mapId)]);
    b := Apply(a, ReadUtterances(job, read));
  }

  lemma PublishGroups(b: State, job: Id, session: Id, source: Id, read: set<Id>, groups: map<Id, set<Id>>, newMap: Id)
    requires job in b.jobs && b.jobs[job] == Grouped(session, source, read) && source in b.table
    requires b.table.Keys <= b.used && newMap !in groups && newMap !in b.used
    requires forall c :: c in groups ==> groups[c] <= read && c !in b.used
    ensures Enabled(b, PublishConversations(job, groups, newMap))
    ensures var t := Apply(b, PublishConversations(job, groups, newMap));
      && t.jobs == b.jobs - {job} && t.sessions == b.sessions
      && newMap in t.table && t.table[newMap] == ConversationMap(session, source)
      && (forall c :: c in groups ==> c in t.table && t.table[c] == Conversation(session, source, groups[c], {}))
      && (forall i :: i in b.table ==>
            (i in t.table <==> !OfConversations(b.table[i], session)) && (i in t.table ==> t.table[i] == b.table[i]))
      && forall i :: i in t.table ==> i in b.table || i in groups || i == newMap
  {
  }

  /** The transcription of an utterance that has none: one transcript more, under the utterance's host. */
  lemma TranscribeAlone(s: State, job: Id, u: Id, id: Id, text: string)
    requires job !in s.jobs && u in s.table && s.table[u].Utterance? && s.table.Keys <= s.used && id !in s.used
    requires forall i :: i in s.table && s.table[i].Transcript? ==> s.table[i].utterance != u
    ensures Leads(s, [EnqueueTranscribe(job, u), PublishTranscript(job, id, text)],
                  s.(table := s.table[id := Transcript(s.table[u].session, u, s.table[u].host, text)],
                     used := s.used + {id}))
  {
    var e, f := EnqueueTranscribe(job, u), PublishTranscript(job, id, text);
    var a := Apply(s, e);
    assert a.table == s.table && a.used == s.used;
    var b := Apply(a, f);
    assert b.jobs == s.jobs && b.used == s.used + {id};
    hide Apply, Enabled;
    Then(s, [], s, e);
    Then(s, [] + [e], a, f);
    assert [] + [e] + [f] == [e, f];
  }

  /** A comparison of one utterance: the session's candidates are replaced by the new one. */
  lemma CompareAlone(s: State, job: Id, session: Id, u: Id, id: Id, text: string) returns (t: State)
    requires session in s.sessions && job !in s.jobs && s.table.Keys <= s.used && id !in s.used
    requires u in s.table && s.table[u].Utterance? && s.table[u].session == session
    ensures Leads(s, [ReadForComparison(job, session, {u}), ClearCandidates(job), PublishCandidate(job, id, u, text),
                      Abandon(job)], t)
    ensures t.jobs == s.jobs && t.sessions == s.sessions && id in t.table && t.table[id] == Candidate(session, u, text)
    ensures forall i :: i in s.table ==>
      (i in t.table <==> !(s.table[i].Candidate? && s.table[i].session == session))
      && (i in t.table ==> t.table[i] == s.table[i])
    ensures forall i :: i in t.table ==> i in s.table || i == id
  {
    hide Apply, Enabled;
    var e, f := ReadForComparison(job, session, {u}), ClearCandidates(job);
    var g, h := PublishCandidate(job, id, u, text), Abandon(job);
    var a, b := ClearAlone(s, job, session, u);
    var c;
    c, t := CandidateAlone(b, job, session, u, id, text);
    assert t.jobs == s.jobs;
    Then(s, [], s, e);
    Then(s, [] + [e], a, f);
    Then(s, [] + [e] + [f], b, g);
    Then(s, [] + [e] + [f] + [g], c, h);
    assert [] + [e] + [f] + [g] + [h] == [e, f, g, h];
  }

  lemma ClearAlone(s: State, job: Id, session: Id, u: Id) returns (a: State, b: State)
    requires job !in s.jobs && s.table.Keys <= s.used
    requires u in s.table && s.table[u].Utterance? && s.table[u].session == session
    ensures Enabled(s, ReadForComparison(job, session, {u})) && a == Apply(s, ReadForComparison(job, session, {u}))
    ensures Enabled(a, ClearCandidates(job)) && b == Apply(a, ClearCandidates(job))
    ensures b.jobs == s.jobs[job := Comparing(session, {u})] && b.sessions == s.sessions && b.used == s.used
    ensures forall i :: i in b.table <==> i in s.table && !(s.table[i].Candidate? && s.table[i].session == session)
    ensures forall i :: i in b.table ==> b.table[i] == s.table[i]
  {
    assert u in UtterancesOf(s.table, session);
    a := Apply(s, ReadForComparison(job, session, {u}));
    assert a == s.(jobs := s.jobs[job := Comparing(session, {u})]);
    b := Apply(a, ClearCandidates(job));
    assert b.used == s.used;
  }

  lemma CandidateAlone(b: State, job: Id, session: Id, u: Id, id: Id, text: string) returns (c: State, t: State)
    requires session in b.sessions && job in b.jobs && b.jobs[job] == Comparing(session, {u}) && id !in b.used
    ensures Enabled(b, PublishCandidate(job, id, u, text)) && c == Apply(b, PublishCandidate(job, id, u, text))
    ensures Enabled(c, Abandon(job)) && t == Apply(c, Abandon(job))
    ensures t.jobs == b.jobs - {job} && t.sessions == b.sessions
    ensures t.table == b.table[id := Candidate(session, u, text)]
  {
    c := Apply(b, PublishCandidate(job, id, u, text));
    assert c.jobs == b.jobs;
    t := Apply(c, Abandon(job));
  }

  /** A vote for a candidate of an utterance that exists: its text becomes that of the utterance's
      transcript, or of a new one when there is none. */
  lemma VoteAlone(s: State, candidate: Id, session: Id, u: Id, host: Option<Id>, text: string, id: Id)
    requires candidate in s.table && s.table[candidate] == Candidate(session, u, text)
    requires u in s.table && s.table[u] == Utterance(session, host)
    requires
      || (id in s.table && exists was :: s.table[id] == Transcript(session, u, host, was))
      || (id !in s.used && forall i :: i in s.table && s.table[i].Transcript? ==> s.table[i].utterance != u)
    ensures Enabled(s, Vote(candidate, u, id))
    ensures Apply(s, Vote(candidate, u, id)).table == s.table[id := Transcript(session, u, host, text)]
  {
  }

  /** Taking an utterance out of a conversation and putting it back changes nothing, while all of the
      conversation's members can be read and enough are left. */
  lemma ExcludedAndBack(s: State, c: Id, u: Id, readable: set<Id>)
    requires c in s.table && s.table[c].Conversation? && s.table.Keys <= s.used
    requires u in s.table[c].members && u !in s.table[c].excluded
    requires forall m :: m in s.table[c].members ==> m in readable && m in s.table && s.table[m].Utterance?
    ensures Leads(s, [Exclude(c, u, readable, true), Include(c, u, readable, true)], s)
  {
    var e, f := Exclude(c, u, readable, true), Include(c, u, readable, true);
    var a := Apply(s, e);
    var row := s.table[c];
    assert a.table == s.table[c := row.(members := row.members - {u}, excluded := row.excluded + {u})] by {
      assert Readable(s.table, row.members - {u}, readable) == row.members - {u};
    }
    assert a.used == s.used;
    var b := Apply(a, f);
    assert b.table == s.table by {
      assert Readable(a.table, row.members - {u} + {u}, readable) == row.members;
      assert row.excluded + {u} - {u} == row.excluded;
    }
    assert b.used == s.used;
    hide Apply, Enabled;
    Then(s, [], s, e);
    Then(s, [] + [e], a, f);
    assert [] + [e] + [f] == [e, f];
  }
}
