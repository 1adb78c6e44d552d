/** The artifact table derived from a session's audio, under every committed transaction that
    writes it: diarize, conversation, transcribe and A/B publications, votes, edits, curation,
    and the maintenance commands. Workers read in one transaction and publish in a later one,
    so what they read may be stale; transactions themselves are atomic. Ids are never reused. */
module Artifacts {
  import opened Wrappers

  type Id = nat

  datatype Pipeline = Diarize | Conversations | Transcribe | TranscribeAb

  datatype Artifact =
    | DiarizeMap(session: Id)
    | Utterance(session: Id, host: Option<Id>)
    | Conversation(session: Id, source: Id, members: set<Id>, excluded: set<Id>)
    | ConversationMap(session: Id, source: Id)
    | Transcript(session: Id, utterance: Id, host: Option<Id>, text: string)
    | Candidate(session: Id, utterance: Id, text: string)
  {
    function Tier(): Pipeline {
      match this
      case DiarizeMap(_) => Diarize
      case Utterance(_, _) => Diarize
      case Conversation(_, _, _, _) => Conversations
      case ConversationMap(_, _) => Conversations
      case Transcript(_, _, _, _) => Transcribe
      case Candidate(_, _, _) => TranscribeAb
    }
  }

  type Table = map<Id, Artifact>

  /** What a worker holds between its transactions. */
  datatype Job =
    | Regroup(session: Id, source: Id)                   // enqueued for this diarize-map
    | Grouped(session: Id, source: Id, read: set<Id>)    // utterances read, nothing published
    | Transcribing(session: Id, utterance: Id, host: Option<Id>)
    | Comparing(session: Id, read: set<Id>)

  datatype State = State(sessions: set<Id>, table: Table, used: set<Id>, jobs: map<Id, Job>)

  datatype Step =
    | CreateSession(session: Id)
    | DeleteSession(session: Id)
    | PublishDiarize(session: Id, hosts: map<Id, Option<Id>>, mapId: Id)
    | Rediarize(session: Id)
    | Retranscribe(session: Id)
    | DropConversations(session: Id)
    | EnqueueRegroup(job: Id, mapId: Id)
    | ReadUtterances(job: Id, read: set<Id>)
    | PublishConversations(job: Id, groups: map<Id, set<Id>>, mapId: Id)
    | Exclude(conversation: Id, utterance: Id, readable: set<Id>, enough: bool)
    | Include(conversation: Id, utterance: Id, readable: set<Id>, enough: bool)
    | EnqueueTranscribe(job: Id, utterance: Id)
    | PublishTranscript(job: Id, id: Id, text: string)
    | EditTranscript(id: Id, text: string)
    | ReadForComparison(job: Id, session: Id, read: set<Id>)
    | ClearCandidates(job: Id)
    | PublishCandidate(job: Id, id: Id, utterance: Id, text: string)
    | Vote(candidate: Id, utterance: Id, id: Id)
    | Abandon(job: Id)

  /** The row limit of the conversation tier's read. */
  const MAX_UTTERANCES := 200_000

  // ----- the table

  predicate IsMap(t: Table, id: Id, session: Id) {
    id in t && t[id] == DiarizeMap(session)
  }

  /** The utterance exists and belongs to the session. */
  predicate Current(t: Table, id: Id, session: Id) {
    id in t && t[id].Utterance? && t[id].session == session
  }

  function UtterancesOf(t: Table, session: Id): set<Id> {
    set u | u in t && Current(t, u, session)
  }

  /** Everything a row points at exists, in its own session; a candidate may outlive its
      utterance, but if the utterance exists it is one, of the candidate's session. */
  predicate Closed(t: Table, a: Artifact) {
    match a
    case DiarizeMap(session) => true
    case Utterance(session, host) => host.Some? ==> Current(t, host.value, session) && t[host.value].host == None
    case Conversation(session, source, members, excluded) =>
      IsMap(t, source, session) && forall u :: u in members + excluded ==> Current(t, u, session)
    case ConversationMap(session, source) => IsMap(t, source, session)
    case Transcript(session, utterance, host, text) => utterance in t && t[utterance] == Utterance(session, host)
    case Candidate(session, utterance, text) => utterance in t ==> Current(t, utterance, session)
  }

  /** Rows of which a session, or an utterance, has at most one. */
  predicate Clash(a: Artifact, b: Artifact) {
    || (a.DiarizeMap? && b.DiarizeMap? && a.session == b.session)
    || (a.ConversationMap? && b.ConversationMap? && a.session == b.session)
    || (a.Transcript? && b.Transcript? && a.utterance == b.utterance)
  }

  /** delete_for_pipeline, for several pipelines of one session at once. */
  function DeleteFor(t: Table, session: Id, tiers: set<Pipeline>): Table {
    map i | i in t && !(t[i].session == session && t[i].Tier() in tiers) :: t[i]
  }

  predicate Linked(t: Table, id: Id, utterance: Id) {
    id in t && t[id].Transcript? && t[id].utterance == utterance
  }

  predicate HasTranscript(t: Table, utterance: Id) {
    exists i :: i in t && Linked(t, i, utterance)
  }

  // ----- the steps

  function DiarizeRows(session: Id, hosts: map<Id, Option<Id>>, mapId: Id): Table {
    (map u | u in hosts :: Utterance(session, hosts[u]))[mapId := DiarizeMap(session)]
  }

  /** Hosts are utterances of the same publication and are not interjections themselves. */
  predicate HostsDefined(hosts: map<Id, Option<Id>>) {
    forall u :: u in hosts && hosts[u].Some? ==> hosts[u].value in hosts && hosts[hosts[u].value] == None
  }

  function ConversationRows(session: Id, source: Id, groups: map<Id, set<Id>>, mapId: Id): Table {
    (map c | c in groups :: Conversation(session, source, groups[c], {}))[mapId := ConversationMap(session, source)]
  }

  /** What reading a session's utterances returns: all of them, up to the row limit. */
  predicate ReadOf(t: Table, session: Id, read: set<Id>) {
    var all := UtterancesOf(t, session);
    read <= all && |read| == if |all| < MAX_UTTERANCES then |all| else MAX_UTTERANCES
  }

  predicate Fresh(s: State, ids: set<Id>) {
    ids !! s.used
  }

  predicate Enabled(s: State, e: Step) {
    match e
    case CreateSession(session) => session !in s.sessions
    case DeleteSession(session) => session in s.sessions
    case PublishDiarize(session, hosts, mapId) =>
      session in s.sessions && HostsDefined(hosts) && mapId !in hosts && Fresh(s, hosts.Keys + {mapId})
    case Rediarize(session) => true
    case Retranscribe(session) => true
    case DropConversations(session) => true
    case EnqueueRegroup(job, mapId) => job !in s.jobs && mapId in s.table && s.table[mapId].DiarizeMap?
    case ReadUtterances(job, read) =>
      job in s.jobs && s.jobs[job].Regroup? && ReadOf(s.table, s.jobs[job].session, read)
    case PublishConversations(job, groups, mapId) =>
      && job in s.jobs && s.jobs[job].Grouped?
      && mapId !in groups && Fresh(s, groups.Keys + {mapId})
      && (forall c :: c in groups ==> groups[c] <= s.jobs[job].read)
    case Exclude(conversation, utterance, readable, enough) =>
      conversation in s.table && s.table[conversation].Conversation? && utterance in s.table[conversation].members
    case Include(conversation, utterance, readable, enough) =>
      conversation in s.table && s.table[conversation].Conversation? && utterance in s.table[conversation].excluded
    case EnqueueTranscribe(job, utterance) =>
      job !in s.jobs && utterance in s.table && s.table[utterance].Utterance?
    case PublishTranscript(job, id, text) => job in s.jobs && s.jobs[job].Transcribing? && Fresh(s, {id})
    case EditTranscript(id, text) => id in s.table && s.table[id].Transcript?
    case ReadForComparison(job, session, read) => job !in s.jobs && read <= UtterancesOf(s.table, session)
    case ClearCandidates(job) => job in s.jobs && s.jobs[job].Comparing?
    case PublishCandidate(job, id, utterance, text) =>
      && job in s.jobs && s.jobs[job].Comparing? && s.jobs[job].session in s.sessions
      && utterance in s.jobs[job].read && Fresh(s, {id})
    case Vote(candidate, utterance, id) =>
      Linked(s.table, id, utterance) || (!HasTranscript(s.table, utterance) && Fresh(s, {id}))
    case Abandon(job) => job in s.jobs
  }

  /** The route's checks: the candidate exists, belongs to that utterance, which exists. */
  predicate Accepted(t: Table, candidate: Id, utterance: Id) {
    && candidate in t && t[candidate].Candidate?
    && t[candidate].utterance == utterance && utterance in t
  }

  /** _rewrite: recompute the conversation over the readable members, or drop it. */
  function Rewritten(t: Table, id: Id, members: set<Id>, excluded: set<Id>, enough: bool): Table
    requires id in t && t[id].Conversation?
  {
    if enough then t[id := t[id].(members := members, excluded := excluded)] else t - {id}
  }

  function Readable(t: Table, members: set<Id>, readable: set<Id>): set<Id> {
    set u | u in members && u in readable && u in t && t[u].Utterance?
  }

  function WithText(a: Artifact, text: string): Artifact
    requires a.Transcript?
  {
    Transcript(a.session, a.utterance, a.host, text)
  }

  function Voted(t: Table, candidate: Id, utterance: Id, id: Id): Table
    requires Accepted(t, candidate, utterance)
  {
    if Linked(t, id, utterance) then t[id := WithText(t[id], t[candidate].text)]
    else
      var host := if t[utterance].Utterance? then t[utterance].host else None;
      t[id := Transcript(t[candidate].session, utterance, host, t[candidate].text)]
  }

  /** The table after a step. */
  function TableAfter(s: State, e: Step): Table
    requires Enabled(s, e)
  {
    var t := s.table;
    match e
    case DeleteSession(session) => DeleteFor(t, session, {Diarize, Conversations, Transcribe, TranscribeAb})
    case PublishDiarize(session, hosts, mapId) =>
      DeleteFor(t, session, {Diarize, Transcribe, Conversations}) + DiarizeRows(session, hosts, mapId)
    case Rediarize(session) => DeleteFor(t, session, {Diarize, Transcribe, TranscribeAb, Conversations})
    case Retranscribe(session) => DeleteFor(t, session, {Transcribe})
    case DropConversations(session) => DeleteFor(t, session, {Conversations})
    case PublishConversations(job, groups, mapId) =>
      var j := s.jobs[job];
      if j.source !in t then t  // republished mid-run: skipped
      else DeleteFor(t, j.session, {Conversations}) + ConversationRows(j.session, j.source, groups, mapId)
    case Exclude(c, utterance, readable, enough) =>
      Rewritten(t, c, Readable(t, t[c].members - {utterance}, readable), t[c].excluded + {utterance}, enough)
    case Include(c, utterance, readable, enough) =>
      Rewritten(t, c, Readable(t, t[c].members + {utterance}, readable), t[c].excluded - {utterance}, enough)
    case PublishTranscript(job, id, text) =>
      var j := s.jobs[job];
      if j.utterance !in t || HasTranscript(t, j.utterance) then t
      else t[id := Transcript(j.session, j.utterance, j.host, text)]
    case EditTranscript(id, text) => t[id := WithText(t[id], text)]
    case ClearCandidates(job) => DeleteFor(t, s.jobs[job].session, {TranscribeAb})
    case PublishCandidate(job, id, utterance, text) =>
      t[id := Candidate(s.jobs[job].session, utterance, text)]
    case Vote(candidate, utterance, id) =>
      if Accepted(t, candidate, utterance) then Voted(t, candidate, utterance, id) else t
    case _ => t
  }

  function JobsAfter(s: State, e: Step): map<Id, Job>
    requires Enabled(s, e)
  {
    match e
    case EnqueueRegroup(job, mapId) => s.jobs[job := Regroup(s.table[mapId].session, mapId)]
    case ReadUtterances(job, read) => s.jobs[job := Grouped(s.jobs[job].session, s.jobs[job].source, read)]
    case PublishConversations(job, groups, mapId) => s.jobs - {job}
    case EnqueueTranscribe(job, utterance) =>
      s.jobs[job := Transcribing(s.table[utterance].session, utterance, s.table[utterance].host)]
    case PublishTranscript(job, id, text) => s.jobs - {job}
    case ReadForComparison(job, session, read) => s.jobs[job := Comparing(session, read)]
    case Abandon(job) => s.jobs - {job}
    case _ => s.jobs
  }

  function Apply(s: State, e: Step): State
    requires Enabled(s, e)
  {
    State(
      if e.CreateSession? then s.sessions + {e.session}
      else if e.DeleteSession? then s.sessions - {e.session} else s.sessions,
      TableAfter(s, e), s.used + TableAfter(s, e).Keys, JobsAfter(s, e))
  }

  // ----- the rows of a step, one by one

  /** The route accepts the vote: the candidate is of that utterance, and both exist. */
  lemma AcceptedMeans(s: State, e: Step)
    requires Enabled(s, e) && e.Vote?
    ensures Accepted(s.table, e.candidate, e.utterance) <==>
      && e.utterance in s.table
      && exists session, text :: (e.candidate, Candidate(session, e.utterance, text)) in s.table.Items
  {
    if Accepted(s.table, e.candidate, e.utterance) {
      var a := s.table[e.candidate];
      assert (e.candidate, Candidate(a.session, e.utterance, a.text)) in s.table.Items;
    }
  }

  /** Exactly which rows a step deletes: all of a session with it or for a re-run of diarization; all
      but candidates when a new diarization is published; transcripts for a new transcription; the
      conversations when they are dropped or published anew, unless the diarize-map is gone; one
      conversation that is left without enough turns; the candidates before a new comparison. */
  lemma RowsDeleted(s: State, e: Step, i: Id)
    requires Enabled(s, e) && i in s.table && s.table.Keys <= s.used
    ensures i !in TableAfter(s, e) <==>
      var a := s.table[i];
      || ((e.DeleteSession? || e.Rediarize?) && a.session == e.session)
      || (e.PublishDiarize? && a.session == e.session && !a.Candidate?)
      || (e.Retranscribe? && a.session == e.session && a.Transcript?)
      || (e.DropConversations? && a.session == e.session && (a.Conversation? || a.ConversationMap?))
      || (e.PublishConversations? && s.jobs[e.job].source in s.table && a.session == s.jobs[e.job].session
          && (a.Conversation? || a.ConversationMap?))
      || ((e.Exclude? || e.Include?) && i == e.conversation && !e.enough)
      || (e.ClearCandidates? && a.session == s.jobs[e.job].session && a.Candidate?)
  {
    hide HostsDefined, ReadOf, UtterancesOf, HasTranscript, Readable;
  }

  /** Exactly which rows a step adds, and what they say: the utterances of a diarization and its map;
      the conversations of the map they were grouped for, and their own map; a transcript, unless the
      utterance is gone or has one; a candidate; and the transcript of a vote that is accepted. */
  lemma RowsAdded(s: State, e: Step, i: Id)
    requires Enabled(s, e) && i !in s.table
    ensures i in TableAfter(s, e) <==>
      || (e.PublishDiarize? && (i in e.hosts || i == e.mapId))
      || (e.PublishConversations? && s.jobs[e.job].source in s.table && (i in e.groups || i == e.mapId))
      || (e.PublishTranscript? && i == e.id && s.jobs[e.job].utterance in s.table
          && forall k :: k in s.table && s.table[k].Transcript? ==> s.table[k].utterance != s.jobs[e.job].utterance)
      || (e.PublishCandidate? && i == e.id)
      || (e.Vote? && i == e.id && Accepted(s.table, e.candidate, e.utterance))
    ensures i in TableAfter(s, e) ==>
      var a := TableAfter(s, e)[i];
      && (e.PublishDiarize? ==> a == if i == e.mapId then DiarizeMap(e.session) else Utterance(e.session, e.hosts[i]))
      && (e.PublishConversations? ==>
            var j := s.jobs[e.job];
            a == if i == e.mapId then ConversationMap(j.session, j.source)
                 else Conversation(j.session, j.source, e.groups[i], {}))
      && (e.PublishTranscript? ==>
            a == Transcript(s.jobs[e.job].session, s.jobs[e.job].utterance, s.jobs[e.job].host, e.text))
      && (e.PublishCandidate? ==> a == Candidate(s.jobs[e.job].session, e.utterance, e.text))
      && (e.Vote? ==> a.Transcript? && a.session == s.table[e.candidate].session && a.utterance == e.utterance
                      && a.text == s.table[e.candidate].text
                      && a.host == if s.table[e.utterance].Utterance? then s.table[e.utterance].host else None)
  {
    hide HostsDefined, ReadOf, UtterancesOf, Readable;
  }

  /** And exactly what it changes: the members and exclusions of a conversation that is curated, members
      that can no longer be read falling out; the text of a transcript that is edited or voted on. */
  lemma RowsChanged(s: State, e: Step, i: Id)
    requires Enabled(s, e) && i in s.table && s.table.Keys <= s.used && i in TableAfter(s, e)
    ensures var t, a, b := s.table, s.table[i], TableAfter(s, e)[i];
      if (e.Exclude? || e.Include?) && i == e.conversation then
        && b.Conversation? && b.session == a.session && b.source == a.source
        && (forall u :: u in b.members <==>
              && u in e.readable && u in t && t[u].Utterance?
              && if e.Exclude? then u in a.members && u != e.utterance else u in a.members || u == e.utterance)
        && (forall u :: u in b.excluded <==>
              if e.Exclude? then u in a.excluded || u == e.utterance else u in a.excluded && u != e.utterance)
      else if e.EditTranscript? && i == e.id then b == Transcript(a.session, a.utterance, a.host, e.text)
      else if e.Vote? && i == e.id && Accepted(t, e.candidate, e.utterance) then
        b == Transcript(a.session, a.utterance, a.host, t[e.candidate].text)
      else b == a
  {
    hide HostsDefined, ReadOf, UtterancesOf, HasTranscript;
  }

  /** A session exists from its creation to its deletion. */
  lemma SessionsChanged(s: State, e: Step, x: Id)
    requires Enabled(s, e)
    ensures x in Apply(s, e).sessions <==>
      (e.CreateSession? && e.session == x) || (x in s.sessions && !(e.DeleteSession? && e.session == x))
  {
  }

  /** What a step leaves the workers with: nothing for a job that ends, what it was enqueued for or has
      read for the one that is under way. */
  lemma JobsChanged(s: State, e: Step, j: Id)
    requires Enabled(s, e)
    ensures (e.PublishConversations? || e.PublishTranscript? || e.Abandon?) && j == e.job ==> j !in JobsAfter(s, e)
    ensures e.EnqueueRegroup? && j == e.job ==>
      j in JobsAfter(s, e) && JobsAfter(s, e)[j] == Regroup(s.table[e.mapId].session, e.mapId)
    ensures e.ReadUtterances? && j == e.job ==>
      j in JobsAfter(s, e) && JobsAfter(s, e)[j] == Grouped(s.jobs[j].session, s.jobs[j].source, e.read)
    ensures e.EnqueueTranscribe? && j == e.job ==>
      j in JobsAfter(s, e)
      && JobsAfter(s, e)[j] == Transcribing(s.table[e.utterance].session, e.utterance, s.table[e.utterance].host)
    ensures e.ReadForComparison? && j == e.job ==>
      j in JobsAfter(s, e) && JobsAfter(s, e)[j] == Comparing(e.session, e.read)
    ensures
      var busy := e.EnqueueRegroup? || e.ReadUtterances? || e.EnqueueTranscribe? || e.ReadForComparison?
                  || e.PublishConversations? || e.PublishTranscript? || e.Abandon?;
      !(busy && j == e.job) ==>
        (j in JobsAfter(s, e) <==> j in s.jobs) && (j in s.jobs ==> JobsAfter(s, e)[j] == s.jobs[j])
  {
    hide HostsDefined, ReadOf, UtterancesOf, HasTranscript, Readable;
  }

  // ----- the invariant

  /** A job's reading is current while the row it was enqueued for still exists. */
  predicate JobSound(t: Table, used: set<Id>, j: Job) {
    match j
    case Regroup(session, source) => source in used && (source in t ==> IsMap(t, source, session))
    case Grouped(session, source, read) =>
      source in used && (source in t ==> IsMap(t, source, session) && ReadOf(t, session, read))
    case Transcribing(session, utterance, host) =>
      utterance in used && (utterance in t ==> t[utterance] == Utterance(session, host))
    case Comparing(session, read) =>
      read <= used && forall u :: u in read && u in t ==> Current(t, u, session)
  }

  predicate AllClosed(t: Table) {
    forall i :: i in t ==> Closed(t, t[i])
  }

  predicate NoClash(t: Table) {
    forall i, k :: i in t && k in t && i != k ==> !Clash(t[i], t[k])
  }

  predicate SessionsLive(s: State) {
    forall i :: i in s.table ==> s.table[i].session in s.sessions
  }

  predicate IdsUsed(s: State) {
    && s.table.Keys <= s.used
    && (forall i :: i in s.table && s.table[i].Candidate? ==> s.table[i].utterance in s.used)
  }

  predicate JobsSound(s: State) {
    forall j :: j in s.jobs ==> JobSound(s.table, s.used, s.jobs[j])
  }

  predicate Invariant(s: State) {
    AllClosed(s.table) && NoClash(s.table) && SessionsLive(s) && IdsUsed(s) && JobsSound(s)
  }

  ghost predicate OneMapEach(t: Table) {
    forall i, k :: IsMapRow(t, i) && IsMapRow(t, k) && t[i].session == t[k].session ==> i == k
  }

  predicate IsMapRow(t: Table, i: Id) {
    i in t && t[i].DiarizeMap?
  }

  ghost predicate OneTranscriptEach(t: Table) {
    forall i, k, u :: Linked(t, i, u) && Linked(t, k, u) ==> i == k
  }

  lemma NoClashMeansOne(t: Table)
    requires NoClash(t)
    ensures OneMapEach(t) && OneTranscriptEach(t)
  {
    forall i, k | IsMapRow(t, i) && IsMapRow(t, k) && t[i].session == t[k].session ensures i == k {
      assert Clash(t[i], t[k]);
    }
    forall i, k, u | Linked(t, i, u) && Linked(t, k, u) ensures i == k {
      assert Clash(t[i], t[k]);
    }
  }

  // ----- the three ways a transaction changes the table

  /** Deleting a session's diarize rows takes what derives from them along. */
  predicate TakesDerived(tiers: set<Pipeline>) {
    Diarize in tiers ==> Transcribe in tiers && Conversations in tiers
  }

  lemma DeleteKeepsClosed(t: Table, session: Id, tiers: set<Pipeline>)
    requires AllClosed(t) && TakesDerived(tiers)
    ensures AllClosed(DeleteFor(t, session, tiers))
  {
    var d := DeleteFor(t, session, tiers);
    forall i | i in d ensures Closed(d, d[i]) {
      assert Closed(t, t[i]);
    }
  }

  /** A deletion that leaves the diarize-map leaves the utterances read with it. */
  lemma DeleteKeepsJob(t: Table, used: set<Id>, j: Job, session: Id, tiers: set<Pipeline>)
    requires JobSound(t, used, j)
    ensures JobSound(DeleteFor(t, session, tiers), used, j)
  {
    var d := DeleteFor(t, session, tiers);
    if j.Grouped? && j.source in d {
      assert UtterancesOf(d, j.session) == UtterancesOf(t, j.session);
    }
  }

  /** New rows, under unused ids. */
  lemma AddKeepsClosed(t: Table, rows: Table, used: set<Id>)
    requires AllClosed(t) && t.Keys <= used && rows.Keys !! used
    requires forall i :: i in t && t[i].Candidate? ==> t[i].utterance in used
    requires forall i :: i in rows ==> Closed(t + rows, rows[i])
    ensures AllClosed(t + rows)
  {
    var d := t + rows;
    forall i | i in d ensures Closed(d, d[i]) {
      if i in t && i !in rows {
        assert Closed(t, t[i]);
        assert t[i].Candidate? && t[i].utterance in d ==> t[i].utterance in t;
      }
    }
  }

  lemma AddKeepsJob(t: Table, rows: Table, used: set<Id>, j: Job)
    requires JobSound(t, used, j) && rows.Keys !! used
    requires j.Grouped? && j.source in t ==> UtterancesOf(t + rows, j.session) == UtterancesOf(t, j.session)
    ensures JobSound(t + rows, used, j)
  {
    var d := t + rows;
    if j.Comparing? {
      forall u | u in j.read && u in d ensures Current(d, u, j.session) {
        assert u in used;
      }
    }
  }

  lemma AddKeepsUnique(t: Table, rows: Table)
    requires NoClash(t) && NoClash(rows)
    requires forall i, k :: i in t && k in rows && i != k ==> !Clash(t[i], rows[k])
    ensures NoClash(t + rows)
  {
  }

  /** A row that nothing points at, rewritten in place. */
  lemma ReplaceKeepsClosed(t: Table, id: Id, a: Artifact)
    requires AllClosed(t) && id in t && !t[id].Utterance? && !t[id].DiarizeMap?
    requires !a.Utterance? && !a.DiarizeMap? && Closed(t, a)
    ensures AllClosed(t[id := a])
  {
    var d := t[id := a];
    forall i | i in d ensures Closed(d, d[i]) {
      assert i != id ==> Closed(t, t[i]);
      assert Closed(t, a);
    }
  }

  lemma SameUtterancesKeepJob(t: Table, d: Table, used: set<Id>, j: Job)
    requires JobSound(t, used, j)
    requires forall i :: i in used && i in d ==> i in t
    requires forall i :: i in t && (t[i].Utterance? || t[i].DiarizeMap?) ==> i in d && d[i] == t[i]
    requires forall i :: i in d && d[i].Utterance? ==> i in t && t[i] == d[i]
    requires forall i :: i in t && i in d && !t[i].Utterance? && !t[i].DiarizeMap? ==> !d[i].Utterance?
    ensures JobSound(d, used, j)
  {
    assert UtterancesOf(d, j.session) == UtterancesOf(t, j.session);
    if j.Comparing? {
      forall u | u in j.read && u in d ensures Current(d, u, j.session) {
        assert u in t && Current(t, u, j.session);
      }
    }
  }

  // ----- closedness, step by step

  lemma PublishDiarizeClosed(s: State, e: Step)
    requires Invariant(s) && Enabled(s, e) && e.PublishDiarize?
    ensures AllClosed(TableAfter(s, e))
  {
    hide Clash, JobSound;
    var d := DeleteFor(s.table, e.session, {Diarize, Transcribe, Conversations});
    var rows := DiarizeRows(e.session, e.hosts, e.mapId);
    DeleteKeepsClosed(s.table, e.session, {Diarize, Transcribe, Conversations});
    forall i | i in rows ensures Closed(d + rows, rows[i]) {
      if i != e.mapId && e.hosts[i].Some? {
        var h := e.hosts[i].value;
        assert h != e.mapId && rows[h] == Utterance(e.session, None);
        assert Current(d + rows, h, e.session);
      }
    }
    AddKeepsClosed(d, rows, s.used);
  }

  /** The guard of the conversation tier: while the diarize-map it was enqueued for exists,
      what the job read is still current. */
  lemma PublishConversationsClosed(s: State, e: Step)
    requires Invariant(s) && Enabled(s, e) && e.PublishConversations?
    ensures AllClosed(TableAfter(s, e))
  {
    hide Clash;
    var j := s.jobs[e.job];
    assert JobSound(s.table, s.used, j);
    if j.source in s.table {
      var d := DeleteFor(s.table, j.session, {Conversations});
      var rows := ConversationRows(j.session, j.source, e.groups, e.mapId);
      DeleteKeepsClosed(s.table, j.session, {Conversations});
      forall i | i in rows ensures Closed(d + rows, rows[i]) {
        assert IsMap(d + rows, j.source, j.session);
        if i != e.mapId {
          forall u | u in e.groups[i] ensures Current(d + rows, u, j.session) {
            assert u in UtterancesOf(s.table, j.session);
          }
        }
      }
      AddKeepsClosed(d, rows, s.used);
    }
  }

  lemma RewriteClosed(s: State, e: Step)
    requires Invariant(s) && Enabled(s, e) && (e.Exclude? || e.Include?)
    ensures AllClosed(TableAfter(s, e))
  {
    hide Clash, JobSound;
    var t, c := s.table, e.conversation;
    assert Closed(t, t[c]);
    if e.enough {
      ReplaceKeepsClosed(t, c, TableAfter(s, e)[c]);
    } else {
      forall i | i in t && i != c ensures Closed(t - {c}, t[i]) {
        assert Closed(t, t[i]);
      }
    }
  }

  lemma TranscriptClosed(s: State, e: Step)
    requires Invariant(s) && Enabled(s, e) && (e.PublishTranscript? || e.Vote? || e.EditTranscript?)
    ensures AllClosed(TableAfter(s, e))
  {
    hide Clash;
    var t, d := s.table, TableAfter(s, e);
    if e.EditTranscript? || (e.Vote? && Accepted(t, e.candidate, e.utterance) && Linked(t, e.id, e.utterance)) {
      assert Closed(t, t[e.id]);
      ReplaceKeepsClosed(t, e.id, d[e.id]);
    } else if d != t {
      if e.PublishTranscript? {
        assert JobSound(t, s.used, s.jobs[e.job]);
      } else {
        assert Closed(t, t[e.candidate]);
      }
      var rows := map[e.id := d[e.id]];
      assert d == t + rows;
      AddKeepsClosed(t, rows, s.used);
    }
  }

  lemma CandidateClosed(s: State, e: Step)
    requires Invariant(s) && Enabled(s, e) && e.PublishCandidate?
    ensures AllClosed(TableAfter(s, e))
  {
    hide Clash;
    var t, d := s.table, TableAfter(s, e);
    assert JobSound(t, s.used, s.jobs[e.job]);
    var rows := map[e.id := d[e.id]];
    assert d == t + rows;
    assert e.utterance in s.used && e.utterance != e.id;
    AddKeepsClosed(t, rows, s.used);
  }

  lemma StepClosed(s: State, e: Step)
    requires Invariant(s) && Enabled(s, e)
    ensures AllClosed(TableAfter(s, e))
  {
    hide AllClosed, Closed, NoClash, Clash, JobSound;
    match e
    case PublishDiarize(_, _, _) => PublishDiarizeClosed(s, e);
    case PublishConversations(_, _, _) => PublishConversationsClosed(s, e);
    case Exclude(_, _, _, _) => RewriteClosed(s, e);
    case Include(_, _, _, _) => RewriteClosed(s, e);
    case PublishTranscript(_, _, _) => TranscriptClosed(s, e);
    case Vote(_, _, _) => TranscriptClosed(s, e);
    case EditTranscript(_, _) => TranscriptClosed(s, e);
    case PublishCandidate(_, _, _, _) => CandidateClosed(s, e);
    case DeleteSession(session) =>
      DeleteKeepsClosed(s.table, session, {Diarize, Conversations, Transcribe, TranscribeAb});
    case Rediarize(session) =>
      DeleteKeepsClosed(s.table, session, {Diarize, Transcribe, TranscribeAb, Conversations});
    case Retranscribe(session) => DeleteKeepsClosed(s.table, session, {Transcribe});
    case DropConversations(session) => DeleteKeepsClosed(s.table, session, {Conversations});
    case ClearCandidates(job) =>
      DeleteKeepsClosed(s.table, s.jobs[job].session, {TranscribeAb});
    case _ =>
  }

  // ----- the rest of the invariant, step by step

  lemma PublishNoClash(s: State, e: Step)
    requires Invariant(s) && Enabled(s, e) && (e.PublishDiarize? || e.PublishConversations?)
    ensures NoClash(TableAfter(s, e))
  {
    hide AllClosed, Closed, JobSound, IdsUsed, SessionsLive, HostsDefined;
    if e.PublishDiarize? {
      var d := DeleteFor(s.table, e.session, {Diarize, Transcribe, Conversations});
      AddKeepsUnique(d, DiarizeRows(e.session, e.hosts, e.mapId));
    } else {
      var j := s.jobs[e.job];
      var d := DeleteFor(s.table, j.session, {Conversations});
      AddKeepsUnique(d, ConversationRows(j.session, j.source, e.groups, e.mapId));
    }
  }

  lemma TranscriptNoClash(t: Table, id: Id, a: Artifact)
    requires NoClash(t) && a.Transcript?
    requires forall i :: Linked(t, i, a.utterance) ==> i == id
    ensures NoClash(t[id := a])
  {
    forall i | i in t && i != id ensures !Clash(t[i], a) && !Clash(a, t[i]) {
      assert !Linked(t, i, a.utterance);
    }
  }

  lemma TranscriptWritesNoClash(s: State, e: Step)
    requires Invariant(s) && Enabled(s, e) && (e.PublishTranscript? || e.Vote? || e.EditTranscript?)
    ensures NoClash(TableAfter(s, e))
  {
    hide AllClosed, Closed, JobSound, IdsUsed, SessionsLive, Clash, NoClash;
    NoClashMeansOne(s.table);
    if TableAfter(s, e) != s.table {
      assert e.EditTranscript? ==> Linked(s.table, e.id, s.table[e.id].utterance);
      assert forall i :: !e.PublishTranscript? && Linked(s.table, i, TableAfter(s, e)[e.id].utterance) ==> i == e.id;
      TranscriptNoClash(s.table, e.id, TableAfter(s, e)[e.id]);
    }
  }

  lemma StepNoClash(s: State, e: Step)
    requires Invariant(s) && Enabled(s, e)
    ensures NoClash(TableAfter(s, e))
  {
    hide AllClosed, Closed, JobSound, IdsUsed, SessionsLive;
    match e
    case PublishDiarize(_, _, _) => PublishNoClash(s, e);
    case PublishConversations(_, _, _) => PublishNoClash(s, e);
    case PublishTranscript(_, _, _) => TranscriptWritesNoClash(s, e);
    case Vote(_, _, _) => TranscriptWritesNoClash(s, e);
    case EditTranscript(_, _) => TranscriptWritesNoClash(s, e);
    case _ =>
  }

  lemma StepSessionsLive(s: State, e: Step)
    requires Invariant(s) && Enabled(s, e)
    ensures SessionsLive(Apply(s, e))
  {
    hide AllClosed, Closed, IdsUsed, NoClash, Clash, ReadOf, HostsDefined, UtterancesOf, Current, Readable;
    hide HasTranscript;
    if e.PublishConversations? || e.PublishTranscript? {
      assert JobSound(s.table, s.used, s.jobs[e.job]);
    }
  }

  lemma StepIdsUsed(s: State, e: Step)
    requires Invariant(s) && Enabled(s, e)
    ensures IdsUsed(Apply(s, e))
  {
    hide NoClash, Clash, AllClosed, Closed, ReadOf, SessionsLive, HostsDefined;
    if e.PublishCandidate? {
      assert JobSound(s.table, s.used, s.jobs[e.job]);
    }
  }

  /** A job that the step does not touch. */
  lemma OtherJobKept(s: State, e: Step, j: Job)
    requires Invariant(s) && Enabled(s, e) && JobSound(s.table, s.used, j)
    ensures JobSound(TableAfter(s, e), s.used + TableAfter(s, e).Keys, j)
  {
    hide AllClosed, Closed, NoClash, Clash, SessionsLive, HostsDefined, ReadOf, IdsUsed, JobSound, JobsSound, Current;
    var t := s.table;
    match e {
      case PublishDiarize(_, _, _) => PublishDiarizeKeepsJob(s, e, j);
      case DeleteSession(session) =>
        DeleteKeepsJob(t, s.used, j, session, {Diarize, Conversations, Transcribe, TranscribeAb});
      case Rediarize(session) =>
        DeleteKeepsJob(t, s.used, j, session, {Diarize, Transcribe, TranscribeAb, Conversations});
      case _ => LaterTiersKeepJob(s, e, j);
    }
    KeysStayUsed(s, e, j);
  }

  lemma KeysStayUsed(s: State, e: Step, j: Job)
    requires Invariant(s) && Enabled(s, e) && JobSound(TableAfter(s, e), s.used, j)
    ensures JobSound(TableAfter(s, e), s.used + TableAfter(s, e).Keys, j)
  {
    hide AllClosed, Closed, NoClash, Clash, SessionsLive, ReadOf, IdsUsed, JobsSound, Current, TableAfter, Enabled;
  }

  /** Transactions of the later tiers leave utterances and diarize-maps alone. */
  lemma LaterTiersKeepJob(s: State, e: Step, j: Job)
    requires Invariant(s) && Enabled(s, e) && JobSound(s.table, s.used, j)
    requires !e.PublishDiarize? && !e.DeleteSession? && !e.Rediarize?
    ensures JobSound(TableAfter(s, e), s.used, j)
  {
    hide AllClosed, Closed, NoClash, Clash, SessionsLive, HostsDefined, ReadOf, JobSound, JobsSound, Current, Readable;
    SameUtterancesKeepJob(s.table, TableAfter(s, e), s.used, j);
  }

  lemma PublishDiarizeKeepsJob(s: State, e: Step, j: Job)
    requires Invariant(s) && Enabled(s, e) && e.PublishDiarize? && JobSound(s.table, s.used, j)
    ensures JobSound(TableAfter(s, e), s.used, j)
  {
    hide AllClosed, Closed, NoClash, Clash, SessionsLive, HostsDefined;
    var d := DeleteFor(s.table, e.session, {Diarize, Transcribe, Conversations});
    var rows := DiarizeRows(e.session, e.hosts, e.mapId);
    DeleteKeepsJob(s.table, s.used, j, e.session, {Diarize, Transcribe, Conversations});
    if j.Grouped? && j.source in d {
      assert j.session != e.session;
      assert UtterancesOf(d + rows, j.session) == UtterancesOf(d, j.session);
    }
    AddKeepsJob(d, rows, s.used, j);
  }

  lemma StepJobsSound(s: State, e: Step)
    requires Invariant(s) && Enabled(s, e)
    ensures JobsSound(Apply(s, e))
  {
    hide AllClosed, Closed, NoClash, Clash, SessionsLive, HostsDefined, ReadOf;
    var n := Apply(s, e);
    forall j | j in n.jobs ensures JobSound(n.table, n.used, n.jobs[j]) {
      if j in s.jobs && n.jobs[j] == s.jobs[j] {
        OtherJobKept(s, e, s.jobs[j]);
      } else if e.ReadUtterances? {
        assert JobSound(s.table, s.used, s.jobs[j]);
      }
    }
  }

  // ----- every run

  lemma StepKeepsInvariant(s: State, e: Step)
    requires Invariant(s) && Enabled(s, e)
    ensures Invariant(Apply(s, e))
  {
    hide AllClosed, NoClash, SessionsLive, IdsUsed, JobsSound;
    StepClosed(s, e);
    StepNoClash(s, e);
    StepSessionsLive(s, e);
    StepIdsUsed(s, e);
    StepJobsSound(s, e);
  }

  function Initial(): State {
    State({}, map[], {}, map[])
  }

  /** s is reached by some sequence of committed transactions. */
  ghost predicate Reaches(steps: seq<Step>, s: State)
    decreases |steps|
  {
    if steps == [] then s == Initial()
    else
      var n := |steps| - 1;
      exists before :: Reaches(steps[..n], before) && Enabled(before, steps[n]) && s == Apply(before, steps[n])
  }

  lemma {:induction false} RunsKeepInvariant(steps: seq<Step>, s: State)
    requires Reaches(steps, s)
    ensures Invariant(s)
  {
    if steps != [] {
      var n := |steps| - 1;
      var before :| Reaches(steps[..n], before) && Enabled(before, steps[n]) && s == Apply(before, steps[n]);
      RunsKeepInvariant(steps[..n], before);
      StepKeepsInvariant(before, steps[n]);
    }
  }

  /** What closedness says of one row. */
  lemma ClosedRow(t: Table, i: Id)
    requires AllClosed(t) && i in t
    ensures t[i].Conversation? ==>
      && t[i].source in t && t[t[i].source] == DiarizeMap(t[i].session)
      && forall u :: u in t[i].members + t[i].excluded ==> u in t && t[u].Utterance? && t[u].session == t[i].session
    ensures t[i].Transcript? ==> t[i].utterance in t && t[t[i].utterance] == Utterance(t[i].session, t[i].host)
    ensures t[i].Transcript? && t[i].host.Some? ==>
      t[i].host.value in t && t[t[i].host.value] == Utterance(t[i].session, None)
  {
    assert Closed(t, t[i]);
    if t[i].Transcript? {
      assert Closed(t, t[t[i].utterance]);
    }
  }

  /** Over every run: one diarize-map a session; every conversation stands on that map and its
      members and exclusions are current utterances; every transcript is of a current utterance,
      the only one of it, and nests under the utterance's own host, which is current too. */
  lemma ArtifactsStayClosed(steps: seq<Step>, s: State)
    requires Reaches(steps, s)
    ensures var t := s.table;
      && (forall i, k :: i in t && k in t && t[i].DiarizeMap? && t[k] == t[i] ==> i == k)
      && (forall i, k :: i in t && k in t && t[i].ConversationMap? && t[k].ConversationMap? ==>
            t[i].session == t[k].session ==> i == k)
      && forall i, k :: i in t && k in t && t[i].Transcript? && t[k].Transcript? && t[i].utterance == t[k].utterance
           ==> i == k
    ensures var t := s.table; forall i :: i in t && t[i].Conversation? ==>
      && t[i].source in t && t[t[i].source] == DiarizeMap(t[i].session)
      && forall u :: u in t[i].members + t[i].excluded ==> u in t && t[u].Utterance? && t[u].session == t[i].session
    ensures var t := s.table; forall i :: i in t && t[i].Transcript? ==>
      && t[i].utterance in t && t[t[i].utterance] == Utterance(t[i].session, t[i].host)
      && (t[i].host.Some? ==> t[i].host.value in t && t[t[i].host.value] == Utterance(t[i].session, None))
  {
    RunsKeepInvariant(steps, s);
    hide Reaches, AllClosed, SessionsLive, IdsUsed, JobsSound;
    var t := s.table;
    forall i, k | i in t && k in t && i != k ensures !Clash(t[i], t[k]) {
    }
    hide NoClash;
    forall i | i in t
      ensures t[i].Conversation? ==>
        && t[i].source in t && t[t[i].source] == DiarizeMap(t[i].session)
        && forall u :: u in t[i].members + t[i].excluded ==> u in t && t[u].Utterance? && t[u].session == t[i].session
      ensures t[i].Transcript? ==>
        && t[i].utterance in t && t[t[i].utterance] == Utterance(t[i].session, t[i].host)
        && (t[i].host.Some? ==> t[i].host.value in t && t[t[i].host.value] == Utterance(t[i].session, None))
    {
      ClosedRow(t, i);
    }
  }

  /** A conversation publication that is not skipped groups the present generation: what its
      job read is, below the row limit, exactly the session's utterances now. */
  lemma PublicationReadsPresent(steps: seq<Step>, s: State, job: Id)
    requires Reaches(steps, s) && job in s.jobs && s.jobs[job].Grouped?
    requires s.jobs[job].source in s.table
    ensures forall u :: u in s.jobs[job].read ==>
      u in s.table && s.table[u].Utterance? && s.table[u].session == s.jobs[job].session
    ensures |s.jobs[job].read| < 200_000 ==>
      forall u :: u in s.table && s.table[u].Utterance? && s.table[u].session == s.jobs[job].session ==>
        u in s.jobs[job].read
  {
    RunsKeepInvariant(steps, s);
    var session, read := s.jobs[job].session, s.jobs[job].read;
    assert JobSound(s.table, s.used, s.jobs[job]);
    hide Invariant, Reaches;
    if |read| < 200_000 {
      AsManyAreAll(read, UtterancesOf(s.table, session));
      assert forall u :: u in s.table && s.table[u].Utterance? && s.table[u].session == session ==>
        u in UtterancesOf(s.table, session);
    }
  }

  lemma AsManyAreAll(some: set<Id>, all: set<Id>)
    requires some <= all && |some| == |all|
    ensures some == all
  {
    if x :| x in all && x !in some {
      assert some <= all - {x};
      FewerInSubset(some, all - {x});
    }
  }

  lemma {:induction false} FewerInSubset(some: set<Id>, all: set<Id>)
    requires some <= all
    ensures |some| <= |all|
  {
    if some != {} {
      var x :| x in some;
      FewerInSubset(some - {x}, all - {x});
    }
  }

  /** An accepted vote makes the candidate's text the utterance's one transcript; a vote is
      accepted exactly when the candidate is of that utterance and the utterance still exists. */
  lemma VoteIsTheTranscript(steps: seq<Step>, s: State, e: Step)
    requires Reaches(steps, s) && Enabled(s, e) && e.Vote?
    ensures Accepted(s.table, e.candidate, e.utterance) ==>
      Linked(TableAfter(s, e), e.id, e.utterance) && TableAfter(s, e)[e.id].text == s.table[e.candidate].text
    ensures Accepted(s.table, e.candidate, e.utterance) ==>
      forall i :: Linked(TableAfter(s, e), i, e.utterance) ==> i == e.id
    ensures !Accepted(s.table, e.candidate, e.utterance) ==> Apply(s, e).table == s.table
  {
    hide AllClosed, SessionsLive, IdsUsed, JobsSound, NoClash, HasTranscript, Reaches;
    RunsKeepInvariant(steps, s);
    StepNoClash(s, e);
    NoClashMeansOne(TableAfter(s, e));
  }

  /** A candidate whose utterance is gone. */
  predicate Dangles(t: Table, c: Id) {
    c in t && t[c].Candidate? && t[c].utterance !in t
  }

  lemma OldUtterance(s: State, c: Id)
    requires Invariant(s) && c in s.table && s.table[c].Candidate?
    ensures s.table[c].utterance in s.used
    ensures !Dangles(s.table, c) ==> Current(s.table, s.table[c].utterance, s.table[c].session)
  {
    assert Closed(s.table, s.table[c]);
  }

  /** A candidate that a step keeps. */
  lemma KeptCandidate(s: State, e: Step, c: Id)
    requires Invariant(s) && Enabled(s, e) && c in s.table && s.table[c].Candidate? && c in TableAfter(s, e)
    ensures TableAfter(s, e)[c] == s.table[c]
    ensures Dangles(TableAfter(s, e), c) <==>
      Dangles(s.table, c) || (e.PublishDiarize? && e.session == s.table[c].session)
  {
    hide AllClosed, Closed, NoClash, Clash, JobsSound, JobSound, SessionsLive, HostsDefined, ReadOf;
    OldUtterance(s, c);
  }

  /** Exactly how a candidate comes to outlive its utterance: it already had, or its session was
      re-diarized, which leaves candidates alone, or it was published for an utterance already gone. */
  lemma DanglesExactlyWhen(s: State, e: Step, c: Id)
    requires Invariant(s) && Enabled(s, e) && c in TableAfter(s, e) && TableAfter(s, e)[c].Candidate?
    ensures Dangles(TableAfter(s, e), c) <==>
      || Dangles(s.table, c)
      || (e.PublishDiarize? && c in s.table && e.session == s.table[c].session)
      || (e.PublishCandidate? && e.id == c && e.utterance !in s.table)
  {
    hide AllClosed, Closed, NoClash, Clash, JobsSound, JobSound, SessionsLive, HostsDefined, ReadOf;
    if c in s.table {
      assert s.table[c].Candidate?;
      KeptCandidate(s, e, c);
    } else {
      assert e.PublishCandidate? && e.id == c;
      NewCandidate(s, e);
    }
  }

  lemma NewCandidate(s: State, e: Step)
    requires Invariant(s) && Enabled(s, e) && e.PublishCandidate?
    ensures Dangles(TableAfter(s, e), e.id) <==> e.utterance !in s.table
  {
    hide AllClosed, NoClash, SessionsLive;
    assert JobSound(s.table, s.used, s.jobs[e.job]);
  }

  /** Candidates are not closed in that way: re-diarizing after the A/B run read its utterances
      leaves candidates of utterances that are gone. Votes on those are refused. */
  lemma CandidatesMayDangle()
    ensures exists steps, s :: Reaches(steps, s) && s.table == map[7 := Candidate(1, 2, "")]
  {
    hide Reaches, Apply, Enabled;
    var s1 := State({1}, map[2 := Utterance(1, None), 3 := DiarizeMap(1)], {2, 3}, map[]);
    FirstPublication(s1);
    var steps := [CreateSession(1), PublishDiarize(1, map[2 := None], 3)];
    var s2 := ReadThenRediarize(steps, s1);
    var e := PublishCandidate(4, 7, 2, "");
    steps := steps + [ReadForComparison(4, 1, {2})] + [Rediarize(1)];
    var s3 := LateCandidate(steps, s2);
    assert Reaches(steps + [e], s3);
  }

  lemma ReadThenRediarize(steps: seq<Step>, s: State) returns (n: State)
    requires s == State({1}, map[2 := Utterance(1, None), 3 := DiarizeMap(1)], {2, 3}, map[]) && Reaches(steps, s)
    ensures n == State({1}, map[], {2, 3}, map[4 := Comparing(1, {2})])
    ensures Reaches(steps + [ReadForComparison(4, 1, {2})] + [Rediarize(1)], n)
  {
    hide Reaches;
    var e := ReadForComparison(4, 1, {2});
    assert Current(s.table, 2, 1);
    var m := State({1}, s.table, {2, 3}, map[4 := Comparing(1, {2})]);
    assert Enabled(s, e) && Apply(s, e) == m;
    Extend(steps, s, e);
    n := State({1}, map[], {2, 3}, m.jobs);
    assert Apply(m, Rediarize(1)) == n;
    Extend(steps + [e], m, Rediarize(1));
  }

  lemma LateCandidate(steps: seq<Step>, s: State) returns (n: State)
    requires s == State({1}, map[], {2, 3}, map[4 := Comparing(1, {2})]) && Reaches(steps, s)
    ensures n.table == map[7 := Candidate(1, 2, "")]
    ensures Reaches(steps + [PublishCandidate(4, 7, 2, "")], n)
  {
    hide Reaches;
    n := Apply(s, PublishCandidate(4, 7, 2, ""));
    Extend(steps, s, PublishCandidate(4, 7, 2, ""));
  }

  lemma FirstPublication(s1: State)
    requires s1 == State({1}, map[2 := Utterance(1, None), 3 := DiarizeMap(1)], {2, 3}, map[])
    ensures Reaches([CreateSession(1), PublishDiarize(1, map[2 := None], 3)], s1)
  {
    var e0, e1 := CreateSession(1), PublishDiarize(1, map[2 := None], 3);
    var s0 := State({1}, map[], {}, map[]);
    assert Apply(Initial(), e0) == s0;
    assert Apply(s0, e1) == s1;
    Extend([], Initial(), e0);
    Extend([] + [e0], s0, e1);
    assert [] + [e0] + [e1] == [e0, e1];
  }

  lemma Extend(steps: seq<Step>, s: State, e: Step)
    requires Reaches(steps, s) && Enabled(s, e)
    ensures Reaches(steps + [e], Apply(s, e))
  {
    assert (steps + [e])[..|steps|] == steps;
  }
}
