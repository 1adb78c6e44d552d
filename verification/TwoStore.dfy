/** Segments in two stores without a shared transaction (services/segments.py): rows in the
    database, objects in the blob store. Every operation is the sequence of its effects, any
    number of operations interleave, and any of them may crash between two effects.
    Transactions are atomic. */
module TwoStore {
  import opened Wrappers

  type Id = nat

  /** Object keys embed their session (the prefix) and a fresh id. */
  datatype Key = Key(session: Id, id: Id)

  /** A segment row; inline resources have no object. */
  datatype Row = Row(session: Id, sequence: int, key: Option<Key>)

  /** Where an operation in flight stands. */
  datatype Op =
    | Putting(sequence: int, key: Key)      // key minted, object not written yet
    | Inserting(sequence: int, key: Key)    // object written, row not committed yet
    | Compensating(key: Key)                // row refused, object still to be deleted
    | Unlinking(key: Key)                   // row deleted, object still to be deleted
    | Purging(session: Id)                  // session and rows deleted, prefix not listed yet
    | Sweeping(session: Id, todo: set<Key>) // prefix listed, these objects still to go

  datatype State = State(
    sessions: set<Id>,
    retired: set<Id>,         // deleted session ids; ids are never reused
    rows: map<Id, Row>,
    objects: set<Key>,
    minted: set<Key>,         // keys handed out so far
    ops: map<Id, Op>,
    crashed: bool
  )

  datatype Step =
    | CreateSession(session: Id)
    | BeginIngest(op: Id, session: Id, sequence: int, id: Id)
    | Put(op: Id)
    | PutRefused(op: Id)
    | CommitRow(op: Id, row: Id)
    | RefuseRow(op: Id)
    | Compensate(op: Id)
    | InsertInline(session: Id, sequence: int, row: Id)
    | DeleteRow(op: Id, row: Id)
    | Unlink(op: Id)
    | DeleteSession(op: Id, session: Id)
    | ListPrefix(op: Id)
    | SweepOne(op: Id, key: Key)
    | SweepDone(op: Id)
    | Crash(op: Id)

  /** The unique constraint on (session, sequence). */
  predicate Taken(s: State, session: Id, sequence: int) {
    exists r :: r in s.rows && s.rows[r].session == session && s.rows[r].sequence == sequence
  }

  /** The insert: a fresh row id, an existing session, a free sequence. */
  predicate CanInsert(s: State, session: Id, sequence: int, row: Id) {
    row !in s.rows && session in s.sessions && !Taken(s, session, sequence)
  }

  predicate Enabled(s: State, e: Step) {
    match e
    case CreateSession(session) => session !in s.sessions && session !in s.retired
    case BeginIngest(op, session, sequence, id) => op !in s.ops && Key(session, id) !in s.minted
    case Put(op) => op in s.ops && s.ops[op].Putting?
    case PutRefused(op) => op in s.ops && s.ops[op].Putting?
    case CommitRow(op, row) =>
      op in s.ops && s.ops[op].Inserting? && CanInsert(s, s.ops[op].key.session, s.ops[op].sequence, row)
    case RefuseRow(op) => op in s.ops && s.ops[op].Inserting?
    case Compensate(op) => op in s.ops && s.ops[op].Compensating?
    case InsertInline(session, sequence, row) => CanInsert(s, session, sequence, row)
    case DeleteRow(op, row) => op !in s.ops && row in s.rows
    case Unlink(op) => op in s.ops && s.ops[op].Unlinking?
    case DeleteSession(op, session) => op !in s.ops && session in s.sessions
    case ListPrefix(op) => op in s.ops && s.ops[op].Purging?
    case SweepOne(op, key) => op in s.ops && s.ops[op].Sweeping? && key.session == s.ops[op].session
    case SweepDone(op) => op in s.ops && s.ops[op].Sweeping? && s.ops[op].todo == {}
    case Crash(op) => op in s.ops
  }

  function Apply(s: State, e: Step): State
    requires Enabled(s, e)
  {
    match e
    case CreateSession(session) => s.(sessions := s.sessions + {session})
    case BeginIngest(op, session, sequence, id) =>
      s.(ops := s.ops[op := Putting(sequence, Key(session, id))], minted := s.minted + {Key(session, id)})
    case Put(op) =>
      s.(ops := s.ops[op := Inserting(s.ops[op].sequence, s.ops[op].key)], objects := s.objects + {s.ops[op].key})
    case PutRefused(op) => s.(ops := s.ops - {op})
    case CommitRow(op, row) =>
      s.(ops := s.ops - {op},
         rows := s.rows[row := Row(s.ops[op].key.session, s.ops[op].sequence, Some(s.ops[op].key))])
    case RefuseRow(op) => s.(ops := s.ops[op := Compensating(s.ops[op].key)])
    case Compensate(op) => s.(ops := s.ops - {op}, objects := s.objects - {s.ops[op].key})
    case InsertInline(session, sequence, row) => s.(rows := s.rows[row := Row(session, sequence, None)])
    case DeleteRow(op, row) =>
      s.(rows := s.rows - {row},
         ops := if s.rows[row].key.Some? then s.ops[op := Unlinking(s.rows[row].key.value)] else s.ops)
    case Unlink(op) => s.(ops := s.ops - {op}, objects := s.objects - {s.ops[op].key})
    case DeleteSession(op, session) =>
      s.(sessions := s.sessions - {session}, retired := s.retired + {session},
         rows := map r | r in s.rows && s.rows[r].session != session :: s.rows[r],
         ops := s.ops[op := Purging(session)])
    case ListPrefix(op) =>
      s.(ops := s.ops[op := Sweeping(s.ops[op].session, set k | k in s.objects && k.session == s.ops[op].session)])
    case SweepOne(op, key) =>
      s.(ops := s.ops[op := Sweeping(s.ops[op].session, s.ops[op].todo - {key})], objects := s.objects - {key})
    case SweepDone(op) => s.(ops := s.ops - {op})
    case Crash(op) => s.(ops := s.ops - {op}, crashed := true)
  }

  // ----- the invariant

  /** The key an operation owns alone. */
  function Owned(o: Op): Option<Key> {
    if o.Putting? || o.Inserting? || o.Compensating? || o.Unlinking? then Some(o.key) else None
  }

  /** No blob-backed row ever points at a missing object. */
  predicate NoDanglingRow(s: State) {
    forall r :: r in s.rows && s.rows[r].key.Some? ==> s.rows[r].key.value in s.objects
  }

  /** Rows belong to live sessions and carry keys of their own session. */
  predicate RowsLive(s: State) {
    && (s.sessions !! s.retired)
    && (forall r :: r in s.rows ==> s.rows[r].session in s.sessions)
    && (forall r :: r in s.rows && s.rows[r].key.Some? ==> s.rows[r].key.value.session == s.rows[r].session)
  }

  /** Keys are used once: by one row or one operation. */
  predicate KeysApart(s: State) {
    RowKeysApart(s) && RowsApartFromOps(s) && OpKeysApart(s) && KeysMinted(s)
  }

  predicate RowKeysApart(s: State) {
    forall r, q :: r in s.rows && q in s.rows && r != q && s.rows[r].key.Some? ==> s.rows[r].key != s.rows[q].key
  }

  predicate RowsApartFromOps(s: State) {
    forall r, o :: r in s.rows && o in s.ops && s.rows[r].key.Some? ==> s.rows[r].key != Owned(s.ops[o])
  }

  predicate OpKeysApart(s: State) {
    forall o, p :: o in s.ops && p in s.ops && o != p && Owned(s.ops[o]).Some? ==> Owned(s.ops[o]) != Owned(s.ops[p])
  }

  predicate KeysMinted(s: State) {
    && (forall r :: r in s.rows && s.rows[r].key.Some? ==> s.rows[r].key.value in s.minted)
    && (forall o :: o in s.ops && Owned(s.ops[o]).Some? ==> Owned(s.ops[o]).value in s.minted)
    && s.objects <= s.minted
  }

  /** An ingest past its PUT still has its object, unless its session was deleted; purges only
      touch sessions that are gone. */
  predicate OpsSound(s: State) {
    && (forall o :: o in s.ops && s.ops[o].Inserting? && s.ops[o].key.session !in s.retired ==>
          s.ops[o].key in s.objects)
    && (forall o :: o in s.ops && s.ops[o].Purging? ==>
          s.ops[o].session !in s.sessions && s.ops[o].session in s.retired)
    && (forall o :: o in s.ops && s.ops[o].Sweeping? ==>
          s.ops[o].session !in s.sessions && s.ops[o].session in s.retired)
  }

  predicate SequencesUnique(s: State) {
    forall r, q :: r in s.rows && q in s.rows && r != q && s.rows[r].session == s.rows[q].session ==>
      s.rows[r].sequence != s.rows[q].sequence
  }

  predicate NamedByRow(s: State, k: Key) {
    exists r :: r in s.rows && s.rows[r].key == Some(k)
  }

  /** Some operation in flight will still deal with the object. */
  predicate HeldByOp(s: State, k: Key) {
    exists o :: o in s.ops && Holds(s.ops[o], k)
  }

  predicate Holds(o: Op, k: Key) {
    match o
    case Putting(_, _) => false
    case Inserting(_, key) => key == k
    case Compensating(key) => key == k
    case Unlinking(key) => key == k
    case Purging(session) => k.session == session
    case Sweeping(session, todo) => k in todo
  }

  /** Without a crash every object is named by a row or held by an operation. */
  predicate Accounted(s: State) {
    !s.crashed ==> forall k :: k in s.objects ==> NamedByRow(s, k) || HeldByOp(s, k)
  }

  predicate Invariant(s: State) {
    && NoDanglingRow(s) && RowsLive(s) && KeysApart(s) && OpsSound(s) && SequencesUnique(s) && Accounted(s)
  }

  function Initial(): State {
    State({}, {}, map[], {}, {}, map[], false)
  }

  lemma StepNoDanglingRow(s: State, e: Step)
    requires NoDanglingRow(s) && RowsLive(s) && RowsApartFromOps(s) && OpsSound(s) && Enabled(s, e)
    ensures NoDanglingRow(Apply(s, e))
  {
  }

  lemma StepRowsLive(s: State, e: Step)
    requires RowsLive(s) && Enabled(s, e)
    ensures RowsLive(Apply(s, e))
  {
  }

  lemma StepRowKeysApart(s: State, e: Step)
    requires RowKeysApart(s) && RowsApartFromOps(s) && Enabled(s, e)
    ensures RowKeysApart(Apply(s, e))
  {
  }

  lemma StepRowsApartFromOps(s: State, e: Step)
    requires RowKeysApart(s) && RowsApartFromOps(s) && OpKeysApart(s) && KeysMinted(s) && Enabled(s, e)
    ensures RowsApartFromOps(Apply(s, e))
  {
  }

  lemma StepOpKeysApart(s: State, e: Step)
    requires RowsApartFromOps(s) && OpKeysApart(s) && KeysMinted(s) && Enabled(s, e)
    ensures OpKeysApart(Apply(s, e))
  {
  }

  lemma StepKeysMinted(s: State, e: Step)
    requires KeysMinted(s) && Enabled(s, e)
    ensures KeysMinted(Apply(s, e))
  {
  }

  lemma StepOpsSound(s: State, e: Step)
    requires OpsSound(s) && OpKeysApart(s) && RowsLive(s) && KeysMinted(s) && Enabled(s, e)
    ensures OpsSound(Apply(s, e))
  {
  }

  lemma StepSequencesUnique(s: State, e: Step)
    requires SequencesUnique(s) && Enabled(s, e)
    ensures SequencesUnique(Apply(s, e))
  {
  }

  /** Where the object of a row goes when the row does. */
  lemma RowMovesOn(s: State, e: Step, r: Id)
    requires Enabled(s, e) && r in s.rows && s.rows[r].key.Some? && RowsLive(s)
    ensures var t, k := Apply(s, e), s.rows[r].key.value; NamedByRow(t, k) || HeldByOp(t, k)
  {
    var t, k := Apply(s, e), s.rows[r].key.value;
    if r in t.rows {
      assert t.rows[r].key == Some(k);
    } else if e.DeleteRow? {
      assert e.op in t.ops && Holds(t.ops[e.op], k);
    } else {
      assert e.op in t.ops && Holds(t.ops[e.op], k);
    }
  }

  /** Where the object of an operation goes when the operation does. */
  lemma OpMovesOn(s: State, e: Step, o: Id, k: Key)
    requires Enabled(s, e) && o in s.ops && Holds(s.ops[o], k) && !e.Crash?
    ensures var t := Apply(s, e); k in t.objects && k in s.objects ==> NamedByRow(t, k) || HeldByOp(t, k)
  {
    var t := Apply(s, e);
    if o in t.ops && Holds(t.ops[o], k) {
    } else if e.CommitRow? {
      assert t.rows[e.row].key == Some(k);
    }
  }

  lemma StepAccounted(s: State, e: Step)
    requires Accounted(s) && RowsLive(s) && Enabled(s, e)
    ensures Accounted(Apply(s, e))
  {
    var t := Apply(s, e);
    if !t.crashed {
      forall k | k in t.objects ensures NamedByRow(t, k) || HeldByOp(t, k) {
        if k !in s.objects {
          assert Holds(t.ops[e.op], k);
        } else if NamedByRow(s, k) {
          var r :| r in s.rows && s.rows[r].key == Some(k);
          RowMovesOn(s, e, r);
        } else {
          var o :| o in s.ops && Holds(s.ops[o], k);
          OpMovesOn(s, e, o, k);
        }
      }
    }
  }

  // ----- every run

  lemma StepKeepsInvariant(s: State, e: Step)
    requires Invariant(s) && Enabled(s, e)
    ensures Invariant(Apply(s, e))
  {
    hide NoDanglingRow, RowsLive, RowKeysApart, RowsApartFromOps, OpKeysApart, KeysMinted, OpsSound, SequencesUnique;
    hide Accounted;
    StepNoDanglingRow(s, e);
    StepRowsLive(s, e);
    StepRowKeysApart(s, e);
    StepRowsApartFromOps(s, e);
    StepOpKeysApart(s, e);
    StepKeysMinted(s, e);
    StepOpsSound(s, e);
    StepSequencesUnique(s, e);
    StepAccounted(s, e);
  }

  /** s is reached by some interleaving of steps. */
  ghost predicate Reaches(steps: seq<Step>, s: State)
    decreases |steps|
  {
    if steps == [] then s == Initial()
    else
      var n := |steps| - 1;
      exists before :: Reaches(steps[..n], before) && Enabled(before, steps[n]) && s == Apply(before, steps[n])
  }

  lemma {:induction false} RunsKeepInvariant(steps: seq<Step>, s: State)
    requires Reaches(steps, s)
    ensures Invariant(s)
  {
    if steps != [] {
      var n := |steps| - 1;
      var before :| Reaches(steps[..n], before) && Enabled(before, steps[n]) && s == Apply(before, steps[n]);
      RunsKeepInvariant(steps[..n], before);
      StepKeepsInvariant(before, steps[n]);
    }
  }

  /** In every interleaving, with crashes anywhere, no blob-backed row points at a missing
      object and no session has a sequence twice. */
  lemma RowsAlwaysReadable(steps: seq<Step>, s: State)
    requires Reaches(steps, s)
    ensures forall r :: r in s.rows && s.rows[r].key.Some? ==> s.rows[r].key.value in s.objects
    ensures forall r, q :: r in s.rows && q in s.rows && r != q && s.rows[r].session == s.rows[q].session ==>
      s.rows[r].sequence != s.rows[q].sequence
  {
    RunsKeepInvariant(steps, s);
  }

  lemma {:induction false} CrashesRemembered(steps: seq<Step>, s: State)
    requires Reaches(steps, s)
    ensures s.crashed <==> exists i :: 0 <= i < |steps| && steps[i].Crash?
  {
    if steps != [] {
      var n := |steps| - 1;
      var before :| Reaches(steps[..n], before) && Enabled(before, steps[n]) && s == Apply(before, steps[n]);
      CrashesRemembered(steps[..n], before);
      assert forall i :: 0 <= i < n ==> steps[..n][i] == steps[i];
    }
  }

  /** Without a crash in the run, once nothing is in flight, the objects are exactly those rows name. */
  lemma QuiescentStoresAgree(steps: seq<Step>, s: State)
    requires Reaches(steps, s) && (forall i :: 0 <= i < |steps| ==> !steps[i].Crash?) && s.ops == map[]
    ensures s.objects == set r | r in s.rows && s.rows[r].key.Some? :: s.rows[r].key.value
  {
    RunsKeepInvariant(steps, s);
    CrashesRemembered(steps, s);
    forall k | k in s.objects ensures NamedByRow(s, k) {
      assert !HeldByOp(s, k);
    }
  }

  // ----- what every step does to the two stores

  /** A row is there after a step exactly when the step inserted it, or it was there and the step
      deleted neither it nor its session. Rows never change. */
  lemma StepRows(s: State, e: Step, r: Id)
    requires Enabled(s, e)
    ensures var t := Apply(s, e);
      r in t.rows <==>
        || (e.CommitRow? && e.row == r)
        || (e.InsertInline? && e.row == r)
        || (r in s.rows && !(e.DeleteRow? && e.row == r) && !(e.DeleteSession? && e.session == s.rows[r].session))
    ensures r in s.rows && r in Apply(s, e).rows ==> Apply(s, e).rows[r] == s.rows[r]
    ensures e.CommitRow? && e.row == r ==>
      var row := Apply(s, e).rows[r];
      && row.session == s.ops[e.op].key.session && row.sequence == s.ops[e.op].sequence
      && row.key == Some(s.ops[e.op].key)
    ensures e.InsertInline? && e.row == r ==>
      var row := Apply(s, e).rows[r];
      row.session == e.session && row.sequence == e.sequence && row.key == None
  {
  }

  /** An object is there exactly when the step wrote it, or it was there and the step was no delete of
      it: by a refused ingest, a row's deletion or a sweep. */
  lemma StepObjects(s: State, e: Step, k: Key)
    requires Enabled(s, e)
    ensures k in Apply(s, e).objects <==>
      || (e.Put? && s.ops[e.op].key == k)
      || (k in s.objects
          && !(e.Compensate? && s.ops[e.op].key == k)
          && !(e.Unlink? && s.ops[e.op].key == k)
          && !(e.SweepOne? && e.key == k))
  {
  }

  /** A session is live from its creation to its deletion. */
  lemma StepSessions(s: State, e: Step, x: Id)
    requires Enabled(s, e)
    ensures x in Apply(s, e).sessions <==>
      (e.CreateSession? && e.session == x) || (x in s.sessions && !(e.DeleteSession? && e.session == x))
  {
  }

  /** A session can begin under any id that no session has had; an operation can crash wherever it is,
      which leaves both stores as they are. */
  lemma BeginAndCrash(s: State, x: Id)
    ensures x !in s.sessions && x !in s.retired ==> Enabled(s, CreateSession(x))
    ensures x in s.ops ==> Enabled(s, Crash(x)) && Apply(s, Crash(x)) == s.(ops := s.ops - {x}, crashed := true)
  {
  }

  /** What a committed ingest achieves: its row is there under its session and sequence, and the object
      it names is stored; every other row is as it was, and so are the objects. */
  lemma CommitAchieves(steps: seq<Step>, s: State, op: Id, row: Id)
    requires Reaches(steps, s) && Enabled(s, CommitRow(op, row))
    ensures var t := Apply(s, CommitRow(op, row));
      && row in t.rows && t.rows[row].session == s.ops[op].key.session
      && t.rows[row].sequence == s.ops[op].sequence && t.rows[row].key == Some(s.ops[op].key)
      && s.ops[op].key in t.objects && t.objects == s.objects
      && forall r :: r != row ==> (r in t.rows <==> r in s.rows) && (r in s.rows ==> t.rows[r] == s.rows[r])
  {
    RunsKeepInvariant(steps, s);
  }

  // ----- operations on their own, from any state

  /** The steps lead from s to t. */
  ghost predicate Leads(s: State, steps: seq<Step>, t: State)
    decreases |steps|
  {
    if steps == [] then t == s
    else Enabled(s, steps[0]) && Leads(Apply(s, steps[0]), steps[1..], t)
  }

  lemma OneLeads(s: State, e: Step)
    requires Enabled(s, e)
    ensures Leads(s, [e], Apply(s, e))
  {
    assert [e][1..] == [];
  }

  lemma {:induction false} LeadsOn(s: State, a: seq<Step>, t: State, b: seq<Step>, u: State)
    requires Leads(s, a, t) && Leads(t, b, u)
    ensures Leads(s, a + b, u)
    decreases |a|
  {
    if a == [] {
      assert a + b == b;
    } else {
      LeadsOn(Apply(s, a[0]), a[1..], t, b, u);
      assert (a + b)[1..] == a[1..] + b;
    }
  }

  /** The steps of an ingest that goes well: one row more, and its object. */
  lemma IngestAlone(s: State, op: Id, session: Id, sequence: int, id: Id, row: Id)
    requires op !in s.ops && Key(session, id) !in s.minted && row !in s.rows
    requires session in s.sessions && !Taken(s, session, sequence)
    ensures Leads(s, [BeginIngest(op, session, sequence, id), Put(op), CommitRow(op, row)],
                  s.(rows := s.rows[row := Row(session, sequence, Some(Key(session, id)))],
                     objects := s.objects + {Key(session, id)}, minted := s.minted + {Key(session, id)}))
  {
    var a := Apply(s, BeginIngest(op, session, sequence, id));
    var b := Apply(a, Put(op));
    var c := Apply(b, CommitRow(op, row));
    assert c.ops == s.ops;
    hide Apply;
    OneLeads(s, BeginIngest(op, session, sequence, id));
    OneLeads(a, Put(op));
    OneLeads(b, CommitRow(op, row));
    ThreeLead(s, BeginIngest(op, session, sequence, id), a, Put(op), b, CommitRow(op, row), c);
  }

  lemma ThreeLead(s: State, d: Step, a: State, e: Step, b: State, f: Step, c: State)
    requires Leads(s, [d], a) && Leads(a, [e], b) && Leads(b, [f], c)
    ensures Leads(s, [d, e, f], c)
  {
    LeadsOn(s, [d], a, [e], b);
    LeadsOn(s, [d] + [e], b, [f], c);
    assert [d] + [e] + [f] == [d, e, f];
  }

  /** A refused one leaves neither row nor object behind. */
  lemma RefusedIngestAlone(s: State, op: Id, session: Id, sequence: int, id: Id)
    requires op !in s.ops && Key(session, id) !in s.minted && Key(session, id) !in s.objects
    ensures Leads(s, [BeginIngest(op, session, sequence, id), Put(op)] + [RefuseRow(op), Compensate(op)],
                  s.(minted := s.minted + {Key(session, id)}))
  {
    var a := Apply(s, BeginIngest(op, session, sequence, id));
    var b := Apply(a, Put(op));
    var c := Apply(b, RefuseRow(op));
    var d := Apply(c, Compensate(op));
    assert d.ops == s.ops && d.objects == s.objects;
    hide Apply;
    OneLeads(s, BeginIngest(op, session, sequence, id));
    OneLeads(a, Put(op));
    OneLeads(b, RefuseRow(op));
    OneLeads(c, Compensate(op));
    LeadsOn(s, [BeginIngest(op, session, sequence, id)], a, [Put(op)], b);
    LeadsOn(b, [RefuseRow(op)], c, [Compensate(op)], d);
    LeadsOn(s, [BeginIngest(op, session, sequence, id)] + [Put(op)], b, [RefuseRow(op)] + [Compensate(op)], d);
    assert [BeginIngest(op, session, sequence, id)] + [Put(op)] == [BeginIngest(op, session, sequence, id), Put(op)];
    assert [RefuseRow(op)] + [Compensate(op)] == [RefuseRow(op), Compensate(op)];
  }

  /** Deleting a row takes it and its object, and nothing else. */
  lemma DeletionAlone(s: State, op: Id, row: Id)
    requires op !in s.ops && row in s.rows && s.rows[row].key.Some?
    ensures Leads(s, [DeleteRow(op, row), Unlink(op)],
                  s.(rows := s.rows - {row}, objects := s.objects - {s.rows[row].key.value}))
  {
    var a := Apply(s, DeleteRow(op, row));
    var b := Apply(a, Unlink(op));
    assert b.ops == s.ops;
    hide Apply;
    OneLeads(s, DeleteRow(op, row));
    OneLeads(a, Unlink(op));
    LeadsOn(s, [DeleteRow(op, row)], a, [Unlink(op)], b);
    assert [DeleteRow(op, row)] + [Unlink(op)] == [DeleteRow(op, row), Unlink(op)];
  }

  /** An inline row has no object to take. */
  lemma InlineDeletionAlone(s: State, op: Id, row: Id)
    requires op !in s.ops && row in s.rows && s.rows[row].key.None?
    ensures Leads(s, [DeleteRow(op, row)], s.(rows := s.rows - {row}))
  {
    OneLeads(s, DeleteRow(op, row));
  }

  /** The sweep of a deleted session, key by key. */
  lemma {:induction false} SweepAlone(s: State, op: Id, session: Id, todo: set<Key>) returns (steps: seq<Step>)
    requires op in s.ops && s.ops[op] == Sweeping(session, todo) && forall k :: k in todo ==> k.session == session
    ensures Leads(s, steps, s.(ops := s.ops - {op}, objects := s.objects - todo))
    decreases |todo|
  {
    if todo == {} {
      steps := [SweepDone(op)];
      OneLeads(s, SweepDone(op));
      assert s.objects - todo == s.objects;
    } else {
      var key :| key in todo;
      var next := Apply(s, SweepOne(op, key));
      var rest := SweepAlone(next, op, session, todo - {key});
      OneLeads(s, SweepOne(op, key));
      assert next.ops - {op} == s.ops - {op};
      assert next.objects - (todo - {key}) == s.objects - todo;
      LeadsOn(s, [SweepOne(op, key)], next, rest, s.(ops := s.ops - {op}, objects := s.objects - todo));
      steps := [SweepOne(op, key)] + rest;
    }
  }

  /** Deleting a session takes its rows and every object under its prefix, and nothing else. */
  lemma SessionDeletionAlone(s: State, op: Id, session: Id) returns (steps: seq<Step>, t: State)
    requires op !in s.ops && session in s.sessions
    ensures Leads(s, steps, t) && t.ops == s.ops && t.minted == s.minted && t.crashed == s.crashed
    ensures t.sessions == s.sessions - {session} && t.retired == s.retired + {session}
    ensures forall r :: r in t.rows <==> r in s.rows && s.rows[r].session != session
    ensures forall r :: r in t.rows ==> t.rows[r] == s.rows[r]
    ensures forall k :: k in t.objects <==> k in s.objects && k.session != session
  {
    var a := Apply(s, DeleteSession(op, session));
    var b := Apply(a, ListPrefix(op));
    var todo := set k | k in s.objects && k.session == session;
    var rest := SweepAlone(b, op, session, todo);
    t := b.(ops := b.ops - {op}, objects := b.objects - todo);
    assert t.ops == s.ops;
    OneLeads(s, DeleteSession(op, session));
    OneLeads(a, ListPrefix(op));
    LeadsOn(s, [DeleteSession(op, session)], a, [ListPrefix(op)], b);
    LeadsOn(s, [DeleteSession(op, session)] + [ListPrefix(op)], b, rest, t);
    steps := [DeleteSession(op, session)] + [ListPrefix(op)] + rest;
  }

  // ----- a stored row stays

  /** Among the steps there is no deletion of the row, nor of its session. */
  ghost predicate Spares(steps: seq<Step>, row: Id, session: Id) {
    forall i :: 0 <= i < |steps| ==>
      !(steps[i].DeleteRow? && steps[i].row == row) && !(steps[i].DeleteSession? && steps[i].session == session)
  }

  lemma {:induction false} RowStaysThrough(s: State, more: seq<Step>, t: State, row: Id)
    requires Leads(s, more, t) && row in s.rows && Spares(more, row, s.rows[row].session)
    ensures row in t.rows && t.rows[row] == s.rows[row]
    decreases |more|
  {
    if more != [] {
      StepRows(s, more[0], row);
      assert forall i :: 0 <= i < |more| - 1 ==> more[1..][i] == more[i + 1];
      RowStaysThrough(Apply(s, more[0]), more[1..], t, row);
    }
  }

  lemma {:induction false} ReachesOn(steps: seq<Step>, s: State, more: seq<Step>, t: State)
    requires Reaches(steps, s) && Leads(s, more, t)
    ensures Reaches(steps + more, t)
    decreases |more|
  {
    if more == [] {
      assert steps + more == steps;
    } else {
      var next := Apply(s, more[0]);
      assert (steps + [more[0]])[..|steps|] == steps;
      assert Reaches(steps + [more[0]], next);
      ReachesOn(steps + [more[0]], next, more[1..], t);
      assert steps + [more[0]] + more[1..] == steps + more;
    }
  }

  /** Durability: whatever else happens, with crashes anywhere, a stored row stays as it is with its
      object until it or its session is deleted. */
  lemma StoredRowStays(steps: seq<Step>, s: State, more: seq<Step>, t: State, row: Id)
    requires Reaches(steps, s) && Leads(s, more, t)
    requires row in s.rows && Spares(more, row, s.rows[row].session)
    ensures row in t.rows && t.rows[row] == s.rows[row]
    ensures s.rows[row].key.Some? ==> s.rows[row].key.value in t.objects
  {
    RowStaysThrough(s, more, t, row);
    ReachesOn(steps, s, more, t);
    RowsAlwaysReadable(steps + more, t);
  }
}
