/** Loading, unloading and using the diarization models of the pyannote sidecar: the GPU lock,
    the lifecycle lock, the startup loader, the idle watchdog and any number of request threads.
    Every assignment another thread could observe is a step of its own. */
module ModelLifecycle {
  import opened Wrappers

  type Id = nat

  const RELOAD_RETRY_LIMIT := 5
  const RELOAD_BACKOFF := 30

  /** _state: "loading", "loaded", "idle", "failed". */
  datatype Status = Starting | Loaded | Unloaded | Failed

  /** The module globals; attempts lists the outcome of every finished load. */
  datatype Model = Model(
    status: Status,
    pipeline: bool,
    embedding: bool,
    audio: bool,
    everLoaded: bool,
    failures: nat,
    retryAfter: int,
    lastUsed: int,
    dying: bool,
    attempts: seq<bool>
  )

  function Fresh(now: int): Model {
    Model(Starting, false, false, false, false, 0, 0, now, false, [])
  }

  /** _record_load_result */
  function Recorded(m: Model, now: int): Model {
    if m.status == Loaded then m.(lastUsed := now, everLoaded := true, failures := 0, retryAfter := 0)
    else if !m.everLoaded then m.(retryAfter := now + RELOAD_BACKOFF)
    else m.(retryAfter := now + RELOAD_BACKOFF, failures := m.failures + 1,
            dying := m.dying || m.failures + 1 >= RELOAD_RETRY_LIMIT)
  }

  /** The end of a load attempt. */
  function Attempted(m: Model, ok: bool, now: int): Model {
    Recorded(m.(status := if ok then Loaded else Failed, attempts := m.attempts + [ok]), now)
  }

  predicate AllPresent(m: Model) {
    m.pipeline && m.embedding && m.audio
  }

  // ----- the give-up rule, against the history of load attempts

  /** How many attempts at the end failed in a row. */
  function Trailing(attempts: seq<bool>): nat {
    if attempts == [] || attempts[|attempts| - 1] then 0 else 1 + Trailing(attempts[..|attempts| - 1])
  }

  predicate GaveUpAt(attempts: seq<bool>, k: nat) {
    k <= |attempts| && true in attempts[..k] && Trailing(attempts[..k]) >= RELOAD_RETRY_LIMIT
  }

  /** At some point the last five attempts had failed, after one that succeeded. */
  predicate GaveUp(attempts: seq<bool>) {
    exists k :: 0 <= k <= |attempts| && GaveUpAt(attempts, k)
  }

  predicate Books(m: Model) {
    && (m.everLoaded <==> true in m.attempts)
    && m.failures == (if true in m.attempts then Trailing(m.attempts) else 0)
    && (m.dying <==> GaveUp(m.attempts))
    && (m.status == Starting <==> m.attempts == [])
    && (m.status == Failed <==> m.attempts != [] && !m.attempts[|m.attempts| - 1])
  }

  lemma GaveUpNext(attempts: seq<bool>, ok: bool)
    ensures var all := attempts + [ok];
      GaveUp(all) <==> GaveUp(attempts) || (true in all && Trailing(all) >= RELOAD_RETRY_LIMIT)
  {
    var all := attempts + [ok];
    assert all[..|attempts|] == attempts && all[..|all|] == all;
    if GaveUp(attempts) {
      var k :| 0 <= k <= |attempts| && GaveUpAt(attempts, k);
      assert all[..k] == attempts[..k];
      assert GaveUpAt(all, k);
    }
    if true in all && Trailing(all) >= RELOAD_RETRY_LIMIT {
      assert GaveUpAt(all, |all|);
    }
    if GaveUp(all) {
      var k :| 0 <= k <= |all| && GaveUpAt(all, k);
      if k < |all| {
        assert all[..k] == attempts[..k];
        assert GaveUpAt(attempts, k);
      }
    }
  }

  lemma TrailingNext(attempts: seq<bool>, ok: bool)
    ensures Trailing(attempts + [ok]) == if ok then 0 else 1 + Trailing(attempts)
    ensures true in attempts + [ok] <==> ok || true in attempts
  {
    var all := attempts + [ok];
    assert all[..|all| - 1] == attempts && all[|all| - 1] == ok;
  }

  lemma AttemptKeepsBooks(m: Model, ok: bool, now: int)
    requires Books(m)
    ensures Books(Attempted(m, ok, now))
  {
    hide GaveUp, Trailing;
    GaveUpNext(m.attempts, ok);
    TrailingNext(m.attempts, ok);
    var all := m.attempts + [ok];
    assert all != [] && all[|all| - 1] == ok;
  }

  // ----- the critical sections, run by one thread

  /** How a load attempt ends: in full, before the embedder is published, or after it. */
  datatype Outcome = Loads | FailsEarly | FailsLate

  /** _load_model, from its first line to its last. */
  function LoadRun(m: Model, outcome: Outcome, later: int): Model {
    match outcome
    case Loads => Attempted(m.(pipeline := true, embedding := true, audio := true), true, later)
    case FailsEarly => Attempted(m, false, later)
    case FailsLate => Attempted(m.(embedding := true), false, later)
  }

  /** The condition under which a request reloads. */
  predicate DueForRequest(m: Model, now: int) {
    (m.status == Unloaded || m.status == Failed) && now >= m.retryAfter
  }

  predicate DueForWatchdog(m: Model, now: int) {
    m.status == Failed && m.everLoaded && now >= m.retryAfter
  }

  predicate IdleLongEnough(m: Model, now: int, idleAfter: int) {
    m.status == Loaded && now - m.lastUsed >= idleAfter
  }

  /** How far an unload has got. */
  datatype DropPhase = Holding | Unpiped | Unembedded | Unheard

  class Sidecar {
    var status: Status
    var pipeline: bool
    var embedding: bool
    var audio: bool
    var everLoaded: bool
    var failures: nat
    var retryAfter: int
    var lastUsed: int
    var dying: bool
    ghost var attempts: seq<bool>

    ghost function Globals(): Model
      reads this
    {
      Model(status, pipeline, embedding, audio, everLoaded, failures, retryAfter, lastUsed, dying, attempts)
    }

    constructor (now: int)
      ensures Globals() == Fresh(now)
    {
      status, pipeline, embedding, audio := Starting, false, false, false;
      everLoaded, failures, retryAfter, lastUsed, dying := false, 0, 0, now, false;
      attempts := [];
    }

    method RecordLoadResult(now: int)
      modifies this
      ensures Globals() == Recorded(old(Globals()), now)
      ensures status == old(status) && attempts == old(attempts)
      ensures pipeline == old(pipeline) && embedding == old(embedding) && audio == old(audio)
      ensures old(status) == Loaded ==>
        lastUsed == now && everLoaded && failures == 0 && retryAfter == 0 && dying == old(dying)
      ensures old(status) != Loaded ==>
        && lastUsed == old(lastUsed) && everLoaded == old(everLoaded) && retryAfter == now + 30
        && failures == old(failures) + (if old(everLoaded) then 1 else 0)
        && (dying <==> old(dying) || (old(everLoaded) && old(failures) + 1 >= 5))
    {
      if status == Loaded {
        lastUsed, everLoaded, failures, retryAfter := now, true, 0, 0;
        return;
      }
      retryAfter := now + RELOAD_BACKOFF;
      if !everLoaded {
        return;
      }
      failures := failures + 1;
      if failures >= RELOAD_RETRY_LIMIT {
        dying := true;
      }
    }

    method LoadModel(outcome: Outcome, later: int)
      modifies this
      ensures Globals() == LoadRun(old(Globals()), outcome, later)
      ensures attempts == old(attempts) + [outcome.Loads?]
      ensures outcome.Loads? ==>
        && status == Loaded && pipeline && embedding && audio && everLoaded
        && failures == 0 && retryAfter == 0 && lastUsed == later && dying == old(dying)
      ensures !outcome.Loads? ==>
        && status == Failed && pipeline == old(pipeline) && audio == old(audio)
        && embedding == (old(embedding) || outcome.FailsLate?)
        && everLoaded == old(everLoaded) && lastUsed == old(lastUsed) && retryAfter == later + 30
        && failures == old(failures) + (if old(everLoaded) then 1 else 0)
        && (dying <==> old(dying) || (old(everLoaded) && old(failures) + 1 >= 5))
    {
      if outcome.Loads? {
        embedding := true;
        audio := true;
        pipeline := true;
        status := Loaded;
        lastUsed := later;
      } else {
        if outcome.FailsLate? {
          embedding := true;
        }
        status := Failed;
      }
      attempts := attempts + [outcome.Loads?];
      RecordLoadResult(later);
    }

    /** ok is false where the source raises ModelsUnavailable. It reloads exactly when a reload is
        due, and then every model is there; a status of loaded is taken at its word. */
    method EnsureLoaded(now: int, outcome: Outcome, later: int) returns (ok: bool)
      requires Books(Globals()) && now <= later
      modifies this
      ensures Books(Globals())
      ensures var due := (old(status) == Unloaded || old(status) == Failed) && now >= old(retryAfter);
        && (ok <==> old(status) == Loaded || (due && outcome.Loads?))
        && attempts == old(attempts) + (if due then [outcome.Loads?] else [])
        && status == (if !due then old(status) else if outcome.Loads? then Loaded else Failed)
        && lastUsed == (if ok then later else old(lastUsed))
        && (due && outcome.Loads? ==> pipeline && embedding && audio && failures == 0 && retryAfter == 0 && everLoaded)
        && (due && !outcome.Loads? ==> retryAfter == later + 30)
        && (!due ==> Globals() == old(Globals()).(lastUsed := lastUsed))
    {
      if (status == Unloaded || status == Failed) && now >= retryAfter {
        BooksOfRun(Globals(), outcome, later);
        LoadModel(outcome, later);
      }
      if status != Loaded {
        return false;
      }
      lastUsed := later;
      return true;
    }

    /** One tick; gpuFree says whether the non-blocking acquire would succeed, raises where the
        unload raises, if it does. The thread dies of that, with the status still loaded. */
    method WatchdogTick(now: int, idleAfter: int, gpuFree: bool, outcome: Outcome, raises: Option<DropPhase>,
                        later: int)
      returns (alive: bool)
      requires Books(Globals())
      modifies this
      ensures Books(Globals())
      ensures var due := old(status) == Failed && old(everLoaded) && now >= old(retryAfter);
        var evicts := old(status) == Loaded && now - old(lastUsed) >= idleAfter && gpuFree;
        && (due ==> Globals() == LoadRun(old(Globals()), outcome, later) && alive)
        && (due ==> attempts == old(attempts) + [outcome.Loads?] && status == if outcome.Loads? then Loaded else Failed)
        && (evicts && raises.None? ==>
              && alive && !pipeline && !embedding && !audio
              && status == Unloaded
              && Globals()
                 == old(Globals()).(status := Unloaded, pipeline := false, embedding := false, audio := false))
        && (evicts && raises.Some? ==>
              && !alive && status == Loaded
              && pipeline == (old(pipeline) && raises.value == Holding)
              && embedding == (old(embedding) && (raises.value == Holding || raises.value == Unpiped))
              && audio == (old(audio) && raises.value != Unheard)
              && Globals() == old(Globals()).(pipeline := pipeline, embedding := embedding, audio := audio))
        && (!due && !evicts ==> Globals() == old(Globals()) && alive)
    {
      if status == Failed && everLoaded && now >= retryAfter {
        BooksOfRun(Globals(), outcome, later);
        LoadModel(outcome, later);
        return true;
      }
      if status != Loaded || now - lastUsed < idleAfter {
        return true;
      }
      if !gpuFree {
        return true;
      }
      if raises == Some(Holding) { return false; }
      pipeline := false;
      if raises == Some(Unpiped) { return false; }
      embedding := false;
      if raises == Some(Unembedded) { return false; }
      audio := false;
      if raises == Some(Unheard) { return false; }
      EveryPhase(raises);
      status := Unloaded;
      return true;
    }
  }

  lemma EveryPhase(raises: Option<DropPhase>)
    ensures
      || raises == None || raises == Some(Holding) || raises == Some(Unpiped) || raises == Some(Unembedded)
      || raises == Some(Unheard)
  {
    if raises.Some? {
      match raises.value
      case Holding =>
      case Unpiped =>
      case Unembedded =>
      case Unheard =>
    }
  }

  lemma BooksOfRun(m: Model, outcome: Outcome, later: int)
    requires Books(m)
    ensures Books(LoadRun(m, outcome, later))
  {
    hide GaveUp, Trailing, Attempted;
    AttemptKeepsBooks(m, outcome.Loads?, later);
    AttemptKeepsBooks(m.(embedding := true), false, later);
    AttemptKeepsBooks(m.(pipeline := true, embedding := true, audio := true), true, later);
  }

  // ----- all threads at once

  datatype Who = Loader | Watchdog | Request(id: Id)

  /** How far a load has got: which globals it has published. */
  datatype LoadPhase = Fetching | Embedded | Heard | Piped

  datatype Pc =
    | Asleep             // the watchdog between ticks
    | WantGpu            // a request at `with _gpu_lock`
    | WantLife           // at `with _lifecycle`
    | Checking           // lifecycle taken
    | Loading(load: LoadPhase)
    | Rechecking         // a request at the second test of _ensure_loaded
    | Inference          // a request using the models
    | Stamping           // GPU lock released, _last_used not yet set
    | Dropping(drop: DropPhase)
    | Leaving            // about to release the lifecycle lock
    | Done

  datatype State = State(
    now: int,
    idleAfter: int,
    model: Model,
    gpu: Option<Who>,
    life: Option<Who>,
    pcs: map<Who, Pc>,
    aborted: Option<DropPhase>  // an unload raised there
  )

  datatype Step =
    | Tick(seconds: nat)
    | Arrive(id: Id)
    | Wake
    | TakeGpu(who: Who)
    | TakeLife(who: Who)
    | Check(who: Who)
    | SetEmbedding(who: Who)
    | SetAudio(who: Who)
    | SetPipeline(who: Who)
    | FinishLoad(who: Who)
    | FailLoad(who: Who)
    | Recheck(who: Who)
    | FinishInference(who: Who, ok: bool)
    | FinishSilent(who: Who)
    | Stamp(who: Who)
    | DropPipeline
    | DropEmbedding
    | DropAudio
    | FinishDrop
    | FailDrop
    | Leave(who: Who)

  predicate At(s: State, who: Who, pc: Pc) {
    who in s.pcs && s.pcs[who] == pc
  }

  predicate Enabled(s: State, e: Step) {
    match e
    case Tick(_) => true
    case Arrive(id) => Request(id) !in s.pcs && s.model.status != Starting
    case Wake => At(s, Watchdog, Asleep)
    case TakeGpu(w) => At(s, w, WantGpu) && s.gpu == None
    case TakeLife(w) => At(s, w, WantLife) && s.life == None
    case Check(w) => At(s, w, Checking)
    case SetEmbedding(w) => At(s, w, Loading(Fetching))
    case SetAudio(w) => At(s, w, Loading(Embedded))
    case SetPipeline(w) => At(s, w, Loading(Heard))
    case FinishLoad(w) => At(s, w, Loading(Piped))
    case FailLoad(w) => At(s, w, Loading(Fetching)) || At(s, w, Loading(Embedded))
    case Recheck(w) => At(s, w, Rechecking)
    case FinishInference(w, _) => At(s, w, Inference)
    case FinishSilent(w) => At(s, w, Inference)
    case Stamp(w) => At(s, w, Stamping)
    case DropPipeline => At(s, Watchdog, Dropping(Holding))
    case DropEmbedding => At(s, Watchdog, Dropping(Unpiped))
    case DropAudio => At(s, Watchdog, Dropping(Unembedded))
    case FinishDrop => At(s, Watchdog, Dropping(Unheard))
    case FailDrop => Watchdog in s.pcs && s.pcs[Watchdog].Dropping?
    case Leave(w) => At(s, w, Leaving)
  }

  function Moved(s: State, who: Who, pc: Pc): State {
    s.(pcs := s.pcs[who := pc])
  }

  /** Where a thread goes after its load attempt. */
  function AfterLoad(who: Who): Pc {
    if who.Request? then Rechecking else Leaving
  }

  function Apply(s: State, e: Step): State
    requires Enabled(s, e)
  {
    match e
    case Tick(seconds) => s.(now := s.now + seconds)
    case Arrive(id) => Moved(s, Request(id), WantGpu)
    case Wake => Moved(s, Watchdog, WantLife)
    case TakeGpu(w) => Moved(s, w, WantLife).(gpu := Some(w))
    case TakeLife(w) => Moved(s, w, if w.Loader? then Loading(Fetching) else Checking).(life := Some(w))
    case Check(w) => Checked(s, w)
    case SetEmbedding(w) => Moved(s, w, Loading(Embedded)).(model := s.model.(embedding := true))
    case SetAudio(w) => Moved(s, w, Loading(Heard)).(model := s.model.(audio := true))
    case SetPipeline(w) => Moved(s, w, Loading(Piped)).(model := s.model.(pipeline := true))
    case FinishLoad(w) => Moved(s, w, AfterLoad(w)).(model := Attempted(s.model, true, s.now))
    case FailLoad(w) => Moved(s, w, AfterLoad(w)).(model := Attempted(s.model, false, s.now))
    case Recheck(w) =>
      if s.model.status == Loaded then Moved(s, w, Inference).(life := None, model := s.model.(lastUsed := s.now))
      else Moved(s, w, Done).(life := None, gpu := None)
    case FinishInference(w, ok) => Moved(s, w, if ok then Stamping else Done).(gpu := None)
    case FinishSilent(w) => Moved(s, w, Done).(gpu := None, model := s.model.(lastUsed := s.now))
    case Stamp(w) => Moved(s, w, Done).(model := s.model.(lastUsed := s.now))
    case DropPipeline => Moved(s, Watchdog, Dropping(Unpiped)).(model := s.model.(pipeline := false))
    case DropEmbedding => Moved(s, Watchdog, Dropping(Unembedded)).(model := s.model.(embedding := false))
    case DropAudio => Moved(s, Watchdog, Dropping(Unheard)).(model := s.model.(audio := false))
    case FinishDrop => Moved(s, Watchdog, Leaving).(gpu := None, model := s.model.(status := Unloaded))
    case FailDrop => Moved(s, Watchdog, Done).(gpu := None, life := None, aborted := Some(s.pcs[Watchdog].drop))
    case Leave(w) => Moved(s, w, if w.Watchdog? then Asleep else Done).(life := None)
  }

  /** The first test under the lifecycle lock. */
  function Checked(s: State, w: Who): State {
    if w.Request? then
      Moved(s, w, if DueForRequest(s.model, s.now) then Loading(Fetching) else Rechecking)
    else if DueForWatchdog(s.model, s.now) then Moved(s, w, Loading(Fetching))
    else if !IdleLongEnough(s.model, s.now, s.idleAfter) then Moved(s, w, Leaving)
    else if s.gpu != None then Moved(s, w, Leaving)
    else Moved(s, w, Dropping(Holding)).(gpu := Some(w))
  }

  // ----- the invariant

  predicate HoldsGpu(who: Who, pc: Pc) {
    if who.Request? then pc == WantLife || pc == Checking || pc.Loading? || pc == Rechecking || pc == Inference
    else pc.Dropping?
  }

  predicate HoldsLife(pc: Pc) {
    pc == Checking || pc.Loading? || pc == Rechecking || pc.Dropping? || pc == Leaving
  }

  /** A lock is held by exactly the thread whose program counter is inside it. */
  predicate LocksMatch(s: State) {
    && (forall w :: w in s.pcs ==> (HoldsGpu(w, s.pcs[w]) <==> s.gpu == Some(w)))
    && (forall w :: w in s.pcs ==> (HoldsLife(s.pcs[w]) <==> s.life == Some(w)))
    && (s.gpu.Some? ==> s.gpu.value in s.pcs)
    && (s.life.Some? ==> s.life.value in s.pcs)
  }

  /** The places each kind of thread can be in. */
  predicate InRole(who: Who, pc: Pc) {
    match who
    case Loader => pc == WantLife || pc.Loading? || pc == Leaving || pc == Done
    case Watchdog =>
      pc == Asleep || pc == WantLife || pc == Checking || pc.Loading? || pc.Dropping? || pc == Leaving || pc == Done
    case Request(_) => !pc.Dropping? && pc != Asleep && pc != Leaving
  }

  predicate InRoles(s: State) {
    && Loader in s.pcs && (Watchdog in s.pcs ==> s.idleAfter > 0)
    && forall w :: w in s.pcs ==> InRole(w, s.pcs[w])
  }

  /** What a program counter says about the models. */
  predicate Consistent(m: Model, pc: Pc) {
    match pc
    case Loading(phase) =>
      && m.status != Loaded
      && (phase != Fetching ==> m.embedding)
      && (phase == Heard || phase == Piped ==> m.audio)
      && (m.pipeline <==> phase == Piped)
    case Dropping(phase) =>
      && m.status == Loaded
      && (m.pipeline <==> phase == Holding)
      && (m.embedding <==> phase == Holding || phase == Unpiped)
      && (m.audio <==> phase != Unheard)
    case Inference => m.status == Loaded
    case _ => true
  }

  predicate AllConsistent(s: State) {
    forall w :: w in s.pcs ==> Consistent(s.model, s.pcs[w])
  }

  predicate Busy(s: State) {
    exists w :: w in s.pcs && (s.pcs[w].Loading? || s.pcs[w].Dropping?)
  }

  /** An unload raised after it had begun to clear the models. */
  predicate Broken(s: State) {
    s.aborted.Some? && s.aborted.value != Holding
  }

  /** With no load or unload under way, the status says whether the models are there, unless an
      unload raised half way. */
  predicate Settled(s: State) {
    && (s.model.pipeline ==> s.model.embedding && s.model.audio)
    && (!Busy(s) ==> (s.model.pipeline <==> s.model.status == Loaded && !Broken(s)))
  }

  /** After an unload that raised: its thread is dead, the status still says loaded, and the
      models are as it left them. */
  predicate AsAborted(s: State) {
    s.aborted.Some? ==>
      && At(s, Watchdog, Done) && s.model.status == Loaded
      && (s.model.pipeline <==> s.aborted.value == Holding)
      && (s.model.embedding <==> s.aborted.value == Holding || s.aborted.value == Unpiped)
      && (s.model.audio <==> s.aborted.value != Unheard)
  }

  /** Only the startup loader ever leaves the starting status. */
  predicate Started(s: State) {
    && Loader in s.pcs
    && (s.model.status == Starting <==> s.pcs[Loader] == WantLife || s.pcs[Loader].Loading?)
    && (s.model.status == Starting ==> forall w :: w in s.pcs && w != Loader ==> !s.pcs[w].Loading? && !w.Request?)
  }

  predicate Invariant(s: State) {
    LocksMatch(s) && InRoles(s) && AllConsistent(s) && Settled(s) && Started(s) && AsAborted(s) && Books(s.model)
  }

  function Initial(now: int, idleAfter: int): State {
    State(now, idleAfter, Fresh(now), None, None,
          if idleAfter > 0 then map[Loader := WantLife, Watchdog := Asleep] else map[Loader := WantLife], None)
  }

  lemma InitialInvariant(now: int, idleAfter: int)
    ensures Invariant(Initial(now, idleAfter))
  {
    assert !GaveUp([]);
  }

  /** One thread moves, taking or releasing only locks that are free or its own. */
  lemma MoveKeepsLocks(s: State, n: State, w: Who, pc: Pc)
    requires LocksMatch(s) && n.pcs == s.pcs[w := pc]
    requires n.gpu == s.gpu || ((s.gpu == None || s.gpu == Some(w)) && (n.gpu == None || n.gpu == Some(w)))
    requires n.life == s.life || ((s.life == None || s.life == Some(w)) && (n.life == None || n.life == Some(w)))
    requires HoldsGpu(w, pc) <==> n.gpu == Some(w)
    requires HoldsLife(pc) <==> n.life == Some(w)
    ensures LocksMatch(n)
  {
    hide HoldsGpu, HoldsLife;
  }

  /** The thread a step is about. */
  function Mover(e: Step): Option<Who> {
    match e
    case Tick(_) => None
    case Arrive(id) => Some(Request(id))
    case Wake => Some(Watchdog)
    case DropPipeline => Some(Watchdog)
    case DropEmbedding => Some(Watchdog)
    case DropAudio => Some(Watchdog)
    case FinishDrop => Some(Watchdog)
    case FailDrop => Some(Watchdog)
    case _ => Some(e.who)
  }

  lemma StepLocks(s: State, e: Step)
    requires LocksMatch(s) && InRoles(s) && Enabled(s, e)
    ensures LocksMatch(Apply(s, e))
  {
    hide DueForRequest, DueForWatchdog, IdleLongEnough, Attempted;
    if Mover(e).Some? {
      var w := Mover(e).value;
      var n := Apply(s, e);
      assert w in s.pcs ==> InRole(w, s.pcs[w]);
      MoveKeepsLocks(s, n, w, n.pcs[w]);
    }
  }

  lemma StepRoles(s: State, e: Step)
    requires InRoles(s) && Enabled(s, e)
    ensures InRoles(Apply(s, e))
  {
    hide DueForRequest, DueForWatchdog, IdleLongEnough, Attempted;
    if Mover(e).Some? {
      var w := Mover(e).value;
      var n := Apply(s, e);
      assert w in s.pcs ==> InRole(w, s.pcs[w]);
      assert InRole(w, n.pcs[w]);
      assert n.pcs == s.pcs[w := n.pcs[w]];
    }
  }

  /** Whoever is inside the lifecycle lock is there alone. */
  lemma AloneInside(s: State, w: Who)
    requires LocksMatch(s) && (s.life == Some(w) || s.life == None)
    ensures forall v :: v in s.pcs && v != w ==> !s.pcs[v].Loading? && !s.pcs[v].Dropping?
    ensures w in s.pcs && !s.pcs[w].Loading? && !s.pcs[w].Dropping? ==> !Busy(s)
  {
    forall v | v in s.pcs && v != w ensures !HoldsLife(s.pcs[v]) {
    }
  }

  predicate LoadStep(e: Step) {
    e.SetEmbedding? || e.SetAudio? || e.SetPipeline? || e.FinishLoad? || e.FailLoad?
  }

  predicate DropStep(e: Step) {
    e.DropPipeline? || e.DropEmbedding? || e.DropAudio? || e.FinishDrop? || e.FailDrop?
  }

  lemma LoadStepConsistent(s: State, e: Step)
    requires Invariant(s) && Enabled(s, e) && LoadStep(e)
    ensures AllConsistent(Apply(s, e))
  {
    hide Books, Settled, Started, InRoles;
    var n := Apply(s, e);
    assert HoldsLife(s.pcs[e.who]);
    AloneInside(s, e.who);
    assert Consistent(s.model, s.pcs[e.who]);
    forall v | v in n.pcs ensures Consistent(n.model, n.pcs[v]) {
      assert v in s.pcs && Consistent(s.model, s.pcs[v]);
    }
  }

  lemma DropStepConsistent(s: State, e: Step)
    requires Invariant(s) && Enabled(s, e) && DropStep(e)
    ensures AllConsistent(Apply(s, e))
  {
    hide Books, Settled, Started;
    var n := Apply(s, e);
    assert HoldsLife(s.pcs[Watchdog]) && HoldsGpu(Watchdog, s.pcs[Watchdog]);
    AloneInside(s, Watchdog);
    assert Consistent(s.model, s.pcs[Watchdog]);
    forall v | v in n.pcs ensures Consistent(n.model, n.pcs[v]) {
      assert Consistent(s.model, s.pcs[v]);
      assert v != Watchdog ==> !HoldsGpu(v, s.pcs[v]) && InRole(v, s.pcs[v]);
    }
  }

  /** A step that leaves the models alone. */
  lemma OtherStepConsistent(s: State, e: Step)
    requires Invariant(s) && Enabled(s, e) && !LoadStep(e) && !DropStep(e)
    ensures AllConsistent(Apply(s, e))
  {
    hide Books, DueForWatchdog, DueForRequest, IdleLongEnough, LocksMatch, Settled, Started, InRoles;
    var n := Apply(s, e);
    assert n.model == s.model.(lastUsed := n.model.lastUsed);
    if e.TakeLife? || e.Check? {
      EntryConsistent(s, e);
    }
    forall v | v in n.pcs ensures Consistent(n.model, n.pcs[v]) {
      if v in s.pcs && s.pcs[v] == n.pcs[v] {
        assert Consistent(s.model, s.pcs[v]);
      }
    }
  }

  lemma EntryConsistent(s: State, e: Step)
    requires Invariant(s) && Enabled(s, e) && (e.TakeLife? || e.Check?)
    ensures Consistent(Apply(s, e).model, Apply(s, e).pcs[e.who])
  {
    hide Books, Busy, AllConsistent;
    assert !Busy(s) by {
      assert e.Check? ==> HoldsLife(s.pcs[e.who]);
      AloneInside(s, e.who);
    }
  }

  lemma StepConsistent(s: State, e: Step)
    requires Invariant(s) && Enabled(s, e)
    ensures AllConsistent(Apply(s, e))
  {
    hide Books, LocksMatch, AllConsistent, Settled, Started, InRoles, Apply;
    if LoadStep(e) {
      LoadStepConsistent(s, e);
    } else if DropStep(e) {
      DropStepConsistent(s, e);
    } else {
      OtherStepConsistent(s, e);
    }
  }

  /** While a load or unload has steps to go, the models are not settled, and need not be. */
  lemma TransitionSettled(s: State, e: Step)
    requires Invariant(s) && Enabled(s, e) && (LoadStep(e) || DropStep(e))
    ensures Settled(Apply(s, e))
  {
    hide Books, Started, InRoles, LocksMatch;
    var w, n := Mover(e).value, Apply(s, e);
    assert Consistent(s.model, s.pcs[w]);
    if n.pcs[w].Loading? || n.pcs[w].Dropping? {
      assert Busy(n);
    }
  }

  lemma OtherStepSettled(s: State, e: Step)
    requires Invariant(s) && Enabled(s, e) && !LoadStep(e) && !DropStep(e)
    ensures Settled(Apply(s, e))
  {
    hide Books, Started, InRoles, AllConsistent, LocksMatch, DueForRequest, DueForWatchdog, IdleLongEnough, AsAborted;
    var n := Apply(s, e);
    assert n.aborted == s.aborted;
    assert n.model == s.model.(lastUsed := n.model.lastUsed);
    if Busy(s) {
      var v :| v in s.pcs && (s.pcs[v].Loading? || s.pcs[v].Dropping?);
      assert n.pcs[v] == s.pcs[v];
      assert Busy(n);
    }
  }

  lemma TransitionAborted(s: State, e: Step)
    requires Invariant(s) && Enabled(s, e) && (LoadStep(e) || DropStep(e))
    ensures AsAborted(Apply(s, e))
  {
    hide Books, Settled, Started, LocksMatch, Busy, InRoles, Attempted;
    assert Consistent(s.model, s.pcs[Mover(e).value]);
  }

  lemma OtherStepAborted(s: State, e: Step)
    requires Invariant(s) && Enabled(s, e) && !LoadStep(e) && !DropStep(e)
    ensures AsAborted(Apply(s, e))
  {
    hide Books, Settled, Started, LocksMatch, Busy, AllConsistent, DueForRequest, DueForWatchdog, IdleLongEnough;
    var n := Apply(s, e);
    assert n.aborted == s.aborted;
    assert n.model == s.model.(lastUsed := n.model.lastUsed);
    assert At(s, Watchdog, Done) ==> At(n, Watchdog, Done);
  }

  lemma TransitionStarted(s: State, e: Step)
    requires Invariant(s) && Enabled(s, e) && (LoadStep(e) || DropStep(e))
    ensures Started(Apply(s, e))
  {
    hide Books, Settled, Busy, LocksMatch, InRoles;
    assert Consistent(s.model, s.pcs[Mover(e).value]);
  }

  lemma OtherStepStarted(s: State, e: Step)
    requires Invariant(s) && Enabled(s, e) && !LoadStep(e) && !DropStep(e)
    ensures Started(Apply(s, e))
  {
    hide Books, Settled, Busy, LocksMatch, AllConsistent;
    assert InRole(Loader, s.pcs[Loader]);
    assert Apply(s, e).model.status == s.model.status;
  }

  lemma StepBooks(s: State, e: Step)
    requires Invariant(s) && Enabled(s, e)
    ensures Books(Apply(s, e).model)
  {
    hide GaveUp, Trailing, LocksMatch, Settled, Started, InRoles, Attempted, Recorded;
    match e
    case FinishLoad(_) => AttemptKeepsBooks(s.model, true, s.now);
    case FailLoad(_) => AttemptKeepsBooks(s.model, false, s.now);
    case FinishDrop => assert Consistent(s.model, s.pcs[Watchdog]);
    case _ =>
  }

  lemma StepKeepsInvariant(s: State, e: Step)
    requires Invariant(s) && Enabled(s, e)
    ensures Invariant(Apply(s, e))
  {
    hide LocksMatch, InRoles, AllConsistent, Settled, Started, AsAborted, Books, Apply;
    StepLocks(s, e);
    StepRoles(s, e);
    StepConsistent(s, e);
    StepBooks(s, e);
    if LoadStep(e) || DropStep(e) {
      TransitionAborted(s, e);
      TransitionSettled(s, e);
      TransitionStarted(s, e);
    } else {
      OtherStepAborted(s, e);
      OtherStepSettled(s, e);
      OtherStepStarted(s, e);
    }
  }

  // ----- every run

  ghost predicate Reaches(steps: seq<Step>, s: State)
    decreases |steps|
  {
    if steps == [] then s == Initial(s.now, s.idleAfter)
    else
      var n := |steps| - 1;
      exists before :: Reaches(steps[..n], before) && Enabled(before, steps[n]) && s == Apply(before, steps[n])
  }

  lemma {:induction false} RunsKeepInvariant(steps: seq<Step>, s: State)
    requires Reaches(steps, s)
    ensures Invariant(s)
  {
    if steps == [] {
      InitialInvariant(s.now, s.idleAfter);
    } else {
      var n := |steps| - 1;
      var before :| Reaches(steps[..n], before) && Enabled(before, steps[n]) && s == Apply(before, steps[n]);
      RunsKeepInvariant(steps[..n], before);
      StepKeepsInvariant(before, steps[n]);
    }
  }

  /** In every interleaving, a thread at inference holds the GPU lock and is the only one there,
      nobody is loading or unloading, and it has all the models exactly when no unload has raised
      half way; after one that has, it has no pipeline. */
  lemma InferenceHasModels(steps: seq<Step>, s: State, w: Who)
    requires Reaches(steps, s) && w in s.pcs && s.pcs[w] == Inference
    ensures s.model.status == Loaded && s.gpu == Some(w)
    ensures AllPresent(s.model) <==> !Broken(s)
    ensures Broken(s) ==> !s.model.pipeline
    ensures forall v :: v in s.pcs && v != w ==> s.pcs[v] != Inference && !s.pcs[v].Dropping? && !s.pcs[v].Loading?
  {
    hide Books, Started, Reaches, Broken;
    RunsKeepInvariant(steps, s);
    assert Consistent(s.model, s.pcs[w]) && InRole(w, s.pcs[w]);
    forall v | v in s.pcs && v != w ensures s.pcs[v] != Inference && !s.pcs[v].Dropping? && !s.pcs[v].Loading? {
      assert Consistent(s.model, s.pcs[v]) && InRole(v, s.pcs[v]);
      assert !HoldsGpu(v, s.pcs[v]);
    }
    assert !Busy(s);
  }

  /** Nothing mends that: whatever happens next, the status stays loaded, so no load is ever tried
      again, and the models stay as they are. */
  lemma BrokenStays(steps: seq<Step>, s: State, e: Step)
    requires Reaches(steps, s) && Broken(s) && Enabled(s, e)
    ensures var n := Apply(s, e); Broken(n) && n.model == s.model.(lastUsed := n.model.lastUsed)
    ensures s.model.status == Loaded && !s.model.pipeline
  {
    hide Books, Settled, Started, LocksMatch, Reaches, Attempted;
    RunsKeepInvariant(steps, s);
    if LoadStep(e) || DropStep(e) {
      assert Consistent(s.model, s.pcs[Mover(e).value]);
    }
  }

  /** Failed is the status exactly after a load attempt that failed; so the idle status, on which
      health answers success, never follows a failed reload. */
  lemma FailedExactlyAfterFailure(steps: seq<Step>, s: State)
    requires Reaches(steps, s)
    ensures s.model.status == Failed <==> s.model.attempts != [] && !s.model.attempts[|s.model.attempts| - 1]
    ensures s.model.status == Unloaded ==> s.model.attempts != [] && s.model.attempts[|s.model.attempts| - 1]
  {
    RunsKeepInvariant(steps, s);
  }

  datatype Health = IdleUnloaded | Healthy | Unready

  /** The health endpoint takes no lock: it reads the status, and later, if that is not idle, the
      pipeline. */
  function HealthOf(status: Status, pipeline: bool): Health {
    if status == Unloaded then IdleUnloaded else if pipeline then Healthy else Unready
  }

  /** t is reached from s by more steps. */
  ghost predicate Leads(s: State, more: seq<Step>, t: State)
    decreases |more|
  {
    if more == [] then t == s
    else
      var n := |more| - 1;
      exists before :: Leads(s, more[..n], before) && Enabled(before, more[n]) && t == Apply(before, more[n])
  }

  lemma {:induction false} LeadsReaches(steps: seq<Step>, s: State, more: seq<Step>, t: State)
    requires Reaches(steps, s) && Leads(s, more, t)
    ensures Reaches(steps + more, t)
  {
    if more == [] {
      assert steps + more == steps;
    } else {
      var n := |more| - 1;
      var before :| Leads(s, more[..n], before) && Enabled(before, more[n]) && t == Apply(before, more[n]);
      LeadsReaches(steps, s, more[..n], before);
      Extend(steps + more[..n], before, more[n]);
      assert steps + more[..n] + [more[n]] == steps + more;
    }
  }

  /** Whatever happens between the two reads: healthy is only said with every model in place when
      the pipeline is read; idle only after a successful load; a worker that is failed at both
      reads, with no load under way at the second, is unready; and one that is loaded at both is
      healthy exactly when no unload has raised half way. */
  lemma HealthIsHonest(steps: seq<Step>, s: State, more: seq<Step>, t: State)
    requires Reaches(steps, s) && Leads(s, more, t)
    ensures var answer := HealthOf(s.model.status, t.model.pipeline);
      && (answer == Healthy ==> AllPresent(t.model))
      && (answer == IdleUnloaded ==> s.model.attempts != [] && s.model.attempts[|s.model.attempts| - 1])
      && (s.model.status == Failed && t.model.status == Failed && !Busy(t) ==> answer == Unready)
      && (s.model.status == Loaded && t.model.status == Loaded && !Busy(t) ==> (answer == Healthy <==> !Broken(t)))
  {
    hide Reaches, Leads, LocksMatch, InRoles, AllConsistent, Started, AsAborted, GaveUp, Trailing, Busy, Broken;
    LeadsReaches(steps, s, more, t);
    RunsKeepInvariant(steps, s);
    RunsKeepInvariant(steps + more, t);
  }

  /** The process has been told to die exactly if five attempts in a row failed after one had
      succeeded: never for a cold start that has not worked yet. */
  lemma DiesExactlyAfterFive(steps: seq<Step>, s: State)
    requires Reaches(steps, s)
    ensures s.model.dying <==> GaveUp(s.model.attempts)
    ensures s.model.failures >= RELOAD_RETRY_LIMIT ==> s.model.dying
    ensures true !in s.model.attempts ==> !s.model.dying && s.model.failures == 0
  {
    RunsKeepInvariant(steps, s);
    if s.model.failures >= RELOAD_RETRY_LIMIT {
      var all := s.model.attempts;
      assert all[..|all|] == all;
      assert GaveUpAt(all, |all|);
    }
  }

  // ----- no deadlock

  /** The step a thread takes next from a place where it waits for nothing but a lock. */
  function NextMove(w: Who, pc: Pc): Option<Step> {
    match pc
    case Asleep => None
    case WantGpu => Some(TakeGpu(w))
    case WantLife => Some(TakeLife(w))
    case Checking => Some(Check(w))
    case Loading(phase) =>
      Some(match phase
           case Fetching => SetEmbedding(w)
           case Embedded => SetAudio(w)
           case Heard => SetPipeline(w)
           case Piped => FinishLoad(w))
    case Rechecking => Some(Recheck(w))
    case Inference => Some(FinishInference(w, true))
    case Stamping => Some(Stamp(w))
    case Dropping(phase) =>
      Some(match phase
           case Holding => DropPipeline
           case Unpiped => DropEmbedding
           case Unembedded => DropAudio
           case Unheard => FinishDrop)
    case Leaving => Some(Leave(w))
    case Done => None
  }

  predicate CanMove(s: State, w: Who) {
    w in s.pcs && NextMove(w, s.pcs[w]).Some? && Enabled(s, NextMove(w, s.pcs[w]).value)
  }

  /** The holder of the lifecycle lock is never blocked, and the holder of the GPU lock waits
      at most for the lifecycle lock: the wait chain has length two and no cycle. */
  lemma HoldersMove(steps: seq<Step>, s: State)
    requires Reaches(steps, s)
    ensures s.life.Some? ==> CanMove(s, s.life.value)
    ensures s.gpu.Some? ==> CanMove(s, s.gpu.value) || (s.life.Some? && s.life != s.gpu && CanMove(s, s.life.value))
  {
    hide Books, Settled, Started, AllConsistent, Reaches;
    RunsKeepInvariant(steps, s);
    if s.life.Some? {
      assert InRole(s.life.value, s.pcs[s.life.value]) && HoldsLife(s.pcs[s.life.value]);
    }
    if s.gpu.Some? {
      assert InRole(s.gpu.value, s.pcs[s.gpu.value]) && HoldsGpu(s.gpu.value, s.pcs[s.gpu.value]);
    }
  }

  /** No interleaving deadlocks: while any thread is under way, some thread can move. */
  lemma NoDeadlock(steps: seq<Step>, s: State, w: Who)
    requires Reaches(steps, s) && w in s.pcs && s.pcs[w] != Asleep && s.pcs[w] != Done
    ensures exists v :: CanMove(s, v)
  {
    hide Reaches;
    RunsKeepInvariant(steps, s);
    HoldersMove(steps, s);
    assert InRole(w, s.pcs[w]);
    if !CanMove(s, w) {
      if s.pcs[w] == WantGpu {
        assert s.gpu.Some?;
      } else {
        assert s.life.Some?;
      }
    }
  }

  /** Steps a thread still has to take before it sleeps or is done, at most. */
  function Left(pc: Pc): nat {
    match pc
    case Asleep => 0
    case WantGpu => 11
    case WantLife => 10
    case Checking => 9
    case Loading(phase) =>
      match phase { case Fetching => 8 case Embedded => 7 case Heard => 6 case Piped => 5 }
    case Dropping(phase) =>
      match phase { case Holding => 8 case Unpiped => 7 case Unembedded => 6 case Unheard => 5 }
    case Rechecking => 4
    case Inference => 3
    case Stamping => 2
    case Leaving => 1
    case Done => 0
  }

  /** Nor does it livelock: a step brings its thread closer to the end of its visit, and leaves
      every other thread where it is. Only new requests and the watchdog's clock add work. */
  lemma StepsUseUpWork(s: State, e: Step)
    requires Enabled(s, e) && !e.Tick? && !e.Arrive? && !e.Wake?
    requires InRoles(s)
    ensures var w := Mover(e).value; w in s.pcs && Left(Apply(s, e).pcs[w]) < Left(s.pcs[w])
    ensures forall v :: v in s.pcs && Some(v) != Mover(e) ==> Apply(s, e).pcs[v] == s.pcs[v]
  {
    hide Attempted, DueForRequest, DueForWatchdog, IdleLongEnough;
    assert InRole(Mover(e).value, s.pcs[Mover(e).value]);
  }

  // ----- the idle clock

  /** Unloading begins only when the idle clock was last reset idleAfter seconds ago or earlier,
      and no request is between taking the GPU lock and releasing it. */
  lemma UnloadOnlyWhenIdle(steps: seq<Step>, s: State, w: Who)
    requires Reaches(steps, s) && Enabled(s, Check(w)) && Apply(s, Check(w)).pcs[w].Dropping?
    ensures w == Watchdog && s.now - s.model.lastUsed >= s.idleAfter
    ensures forall v :: v in s.pcs && v.Request? ==> !HoldsGpu(v, s.pcs[v])
    ensures AllPresent(s.model)
  {
    hide Books, Started, Reaches;
    RunsKeepInvariant(steps, s);
    assert InRole(w, s.pcs[w]);
    AloneInside(s, w);
  }

  /** From here the watchdog can begin to unload, in no time, before w has set the clock. */
  ghost predicate CanUnloadFirst(s: State, w: Who) {
    exists more, n :: Leads(s, more, n) && n.now == s.now && At(n, w, Stamping) && DroppingNow(n)
  }

  predicate DroppingNow(s: State) {
    Watchdog in s.pcs && s.pcs[Watchdog].Dropping?
  }

  lemma {:induction false} TimeGoesOn(s: State, more: seq<Step>, n: State)
    requires Leads(s, more, n)
    ensures n.now >= s.now
  {
    if more != [] {
      var k := |more| - 1;
      var before :| Leads(s, more[..k], before) && Enabled(before, more[k]) && n == Apply(before, more[k]);
      TimeGoesOn(s, more[..k], before);
    }
  }

  /** At one moment the clock can only be set to that moment, which never makes it run out. */
  ghost predicate SameMoment(s: State, n: State) {
    && n.idleAfter == s.idleAfter
    && (n.model.lastUsed == s.model.lastUsed || n.model.lastUsed == s.now)
    && (DroppingNow(n) ==> s.now - s.model.lastUsed >= s.idleAfter)
  }

  lemma SameMomentStep(s: State, before: State, e: Step)
    requires SameMoment(s, before) && before.now == s.now && s.idleAfter > 0 && Enabled(before, e)
    requires InRoles(before)
    ensures SameMoment(s, Apply(before, e))
  {
    hide DueForRequest, DueForWatchdog;
    if Mover(e).Some? && Mover(e).value in before.pcs {
      assert InRole(Mover(e).value, before.pcs[Mover(e).value]);
    }
  }

  lemma {:induction false} StillSameMoment(steps: seq<Step>, s: State, more: seq<Step>, n: State)
    requires Reaches(steps, s) && Leads(s, more, n) && n.now == s.now && s.idleAfter > 0 && !DroppingNow(s)
    ensures SameMoment(s, n)
  {
    hide Reaches, Invariant, Apply;
    if more != [] {
      var k := |more| - 1;
      var before :| Leads(s, more[..k], before) && Enabled(before, more[k]) && n == Apply(before, more[k]);
      TimeGoesOn(s, more[..k], before);
      LastStepTime(before, more[k]);
      StillSameMoment(steps, s, more[..k], before);
      LeadsReaches(steps, s, more[..k], before);
      RunsKeepInvariant(steps + more[..k], before);
      RolesOf(before);
      SameMomentStep(s, before, more[k]);
    }
  }

  lemma LastStepTime(s: State, e: Step)
    requires Enabled(s, e)
    ensures Apply(s, e).now >= s.now
  {
  }

  lemma RolesOf(s: State)
    requires Invariant(s)
    ensures InRoles(s)
  {
  }

  /** The clock is meant to start after the work, but it is set only once the GPU lock has been
      released: the watchdog can get in between and begin to unload exactly when the inference has
      lasted the idle time. */
  lemma UnloadFirstExactlyWhen(steps: seq<Step>, s: State, w: Who)
    requires Reaches(steps, s) && At(s, w, Inference) && At(s, Watchdog, Asleep) && s.life == None
    ensures CanUnloadFirst(s, w) <==> s.now - s.model.lastUsed >= s.idleAfter
  {
    hide Reaches, Books, Settled, Started, LocksMatch, AllConsistent, AsAborted;
    RunsKeepInvariant(steps, s);
    if CanUnloadFirst(s, w) {
      var more, n :| Leads(s, more, n) && n.now == s.now && At(n, w, Stamping) && DroppingNow(n);
      StillSameMoment(steps, s, more, n);
    }
    if s.now - s.model.lastUsed >= s.idleAfter {
      InferenceHasModels(steps, s, w);
      LongWorkIsUnloaded(s, w);
    }
  }

  lemma WorkEnds(s: State, w: Who) returns (more: seq<Step>)
    requires At(s, w, Inference) && At(s, Watchdog, Asleep) && w.Request? && s.gpu == Some(w)
    ensures Leads(s, more, s.(gpu := None, pcs := s.pcs[w := Stamping][Watchdog := WantLife]))
  {
    hide Leads;
    var s1 := s.(gpu := None, pcs := s.pcs[w := Stamping]);
    assert Apply(s, FinishInference(w, true)) == s1;
    LeadsNowhere(s);
    Lead(s, [], s, FinishInference(w, true));
    Lead(s, [] + [FinishInference(w, true)], s1, Wake);
    more := [] + [FinishInference(w, true)] + [Wake];
  }

  lemma LongWorkIsUnloaded(s: State, w: Who)
    requires At(s, w, Inference) && At(s, Watchdog, Asleep) && w.Request? && s.life == None && s.gpu == Some(w)
    requires s.model.status == Loaded && s.now - s.model.lastUsed >= s.idleAfter
    ensures CanUnloadFirst(s, w)
  {
    hide Leads;
    var more := WorkEnds(s, w);
    var s2 := s.(gpu := None, pcs := s.pcs[w := Stamping][Watchdog := WantLife]);
    var s3 := s2.(pcs := s2.pcs[Watchdog := Checking], life := Some(Watchdog));
    Lead(s, more, s2, TakeLife(Watchdog));
    var s4 := s3.(pcs := s3.pcs[Watchdog := Dropping(Holding)], gpu := Some(Watchdog));
    assert Apply(s3, Check(Watchdog)) == s4;
    Lead(s, more + [TakeLife(Watchdog)], s3, Check(Watchdog));
    assert At(s4, w, Stamping) && DroppingNow(s4) && s4.now == s.now;
  }

  lemma LeadsNowhere(s: State)
    ensures Leads(s, [], s)
  {
  }

  lemma Lead(s: State, more: seq<Step>, t: State, e: Step)
    requires Leads(s, more, t) && Enabled(t, e)
    ensures Leads(s, more + [e], Apply(t, e))
  {
    assert (more + [e])[..|more|] == more;
  }

  lemma Extend(steps: seq<Step>, s: State, e: Step)
    requires Reaches(steps, s) && Enabled(s, e)
    ensures Reaches(steps + [e], Apply(s, e))
  {
    assert (steps + [e])[..|steps|] == steps;
  }

  // ----- two runs

  function Ready(lastUsed: int): Model {
    Model(Loaded, true, true, true, true, 0, 0, lastUsed, false, [true])
  }

  /** Started at time 0, everything loaded, nobody there. */
  function Served(idleAfter: int): State {
    State(0, idleAfter, Ready(0), None, None, map[Loader := Done, Watchdog := Asleep], None)
  }

  function LoaderAt(idleAfter: int, pc: Pc, m: Model): State {
    State(0, idleAfter, m, None, Some(Loader), map[Loader := pc, Watchdog := Asleep], None)
  }

  lemma LoaderWorks(idleAfter: int) returns (steps: seq<Step>)
    requires idleAfter > 0
    ensures Reaches(steps, Served(idleAfter))
  {
    hide Reaches;
    var m := Fresh(0);
    var s0 := Initial(0, idleAfter);
    StartsRun(s0);
    assert Apply(s0, TakeLife(Loader)) == LoaderAt(idleAfter, Loading(Fetching), m);
    Extend([], s0, TakeLife(Loader));
    var m1 := m.(embedding := true);
    assert Apply(LoaderAt(idleAfter, Loading(Fetching), m), SetEmbedding(Loader))
        == LoaderAt(idleAfter, Loading(Embedded), m1);
    Extend([] + [TakeLife(Loader)], LoaderAt(idleAfter, Loading(Fetching), m), SetEmbedding(Loader));
    steps := LoaderEnds(idleAfter, [] + [TakeLife(Loader)] + [SetEmbedding(Loader)]);
  }

  lemma StartsRun(s: State)
    requires s == Initial(s.now, s.idleAfter)
    ensures Reaches([], s)
  {
  }

  lemma LoaderPublishes(idleAfter: int, before: seq<Step>) returns (steps: seq<Step>)
    requires Reaches(before, LoaderAt(idleAfter, Loading(Embedded), Fresh(0).(embedding := true)))
    ensures Reaches(steps,
                    LoaderAt(idleAfter, Loading(Piped), Fresh(0).(embedding := true, audio := true, pipeline := true)))
  {
    hide Reaches;
    var s1 := LoaderAt(idleAfter, Loading(Embedded), Fresh(0).(embedding := true));
    var s2 := LoaderAt(idleAfter, Loading(Heard), Fresh(0).(embedding := true, audio := true));
    assert Apply(s1, SetAudio(Loader)) == s2;
    Extend(before, s1, SetAudio(Loader));
    assert Apply(s2, SetPipeline(Loader)) ==
      LoaderAt(idleAfter, Loading(Piped), Fresh(0).(embedding := true, audio := true, pipeline := true));
    Extend(before + [SetAudio(Loader)], s2, SetPipeline(Loader));
    steps := before + [SetAudio(Loader)] + [SetPipeline(Loader)];
  }

  lemma LoaderEnds(idleAfter: int, before: seq<Step>) returns (steps: seq<Step>)
    requires Reaches(before, LoaderAt(idleAfter, Loading(Embedded), Fresh(0).(embedding := true)))
    ensures Reaches(steps, Served(idleAfter))
  {
    hide Reaches;
    steps := LoaderPublishes(idleAfter, before);
    var s1 := LoaderAt(idleAfter, Loading(Piped), Fresh(0).(embedding := true, audio := true, pipeline := true));
    assert [] + [true] == [true];
    assert Apply(s1, FinishLoad(Loader)) == LoaderAt(idleAfter, Leaving, Ready(0));
    Extend(steps, s1, FinishLoad(Loader));
    steps := steps + [FinishLoad(Loader)];
    assert Apply(LoaderAt(idleAfter, Leaving, Ready(0)), Leave(Loader)) == Served(idleAfter);
    Extend(steps, LoaderAt(idleAfter, Leaving, Ready(0)), Leave(Loader));
    steps := steps + [Leave(Loader)];
  }

  lemma RequestTakesLocks(before: seq<Step>, s: State, id: Id) returns (steps: seq<Step>)
    requires Reaches(before, s) && Request(id) !in s.pcs && s.gpu == None && s.life == None && s.model.status == Loaded
    ensures var r := Request(id);
      Reaches(steps, s.(pcs := s.pcs[r := Checking], gpu := Some(r), life := Some(r)))
  {
    hide Reaches;
    var r := Request(id);
    var s1 := s.(pcs := s.pcs[r := WantGpu]);
    assert Apply(s, Arrive(id)) == s1;
    Extend(before, s, Arrive(id));
    var s2 := s.(pcs := s.pcs[r := WantLife], gpu := Some(r));
    assert s1.pcs[r := WantLife] == s.pcs[r := WantLife];
    assert Apply(s1, TakeGpu(r)) == s2;
    Extend(before + [Arrive(id)], s1, TakeGpu(r));
    assert s2.pcs[r := Checking] == s.pcs[r := Checking];
    Extend(before + [Arrive(id)] + [TakeGpu(r)], s2, TakeLife(r));
    steps := before + [Arrive(id)] + [TakeGpu(r)] + [TakeLife(r)];
  }

  /** With both locks free and the status loaded, a request gets as far as inference. */
  lemma RequestGetsIn(before: seq<Step>, s: State, id: Id) returns (steps: seq<Step>, n: State)
    requires Reaches(before, s) && Request(id) !in s.pcs && s.gpu == None && s.life == None && s.model.status == Loaded
    ensures Reaches(steps, n) && At(n, Request(id), Inference)
    ensures n == s.(pcs := s.pcs[Request(id) := Inference], gpu := Some(Request(id)), model := n.model)
    ensures n.model == s.model.(lastUsed := s.now)
  {
    hide Reaches;
    var r := Request(id);
    steps := RequestTakesLocks(before, s, id);
    var s3 := s.(pcs := s.pcs[r := Checking], gpu := Some(r), life := Some(r));
    var s4 := s3.(pcs := s3.pcs[r := Rechecking]);
    assert Apply(s3, Check(r)) == s4;
    Extend(steps, s3, Check(r));
    n := Apply(s4, Recheck(r));
    Extend(steps + [Check(r)], s4, Recheck(r));
    steps := steps + [Check(r)] + [Recheck(r)];
    assert n.pcs == s.pcs[r := Inference];
  }

  /** Such an inference happens: a request that works for as long as the idle time. */
  lemma LongWorkHappens(idleAfter: int) returns (steps: seq<Step>, s: State, w: Who)
    requires idleAfter > 0
    ensures Reaches(steps, s) && s.idleAfter == idleAfter && CanUnloadFirst(s, w)
    ensures At(s, w, Inference) && At(s, Watchdog, Asleep) && s.life == None
  {
    hide Reaches, CanUnloadFirst;
    var before := LoaderWorks(idleAfter);
    var t;
    steps, t := RequestGetsIn(before, Served(idleAfter), 0);
    Extend(steps, t, Tick(idleAfter));
    steps, s, w := steps + [Tick(idleAfter)], Apply(t, Tick(idleAfter)), Request(0);
    UnloadFirstExactlyWhen(steps, s, w);
  }

  /** A request at inference without a pipeline: the watchdog unloads, clearing the memory cache
      raises once the models are gone, and the next request takes the status at its word. */
  lemma AbortedUnloadBreaks(idleAfter: int) returns (steps: seq<Step>, s: State)
    requires idleAfter > 0
    ensures Reaches(steps, s) && At(s, Request(0), Inference) && Broken(s)
    ensures !s.model.pipeline && !s.model.embedding && !s.model.audio
  {
    hide Reaches;
    var before := LoaderWorks(idleAfter);
    var idle;
    before, idle := UnloadBegins(before, idleAfter);
    var broken;
    before, broken := UnloadRaises(before, idle);
    steps, s := RequestGetsIn(before, broken, 0);
  }

  lemma UnloadBegins(before: seq<Step>, idleAfter: int) returns (steps: seq<Step>, s: State)
    requires idleAfter > 0 && Reaches(before, Served(idleAfter))
    ensures Reaches(steps, s) && s.pcs == map[Loader := Done, Watchdog := Dropping(Holding)]
    ensures s.gpu == Some(Watchdog) && s.life == Some(Watchdog) && s.model == Ready(0) && s.aborted == None
  {
    hide Reaches;
    var s0 := Served(idleAfter);
    var s1 := s0.(now := idleAfter);
    assert Apply(s0, Tick(idleAfter)) == s1;
    Extend(before, s0, Tick(idleAfter));
    var s2 := s1.(pcs := map[Loader := Done, Watchdog := WantLife]);
    assert Apply(s1, Wake) == s2;
    Extend(before + [Tick(idleAfter)], s1, Wake);
    var s3 := s2.(pcs := map[Loader := Done, Watchdog := Checking], life := Some(Watchdog));
    assert Apply(s2, TakeLife(Watchdog)) == s3;
    Extend(before + [Tick(idleAfter)] + [Wake], s2, TakeLife(Watchdog));
    steps := before + [Tick(idleAfter)] + [Wake] + [TakeLife(Watchdog)];
    s := Apply(s3, Check(Watchdog));
    Extend(steps, s3, Check(Watchdog));
    steps := steps + [Check(Watchdog)];
    assert s.pcs == map[Loader := Done, Watchdog := Dropping(Holding)];
  }

  lemma UnloadRaises(before: seq<Step>, s: State) returns (steps: seq<Step>, n: State)
    requires Reaches(before, s) && s.pcs == map[Loader := Done, Watchdog := Dropping(Holding)]
    requires s.gpu == Some(Watchdog) && s.life == Some(Watchdog) && s.model == Ready(0) && s.aborted == None
    ensures Reaches(steps, n) && Request(0) !in n.pcs && n.gpu == None && n.life == None && n.model.status == Loaded
    ensures Broken(n) && n.model == Ready(0).(pipeline := false, embedding := false, audio := false)
  {
    hide Reaches;
    var s2;
    steps, s2 := UnloadClears(before, s);
    var s3 := s2.(pcs := map[Loader := Done, Watchdog := Dropping(Unheard)], model := s2.model.(audio := false));
    assert Apply(s2, DropAudio) == s3;
    Extend(steps, s2, DropAudio);
    steps := steps + [DropAudio];
    n := Apply(s3, FailDrop);
    Extend(steps, s3, FailDrop);
    steps := steps + [FailDrop];
  }

  lemma UnloadClears(before: seq<Step>, s: State) returns (steps: seq<Step>, n: State)
    requires Reaches(before, s) && s.pcs == map[Loader := Done, Watchdog := Dropping(Holding)]
    ensures n == s.(pcs := map[Loader := Done, Watchdog := Dropping(Unembedded)],
                    model := s.model.(pipeline := false, embedding := false))
    ensures Reaches(steps, n)
  {
    hide Reaches;
    var s1 := s.(pcs := map[Loader := Done, Watchdog := Dropping(Unpiped)], model := s.model.(pipeline := false));
    assert Apply(s, DropPipeline) == s1;
    Extend(before, s, DropPipeline);
    n := s.(pcs := map[Loader := Done, Watchdog := Dropping(Unembedded)],
            model := s.model.(pipeline := false, embedding := false));
    assert Apply(s1, DropEmbedding) == n;
    Extend(before + [DropPipeline], s1, DropEmbedding);
    steps := before + [DropPipeline] + [DropEmbedding];
  }
}
