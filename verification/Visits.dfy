/** One visit of each thread of the sidecar, on its own, from any state with both locks free
    (sidecars/diar_pyannote/app.py:115-225, 352-419): where it gets to and what it leaves behind. */
module Visits {
  import opened Wrappers
  import opened ModelLifecycle

  /** Nobody holds a lock. */
  predicate Quiet(s: State) {
    s.gpu == None && s.life == None
  }

  // ----- the test under the lifecycle lock

  /** A request reloads exactly when the models are unloaded or failed and the backoff has passed;
      otherwise it goes on to look at the status. Nothing but its place changes. */
  lemma RequestChecks(s: State, id: Id)
    requires At(s, Request(id), Checking)
    ensures var t := Apply(s, Check(Request(id)));
      && t == s.(pcs := t.pcs) && t.pcs == s.pcs[Request(id) := t.pcs[Request(id)]]
      && (t.pcs[Request(id)] == Loading(Fetching) <==>
            (s.model.status == Unloaded || s.model.status == Failed) && s.now >= s.model.retryAfter)
      && (t.pcs[Request(id)] != Loading(Fetching) ==> t.pcs[Request(id)] == Rechecking)
  {
  }

  /** The watchdog retries a failed load once the backoff has passed, if one ever succeeded; else it
      begins to unload exactly when the models are loaded, the idle time has passed and the GPU is
      free; else it leaves. */
  lemma WatchdogChecks(s: State)
    requires At(s, Watchdog, Checking)
    ensures var t := Apply(s, Check(Watchdog));
      && t == s.(pcs := t.pcs, gpu := t.gpu) && t.pcs == s.pcs[Watchdog := t.pcs[Watchdog]]
      && (t.pcs[Watchdog] == Loading(Fetching) <==>
            s.model.status == Failed && s.model.everLoaded && s.now >= s.model.retryAfter)
      && (t.pcs[Watchdog] == Dropping(Holding) <==>
            s.model.status == Loaded && s.now - s.model.lastUsed >= s.idleAfter && s.gpu == None)
      && (t.pcs[Watchdog] == Loading(Fetching) || t.pcs[Watchdog] == Dropping(Holding)
          || t.pcs[Watchdog] == Leaving)
      && t.gpu == if t.pcs[Watchdog] == Dropping(Holding) then Some(Watchdog) else s.gpu
  {
  }

  /** In every run, a request at the test finds its way by that rule. */
  lemma IdleWorkerReloads(steps: seq<Step>, s: State, id: Id)
    requires Reaches(steps, s) && At(s, Request(id), Checking)
    requires s.model.status == Unloaded || s.model.status == Failed
    requires s.now >= s.model.retryAfter
    ensures exists t :: Reaches(steps + [Check(Request(id))], t) && At(t, Request(id), Loading(Fetching))
  {
    hide Reaches;
    RequestChecks(s, id);
    Extend(steps, s, Check(Request(id)));
  }

  // ----- going in

  /** Arriving and taking both locks. */
  lemma Enter(s: State, id: Id) returns (steps: seq<Step>)
    requires Quiet(s) && Request(id) !in s.pcs && s.model.status != Starting
    ensures Leads(s, steps, s.(gpu := Some(Request(id)), life := Some(Request(id)),
                               pcs := s.pcs[Request(id) := Checking]))
  {
    hide Leads;
    var w := Request(id);
    var s1 := s.(pcs := s.pcs[w := WantGpu]);
    var s2 := s.(gpu := Some(w), pcs := s.pcs[w := WantLife]);
    var s3 := s.(gpu := Some(w), life := Some(w), pcs := s.pcs[w := Checking]);
    LeadsNowhere(s);
    assert Apply(s, Arrive(id)) == s1;
    Lead(s, [], s, Arrive(id));
    assert s1.pcs[w := WantLife] == s2.pcs;
    Lead(s, [] + [Arrive(id)], s1, TakeGpu(w));
    assert s2.pcs[w := Checking] == s3.pcs;
    Lead(s, [] + [Arrive(id)] + [TakeGpu(w)], s2, TakeLife(w));
    steps := [] + [Arrive(id)] + [TakeGpu(w)] + [TakeLife(w)];
  }

  /** The models after a load that succeeds. */
  predicate FreshlyLoaded(m: Model, n: Model, now: int) {
    && n.status == Loaded && n.pipeline && n.embedding && n.audio && n.everLoaded
    && n.failures == 0 && n.retryAfter == 0 && n.lastUsed == now && n.dying == m.dying
    && n.attempts == m.attempts + [true]
  }

  /** And after one that fails before it has published anything. */
  predicate FreshlyFailed(m: Model, n: Model, now: int) {
    && n.status == Failed && n.pipeline == m.pipeline && n.embedding == m.embedding && n.audio == m.audio
    && n.everLoaded == m.everLoaded && n.lastUsed == m.lastUsed && n.retryAfter == now + 30
    && n.failures == m.failures + (if m.everLoaded then 1 else 0)
    && (n.dying <==> m.dying || (m.everLoaded && m.failures + 1 >= 5))
    && n.attempts == m.attempts + [false]
  }

  lemma LoadHalf(s: State, more: seq<Step>, u: State, w: Who) returns (steps: seq<Step>)
    requires Leads(s, more, u) && At(u, w, Loading(Fetching))
    ensures Leads(s, steps, u.(model := u.model.(embedding := true, audio := true), pcs := u.pcs[w := Loading(Heard)]))
  {
    hide Leads;
    var u1 := u.(model := u.model.(embedding := true), pcs := u.pcs[w := Loading(Embedded)]);
    assert Apply(u, SetEmbedding(w)) == u1;
    Lead(s, more, u, SetEmbedding(w));
    assert u1.pcs[w := Loading(Heard)] == u.pcs[w := Loading(Heard)];
    Lead(s, more + [SetEmbedding(w)], u1, SetAudio(w));
    steps := more + [SetEmbedding(w)] + [SetAudio(w)];
  }

  lemma LoadRest(s: State, more: seq<Step>, u: State, w: Who) returns (steps: seq<Step>, n: Model)
    requires Leads(s, more, u) && At(u, w, Loading(Heard)) && u.model.embedding && u.model.audio
    ensures FreshlyLoaded(u.model, n, u.now)
    ensures Leads(s, steps, u.(model := n, pcs := u.pcs[w := if w.Request? then Rechecking else Leaving]))
  {
    hide Leads;
    var u1 := u.(model := u.model.(pipeline := true), pcs := u.pcs[w := Loading(Piped)]);
    assert Apply(u, SetPipeline(w)) == u1;
    Lead(s, more, u, SetPipeline(w));
    var last := Apply(u1, FinishLoad(w));
    n := last.model;
    assert last.pcs == u.pcs[w := if w.Request? then Rechecking else Leaving];
    Lead(s, more + [SetPipeline(w)], u1, FinishLoad(w));
    steps := more + [SetPipeline(w)] + [FinishLoad(w)];
  }

  /** A whole load by the thread at its beginning. */
  lemma LoadThrough(s: State, more: seq<Step>, u: State, w: Who) returns (steps: seq<Step>, n: Model)
    requires Leads(s, more, u) && At(u, w, Loading(Fetching))
    ensures FreshlyLoaded(u.model, n, u.now)
    ensures Leads(s, steps, u.(model := n, pcs := u.pcs[w := if w.Request? then Rechecking else Leaving]))
  {
    hide Leads;
    var v := u.(model := u.model.(embedding := true, audio := true), pcs := u.pcs[w := Loading(Heard)]);
    steps := LoadHalf(s, more, u, w);
    steps, n := LoadRest(s, steps, v, w);
    var next := if w.Request? then Rechecking else Leaving;
    assert v.pcs[w := next] == u.pcs[w := next];
  }

  lemma LoadFails(s: State, more: seq<Step>, u: State, w: Who) returns (steps: seq<Step>, n: Model)
    requires Leads(s, more, u) && At(u, w, Loading(Fetching))
    ensures FreshlyFailed(u.model, n, u.now)
    ensures Leads(s, steps, u.(model := n, pcs := u.pcs[w := if w.Request? then Rechecking else Leaving]))
  {
    hide Leads;
    n := Apply(u, FailLoad(w)).model;
    Lead(s, more, u, FailLoad(w));
    steps := more + [FailLoad(w)];
  }

  // ----- a request's visit

  /** The state of a request at work, the lifecycle lock released and the clock set. */
  function Working(s: State, id: Id, m: Model): State {
    s.(gpu := Some(Request(id)), pcs := s.pcs[Request(id) := Inference], model := m.(lastUsed := s.now))
  }

  lemma RecheckIn(s: State, more: seq<Step>, u: State, id: Id) returns (steps: seq<Step>)
    requires Leads(s, more, u) && At(u, Request(id), Rechecking) && u.model.status == Loaded
    ensures Leads(s, steps, u.(life := None, pcs := u.pcs[Request(id) := Inference],
                               model := u.model.(lastUsed := u.now)))
  {
    hide Leads;
    Lead(s, more, u, Recheck(Request(id)));
    steps := more + [Recheck(Request(id))];
  }

  lemma RecheckOut(s: State, more: seq<Step>, u: State, id: Id) returns (steps: seq<Step>)
    requires Leads(s, more, u) && At(u, Request(id), Rechecking) && u.model.status != Loaded
    ensures Leads(s, steps, u.(life := None, gpu := None, pcs := u.pcs[Request(id) := Done]))
  {
    hide Leads;
    Lead(s, more, u, Recheck(Request(id)));
    steps := more + [Recheck(Request(id))];
  }

  /** With the models loaded it gets to work, and only the clock has moved. */
  lemma LoadedServes(s: State, id: Id) returns (steps: seq<Step>)
    requires Quiet(s) && Request(id) !in s.pcs && s.model.status == Loaded
    ensures Leads(s, steps, Working(s, id, s.model))
  {
    hide Leads;
    var w := Request(id);
    var before := Enter(s, id);
    var u := s.(gpu := Some(w), life := Some(w), pcs := s.pcs[w := Checking]);
    var v := u.(pcs := u.pcs[w := Rechecking]);
    assert Apply(u, Check(w)) == v;
    Lead(s, before, u, Check(w));
    steps := RecheckIn(s, before + [Check(w)], v, id);
    assert v.pcs[w := Inference] == s.pcs[w := Inference];
    assert v.(life := None, pcs := v.pcs[w := Inference], model := v.model.(lastUsed := v.now))
        == Working(s, id, s.model);
  }

  /** An unloaded or failed worker that is due reloads for it, and it gets to work with every model. */
  lemma ReloadServes(s: State, id: Id) returns (steps: seq<Step>, n: Model)
    requires Quiet(s) && Request(id) !in s.pcs
    requires (s.model.status == Unloaded || s.model.status == Failed) && s.now >= s.model.retryAfter
    ensures FreshlyLoaded(s.model, n, s.now) && Leads(s, steps, Working(s, id, n))
  {
    hide Leads;
    var w := Request(id);
    var before := Enter(s, id);
    var u := s.(gpu := Some(w), life := Some(w), pcs := s.pcs[w := Checking]);
    RequestChecks(u, id);
    var v := u.(pcs := u.pcs[w := Loading(Fetching)]);
    Lead(s, before, u, Check(w));
    steps, n := LoadThrough(s, before + [Check(w)], v, w);
    var x := v.(model := n, pcs := v.pcs[w := Rechecking]);
    steps := RecheckIn(s, steps, x, id);
    assert x.pcs[w := Inference] == s.pcs[w := Inference];
    assert x.(life := None, pcs := x.pcs[w := Inference], model := x.model.(lastUsed := x.now)) == Working(s, id, n);
  }

  /** When that load fails it is turned away, with both locks free and the backoff set. */
  lemma FailedReloadTurnsAway(s: State, id: Id) returns (steps: seq<Step>, n: Model)
    requires Quiet(s) && Request(id) !in s.pcs
    requires (s.model.status == Unloaded || s.model.status == Failed) && s.now >= s.model.retryAfter
    ensures FreshlyFailed(s.model, n, s.now)
    ensures Leads(s, steps, s.(model := n, pcs := s.pcs[Request(id) := Done]))
  {
    hide Leads;
    var w := Request(id);
    var before := Enter(s, id);
    var u := s.(gpu := Some(w), life := Some(w), pcs := s.pcs[w := Checking]);
    RequestChecks(u, id);
    var v := u.(pcs := u.pcs[w := Loading(Fetching)]);
    Lead(s, before, u, Check(w));
    steps, n := LoadFails(s, before + [Check(w)], v, w);
    var x := v.(model := n, pcs := v.pcs[w := Rechecking]);
    steps := RecheckOut(s, steps, x, id);
    assert x.pcs[w := Done] == s.pcs[w := Done];
    assert x.(life := None, gpu := None, pcs := x.pcs[w := Done]) == s.(model := n, pcs := s.pcs[w := Done]);
  }

  /** Within the backoff it is turned away at once, and nothing else changes. */
  lemma BackoffTurnsAway(s: State, id: Id) returns (steps: seq<Step>)
    requires Quiet(s) && Request(id) !in s.pcs
    requires (s.model.status == Unloaded || s.model.status == Failed) && s.now < s.model.retryAfter
    ensures Leads(s, steps, s.(pcs := s.pcs[Request(id) := Done]))
  {
    hide Leads;
    var w := Request(id);
    var before := Enter(s, id);
    var u := s.(gpu := Some(w), life := Some(w), pcs := s.pcs[w := Checking]);
    RequestChecks(u, id);
    var v := u.(pcs := u.pcs[w := Rechecking]);
    Lead(s, before, u, Check(w));
    steps := RecheckOut(s, before + [Check(w)], v, id);
    assert v.pcs[w := Done] == s.pcs[w := Done];
    assert v.(life := None, gpu := None, pcs := v.pcs[w := Done]) == s.(pcs := s.pcs[w := Done]);
  }

  /** From work a request goes home with the GPU released and the clock set. */
  lemma WorkEndsQuietly(s: State, id: Id) returns (steps: seq<Step>)
    requires At(s, Request(id), Inference)
    ensures Leads(s, steps, s.(gpu := None, pcs := s.pcs[Request(id) := Done], model := s.model.(lastUsed := s.now)))
  {
    hide Leads;
    var w := Request(id);
    var u := s.(gpu := None, pcs := s.pcs[w := Stamping]);
    LeadsNowhere(s);
    assert Apply(s, FinishInference(w, true)) == u;
    Lead(s, [], s, FinishInference(w, true));
    assert u.pcs[w := Done] == s.pcs[w := Done];
    Lead(s, [] + [FinishInference(w, true)], u, Stamp(w));
    steps := [] + [FinishInference(w, true)] + [Stamp(w)];
  }

  // ----- a tick of the watchdog

  lemma WakeUp(s: State) returns (steps: seq<Step>)
    requires Quiet(s) && At(s, Watchdog, Asleep)
    ensures Leads(s, steps, s.(life := Some(Watchdog), pcs := s.pcs[Watchdog := Checking]))
  {
    hide Leads;
    var u := s.(pcs := s.pcs[Watchdog := WantLife]);
    LeadsNowhere(s);
    assert Apply(s, Wake) == u;
    Lead(s, [], s, Wake);
    assert u.pcs[Watchdog := Checking] == s.pcs[Watchdog := Checking];
    Lead(s, [] + [Wake], u, TakeLife(Watchdog));
    steps := [] + [Wake] + [TakeLife(Watchdog)];
  }

  lemma GoBack(s: State, more: seq<Step>, u: State) returns (steps: seq<Step>)
    requires Leads(s, more, u) && At(u, Watchdog, Leaving)
    ensures Leads(s, steps, u.(life := None, pcs := u.pcs[Watchdog := Asleep]))
  {
    hide Leads;
    Lead(s, more, u, Leave(Watchdog));
    steps := more + [Leave(Watchdog)];
  }

  /** Idle long enough, the models are unloaded, all three, and nothing else changes. */
  lemma IdleIsUnloaded(s: State) returns (steps: seq<Step>)
    requires Quiet(s) && At(s, Watchdog, Asleep)
    requires s.model.status == Loaded && s.now - s.model.lastUsed >= s.idleAfter
    ensures Leads(s, steps, s.(model := s.model.(status := Unloaded, pipeline := false, embedding := false,
                                                 audio := false)))
  {
    hide Leads;
    var before := WakeUp(s);
    var u := s.(life := Some(Watchdog), pcs := s.pcs[Watchdog := Checking]);
    WatchdogChecks(u);
    var v := u.(gpu := Some(Watchdog), pcs := u.pcs[Watchdog := Dropping(Holding)]);
    Lead(s, before, u, Check(Watchdog));
    var x;
    before, x := DropAll(s, before + [Check(Watchdog)], v);
    steps := GoBack(s, before, x);
    assert x.pcs[Watchdog := Asleep] == s.pcs;
  }

  lemma DropTwo(s: State, more: seq<Step>, v: State) returns (steps: seq<Step>)
    requires Leads(s, more, v) && At(v, Watchdog, Dropping(Holding))
    ensures Leads(s, steps, v.(pcs := v.pcs[Watchdog := Dropping(Unembedded)],
                               model := v.model.(pipeline := false, embedding := false)))
  {
    hide Leads;
    var m1 := v.model.(pipeline := false);
    var v1 := v.(model := m1, pcs := v.pcs[Watchdog := Dropping(Unpiped)]);
    assert Apply(v, DropPipeline) == v1;
    Lead(s, more, v, DropPipeline);
    assert v1.pcs[Watchdog := Dropping(Unembedded)] == v.pcs[Watchdog := Dropping(Unembedded)];
    Lead(s, more + [DropPipeline], v1, DropEmbedding);
    steps := more + [DropPipeline] + [DropEmbedding];
  }

  lemma DropRest(s: State, more: seq<Step>, v: State) returns (steps: seq<Step>)
    requires Leads(s, more, v) && At(v, Watchdog, Dropping(Unembedded))
    ensures Leads(s, steps, v.(gpu := None, pcs := v.pcs[Watchdog := Leaving],
                               model := v.model.(status := Unloaded, audio := false)))
  {
    hide Leads;
    var m1 := v.model.(audio := false);
    var v1 := v.(model := m1, pcs := v.pcs[Watchdog := Dropping(Unheard)]);
    assert Apply(v, DropAudio) == v1;
    Lead(s, more, v, DropAudio);
    assert v1.pcs[Watchdog := Leaving] == v.pcs[Watchdog := Leaving];
    Lead(s, more + [DropAudio], v1, FinishDrop);
    steps := more + [DropAudio] + [FinishDrop];
  }

  lemma DropAll(s: State, more: seq<Step>, v: State) returns (steps: seq<Step>, x: State)
    requires Leads(s, more, v) && At(v, Watchdog, Dropping(Holding))
    ensures x == v.(gpu := None, pcs := v.pcs[Watchdog := Leaving],
                    model := v.model.(status := Unloaded, pipeline := false, embedding := false, audio := false))
    ensures Leads(s, steps, x)
  {
    hide Leads;
    x := v.(gpu := None, pcs := v.pcs[Watchdog := Leaving],
            model := v.model.(status := Unloaded, pipeline := false, embedding := false, audio := false));
    var u := v.(pcs := v.pcs[Watchdog := Dropping(Unembedded)],
                model := v.model.(pipeline := false, embedding := false));
    steps := DropTwo(s, more, v);
    steps := DropRest(s, steps, u);
    assert u.pcs[Watchdog := Leaving] == v.pcs[Watchdog := Leaving];
  }

  /** A failed reload is tried again once the backoff has passed. */
  lemma WatchdogReloads(s: State) returns (steps: seq<Step>, n: Model)
    requires Quiet(s) && At(s, Watchdog, Asleep)
    requires s.model.status == Failed && s.model.everLoaded && s.now >= s.model.retryAfter
    ensures FreshlyLoaded(s.model, n, s.now) && Leads(s, steps, s.(model := n))
  {
    hide Leads;
    var before := WakeUp(s);
    var u := s.(life := Some(Watchdog), pcs := s.pcs[Watchdog := Checking]);
    WatchdogChecks(u);
    var v := u.(pcs := u.pcs[Watchdog := Loading(Fetching)]);
    Lead(s, before, u, Check(Watchdog));
    before, n := LoadThrough(s, before + [Check(Watchdog)], v, Watchdog);
    var x := v.(model := n, pcs := v.pcs[Watchdog := Leaving]);
    steps := GoBack(s, before, x);
    assert x.pcs[Watchdog := Asleep] == s.pcs;
  }

  /** In every other case a tick changes nothing. */
  lemma WatchdogLeavesAlone(s: State) returns (steps: seq<Step>)
    requires Quiet(s) && At(s, Watchdog, Asleep)
    requires !(s.model.status == Failed && s.model.everLoaded && s.now >= s.model.retryAfter)
    requires !(s.model.status == Loaded && s.now - s.model.lastUsed >= s.idleAfter)
    ensures Leads(s, steps, s)
  {
    hide Leads;
    var before := WakeUp(s);
    var u := s.(life := Some(Watchdog), pcs := s.pcs[Watchdog := Checking]);
    WatchdogChecks(u);
    var v := u.(pcs := u.pcs[Watchdog := Leaving]);
    Lead(s, before, u, Check(Watchdog));
    steps := GoBack(s, before + [Check(Watchdog)], v);
    assert v.pcs[Watchdog := Asleep] == s.pcs;
  }

  // ----- the start

  /** The startup loader, on its own: every model in place and both locks free. */
  lemma StartupServes(now: int, idleAfter: int) returns (steps: seq<Step>, t: State)
    ensures Reaches(steps, t) && t.now == now && t.idleAfter == idleAfter && Quiet(t)
    ensures t.model.status == Loaded && t.model.pipeline && t.model.embedding && t.model.audio
    ensures Loader in t.pcs && t.pcs[Loader] == Done
  {
    hide Leads;
    var s := Initial(now, idleAfter);
    LeadsNowhere(s);
    var u := s.(life := Some(Loader), pcs := s.pcs[Loader := Loading(Fetching)]);
    Lead(s, [], s, TakeLife(Loader));
    var more, n := LoadThrough(s, [] + [TakeLife(Loader)], u, Loader);
    var x := u.(model := n, pcs := u.pcs[Loader := Leaving]);
    Lead(s, more, x, Leave(Loader));
    t := Apply(x, Leave(Loader));
    assert Reaches([], s);
    LeadsReaches([], s, more + [Leave(Loader)], t);
    steps := [] + (more + [Leave(Loader)]);
  }
}
