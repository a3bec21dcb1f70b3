/** The runner as the daemon runs it: a registry object, the live handles, and a pump. */
module TaskRunners {
  import opened Foundation
  import opened Supervisor
  import opened RegistryModel
  import opened RegistryRuns
  import opened Registry
  import opened TaskRunnerModel

  class TaskRunner {
    const registry: TaskRegistry
    var handles: map<TaskId, Handle>
    var sent: seq<Message>

    ghost predicate Valid()
      reads this, registry
    {
      registry.Valid()
    }

    ghost function State(): RunnerState
      reads this, registry, registry.sched
    {
      RunnerState(registry.State(), handles, sent)
    }

    constructor ()
      ensures Valid() && fresh(registry) && fresh(registry.sched) && State() == RunnerFresh()
    {
      registry := new TaskRegistry(MAX_CONCURRENT, INSTANCE);
      handles := map[];
      sent := [];
    }

    /** Admits and spawns a worker, or refuses at the cap. */
    method Launch(chat: ChatId, budget: Budget, now: u64) returns (r: Result<TaskId, AdmitError>)
      requires Valid()
      modifies this, registry, registry.sched
      ensures Valid() && State() == RunnerStep(old(State()), TaskRunnerModel.Launch(chat, budget, now)).0
      ensures r == if old(registry.sched.running) < registry.sched.maxConcurrent then Ok(old(registry.nextId))
                   else Err(ConcurrencyCap)
    {
      hide Step, Run;
      ghost var start := registry.State();
      ghost var admit, mark := Admit(chat, budget, now), Event.MarkRunning(start.nextId, now);
      OneStep(start, admit);
      TwoSteps(start, admit, mark);
      assert [admit] + [] == [admit] && [admit] + [mark] == [admit, mark];
      r := registry.Admit(chat, budget, now);
      if r.Err? {
        return;
      }
      registry.MarkRunning(r.value, now);
      handles := handles[r.value := Handle(chat, false)];
    }

    method Cancel(id: TaskId, chat: ChatId) returns (acted: bool)
      requires Valid()
      modifies registry
      ensures Valid() && State() == RunnerStep(old(State()), CancelTask(id, chat)).0
      ensures acted <==> ActiveFor(old(registry.State()), id, chat)
    {
      hide Step;
      OneStep(registry.State(), Event.Cancel(id, chat));
      acted := registry.RequestCancel(id, chat);
    }

    method Kill(id: TaskId, chat: ChatId) returns (acted: bool)
      requires Valid()
      modifies registry
      ensures Valid() && State() == RunnerStep(old(State()), KillTask(id, chat)).0
      ensures acted <==> ActiveFor(old(registry.State()), id, chat)
    {
      hide Step;
      OneStep(registry.State(), Event.Kill(id, chat));
      acted := registry.RequestKill(id, chat);
    }

    /** One supervision step: feed every worker's progress to the registry and forward its lines,
        tick the registry, and perform the actions it names against the live handles. */
    method Pump(now: u64, seen: map<TaskId, Seen>) returns (actions: seq<Action>)
      requires Valid()
      modifies this, registry, registry.sched
      ensures Valid() && (State(), actions) == RunnerStep(old(State()), TaskRunnerModel.Pump(now, seen))
    {
      hide Step, Run, PerformAll, Perform, ForwardAll, Notices;
      ghost var start := registry.State();
      ghost var ids := Ascending(handles.Keys);
      FeedEvery(now, seen);
      actions := registry.Tick(now);
      PumpCalls(start, ids, seen, now);
      PerformEvery(actions);
    }

    method FeedEvery(now: u64, seen: map<TaskId, Seen>)
      requires Valid()
      modifies this`sent, registry
      ensures Valid() && registry.State() == Run(old(registry.State()), FeedAll(Ascending(handles.Keys), seen, now)).0
      ensures sent == old(sent) + ForwardAll(handles, Ascending(handles.Keys), seen)
    {
      hide Step, Feed, Ascending, Forwards;
      ghost var start := registry.State();
      var ids := Ascending(handles.Keys);
      for i := 0 to |ids|
        invariant Valid() && registry.State() == Run(start, FeedAll(ids[..i], seen, now)).0
        invariant sent == old(sent) + ForwardAll(handles, ids[..i], seen)
      {
        TakeSnoc(ids, i);
        FoldAppend(Step, start, FeedAll(ids[..i], seen, now), Feed(ids[i], SeenOf(seen, ids[i]), now));
        assert ids[i] in ids;
        Assoc(old(sent), ForwardAll(handles, ids[..i], seen), ForwardsOf(handles, seen, ids[i]));
        FeedOne(ids[i], handles[ids[i]].chat, SeenOf(seen, ids[i]), now);
      }
      assert ids[..|ids|] == ids;
    }

    /** Each streamed line is progress and is forwarded to the worker's chat; then the worker has
        finished or is still held. */
    method FeedOne(id: TaskId, chat: ChatId, s: Seen, now: u64)
      requires Valid()
      modifies this`sent, registry
      ensures Valid() && registry.State() == Run(old(registry.State()), Feed(id, s, now)).0
      ensures sent == old(sent) + Forwards(chat, id, s.lines)
    {
      hide Step;
      ghost var start := registry.State();
      ghost var calls := LineCalls(id, s.lines, now);
      for i := 0 to |s.lines|
        invariant Valid() && registry.State() == Run(start, calls[..i]).0
        invariant sent == old(sent) + Forwards(chat, id, s.lines[..i])
      {
        TakeSnoc(calls, i);
        FoldSnoc(Step, start, calls[..i], calls[i]);
        var line := s.lines[i];
        registry.ObserveProgress(id, |line|, now);
        sent := sent + [Forwarded(chat, id, line)];
      }
      assert calls[..|calls|] == calls && s.lines[..|s.lines|] == s.lines;
      FoldSnoc(Step, start, calls, if s.finished then Finished(id) else Event.Heartbeat(id, now));
      if s.finished {
        registry.ObserveFinished(id);
      } else {
        registry.Heartbeat(id, now);
      }
    }

    method PerformEvery(actions: seq<Action>)
      modifies this
      ensures handles == PerformAll(old(handles), actions)
      ensures sent == old(sent) + Notices(actions)
    {
      for k := 0 to |actions|
        invariant handles == PerformAll(old(handles), actions[..k])
        invariant sent == old(sent) + Notices(actions[..k])
      {
        TakeSnoc(actions, k);
        match actions[k] {
          case SendLine(chat, id, done) => sent := sent + [Notice(chat, id, done)];
          case RequestCancel(id) =>
            if id in handles {
              handles := handles[id := handles[id].(cancelled := true)];
            }
          case HardKill(id) => handles := handles - {id};
          case Finalize(id, _) => handles := handles - {id};
        }
      }
      assert actions[..|actions|] == actions;
    }
  }

  lemma {:induction false} QuietIsSilent(st: RegState, evs: seq<Event>)
    requires Quiet(evs)
    ensures Run(st, evs).1 == []
  {
    if evs != [] {
      var front, e := evs[..|evs| - 1], evs[|evs| - 1];
      assert e in evs;
      QuietIsSilent(st, front);
      FoldSnoc(Step, st, front, e);
      assert evs == front + [e];
      StepForOne(Run(st, front).0, e.id, e);
    }
  }

  /** The calls of a pump: a silent run of feeds, then one tick. */
  lemma PumpCalls(st: RegState, ids: seq<TaskId>, seen: map<TaskId, Seen>, now: u64)
    ensures var feed := FeedAll(ids, seen, now); Run(st, feed + [Tick(now)]) == Step(Run(st, feed).0, Tick(now))
  {
    hide Step, FeedAll;
    var feed := FeedAll(ids, seen, now);
    FeedsAreQuiet(ids, seen, now);
    QuietIsSilent(st, feed);
    FoldSnoc(Step, st, feed, Tick(now));
    var said := Step(Run(st, feed).0, Tick(now)).1;
    assert [] + said == said;
  }
}
