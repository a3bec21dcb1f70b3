/** The loop that couples the registry to live workers, as a state machine over its four
    calls. What a worker streams and whether it has finished are arbitrary inputs. */
module TaskRunnerModel {
  import opened Foundation
  import opened Supervisor
  import opened RegistryModel
  import opened RegistryRuns
  import opened RegistryConservation

  const MAX_CONCURRENT: nat := 4
  const INSTANCE: u64 := 1

  datatype Handle = Handle(chat: ChatId, cancelled: bool)

  /** The bytes of one line of a worker's output. */
  type Line = l: seq<byte> | |l| <= U64_MAX

  /** What one poll of a worker shows: the lines it streamed, and its done flag. */
  datatype Seen = Seen(lines: seq<Line>, finished: bool)

  /** A message to a chat: a worker's line, or the registry's word that a task has ended. */
  datatype Message =
    | Forwarded(chat: ChatId, id: TaskId, line: Line)
    | Notice(chat: ChatId, id: TaskId, done: TaskDone)

  datatype RunnerState = RunnerState(reg: RegState, handles: map<TaskId, Handle>, sent: seq<Message>)

  datatype RunnerEvent =
    | Launch(chat: ChatId, budget: Budget, now: u64)
    | CancelTask(id: TaskId, chat: ChatId)
    | KillTask(id: TaskId, chat: ChatId)
    | Pump(now: u64, seen: map<TaskId, Seen>)

  function SeenOf(seen: map<TaskId, Seen>, id: TaskId): Seen {
    if id in seen then seen[id] else Seen([], false)
  }

  function LineCalls(id: TaskId, lines: seq<Line>, now: u64): seq<Event> {
    seq(|lines|, i requires 0 <= i < |lines| => Progress(id, |lines[i]|, now))
  }

  /** The registry calls a pump makes for one worker. */
  function Feed(id: TaskId, s: Seen, now: u64): seq<Event> {
    LineCalls(id, s.lines, now) + [if s.finished then Finished(id) else Heartbeat(id, now)]
  }

  function FeedAll(ids: seq<TaskId>, seen: map<TaskId, Seen>, now: u64): seq<Event> {
    if ids == [] then [] else
    FeedAll(ids[..|ids| - 1], seen, now) + Feed(ids[|ids| - 1], SeenOf(seen, ids[|ids| - 1]), now)
  }

  /** The registry calls one runner call makes. */
  function Calls(rs: RunnerState, e: RunnerEvent): seq<Event> {
    match e
    case Launch(chat, budget, now) =>
      [Admit(chat, budget, now)] + if rs.reg.running < rs.reg.cap then [MarkRunning(rs.reg.nextId, now)] else []
    case CancelTask(id, chat) => [Cancel(id, chat)]
    case KillTask(id, chat) => [Kill(id, chat)]
    case Pump(now, seen) => FeedAll(Ascending(rs.handles.Keys), seen, now) + [Tick(now)]
  }

  /** Performing one action against the live handles. */
  function Perform(handles: map<TaskId, Handle>, a: Action): map<TaskId, Handle> {
    match a
    case SendLine(_, _, _) => handles
    case RequestCancel(id) => if id in handles then handles[id := handles[id].(cancelled := true)] else handles
    case HardKill(id) => handles - {id}
    case Finalize(id, _) => handles - {id}
  }

  function PerformAll(handles: map<TaskId, Handle>, actions: seq<Action>): map<TaskId, Handle> {
    if actions == [] then handles else
    Perform(PerformAll(handles, actions[..|actions| - 1]), actions[|actions| - 1])
  }

  /** The messages a pump sends for one worker's lines. */
  function Forwards(chat: ChatId, id: TaskId, lines: seq<Line>): seq<Message> {
    seq(|lines|, i requires 0 <= i < |lines| => Forwarded(chat, id, lines[i]))
  }

  function ForwardsOf(handles: map<TaskId, Handle>, seen: map<TaskId, Seen>, id: TaskId): seq<Message> {
    if id in handles then Forwards(handles[id].chat, id, SeenOf(seen, id).lines) else []
  }

  function ForwardAll(handles: map<TaskId, Handle>, ids: seq<TaskId>, seen: map<TaskId, Seen>): seq<Message> {
    if ids == [] then [] else
    ForwardAll(handles, ids[..|ids| - 1], seen) + ForwardsOf(handles, seen, ids[|ids| - 1])
  }

  function Notices(actions: seq<Action>): seq<Message> {
    if actions == [] then [] else
    var a := actions[|actions| - 1];
    Notices(actions[..|actions| - 1]) + (if a.SendLine? then [Notice(a.chat, a.id, a.done)] else [])
  }

  function RunnerStep(rs: RunnerState, e: RunnerEvent): (RunnerState, seq<Action>) {
    var (reg, actions) := Run(rs.reg, Calls(rs, e));
    match e
    case Launch(chat, _, _) =>
      var spawned := if rs.reg.running < rs.reg.cap then map[rs.reg.nextId := Handle(chat, false)] else map[];
      (rs.(reg := reg, handles := rs.handles + spawned), actions)
    case Pump(_, seen) =>
      var lines := ForwardAll(rs.handles, Ascending(rs.handles.Keys), seen);
      (RunnerState(reg, PerformAll(rs.handles, actions), rs.sent + lines + Notices(actions)), actions)
    case _ => (rs.(reg := reg), actions)
  }

  function RunnerFresh(): RunnerState {
    RunnerState(Fresh(MAX_CONCURRENT, INSTANCE), map[], [])
  }

  function RunnerRun(evs: seq<RunnerEvent>): (RunnerState, seq<Action>) {
    Fold(RunnerStep, RunnerFresh(), evs)
  }

  /** Every registry call made by a run of the runner, in order. */
  function Flat(evs: seq<RunnerEvent>): seq<Event> {
    if evs == [] then [] else
    var front := evs[..|evs| - 1];
    Flat(front) + Calls(RunnerRun(front).0, evs[|evs| - 1])
  }

  ghost function RegistryOf(evs: seq<RunnerEvent>): History {
    Hist(MAX_CONCURRENT, INSTANCE, Flat(evs))
  }

  lemma RunnerStepCalls(rs: RunnerState, e: RunnerEvent)
    ensures var (n, actions) := RunnerStep(rs, e); (n.reg, actions) == Run(rs.reg, Calls(rs, e))
  {
    hide Run, Calls, PerformAll, ForwardAll, Notices;
  }

  /** A run of the runner is a run of the registry: the same registry, the same actions. */
  lemma {:induction false} RunnerIsRegistryRun(evs: seq<RunnerEvent>)
    ensures var (rs, trace) := RunnerRun(evs); rs.reg == RegistryOf(evs).st && trace == RegistryOf(evs).trace
  {
    hide RunnerStep, Calls, Step;
    HistIsRun(MAX_CONCURRENT, INSTANCE, Flat(evs));
    if evs != [] {
      var front, e := evs[..|evs| - 1], evs[|evs| - 1];
      var before := RunnerRun(front).0;
      RunnerIsRegistryRun(front);
      HistIsRun(MAX_CONCURRENT, INSTANCE, Flat(front));
      FoldSnoc(RunnerStep, RunnerFresh(), front, e);
      assert evs == front + [e];
      RunnerStepCalls(before, e);
      FoldAppend(Step, Fresh(MAX_CONCURRENT, INSTANCE), Flat(front), Calls(before, e));
    }
  }

  // ----- what a pump does to each task -----

  ghost predicate AllFor(evs: seq<Event>, id: TaskId) {
    forall e | e in evs :: e.OnOneSlot() && e.id == id
  }

  ghost function SlotFold(s: TaskSlot, evs: seq<Event>): TaskSlot
    requires forall e | e in evs :: e.OnOneSlot()
  {
    if evs == [] then s else OnSlot(SlotFold(s, evs[..|evs| - 1]), evs[|evs| - 1])
  }

  lemma StepForOne(st: RegState, id: TaskId, e: Event)
    requires e.OnOneSlot() && e.id == id
    ensures Step(st, e) == (if id in st.slots then st.(slots := st.slots[id := OnSlot(st.slots[id], e)]) else st, [])
  {
  }

  lemma {:induction false} RunForOne(st: RegState, id: TaskId, evs: seq<Event>)
    requires AllFor(evs, id)
    ensures Run(st, evs)
            == (if id in st.slots then st.(slots := st.slots[id := SlotFold(st.slots[id], evs)]) else st, [])
  {
    hide OnSlot, Step;
    if evs == [] {
      assert id in st.slots ==> st.slots[id := st.slots[id]] == st.slots;
    } else {
      var front, e := evs[..|evs| - 1], evs[|evs| - 1];
      RunForOne(st, id, front);
      FoldSnoc(Step, st, front, e);
      assert evs == front + [e];
      StepForOne(Run(st, front).0, id, e);
      if id in st.slots {
        var s := SlotFold(st.slots[id], front);
        assert st.slots[id := s][id := OnSlot(s, e)] == st.slots[id := OnSlot(s, e)];
        assert SlotFold(st.slots[id], evs) == OnSlot(s, e);
      }
      assert Run(st, evs).1 == [];
    }
  }

  ghost function Fed(s: TaskSlot, id: TaskId, seen: map<TaskId, Seen>, now: u64): TaskSlot {
    SlotFold(s, Feed(id, SeenOf(seen, id), now))
  }

  ghost function FedUpTo(slots: map<TaskId, TaskSlot>, ids: seq<TaskId>, seen: map<TaskId, Seen>,
                         now: u64): map<TaskId, TaskSlot> {
    map id | id in slots :: if id in ids then Fed(slots[id], id, seen, now) else slots[id]
  }

  lemma FedSnoc(slots: map<TaskId, TaskSlot>, front: seq<TaskId>, id: TaskId, seen: map<TaskId, Seen>, now: u64)
    requires id !in front && id in slots
    ensures FedUpTo(slots, front + [id], seen, now)
            == FedUpTo(slots, front, seen, now)[id := Fed(slots[id], id, seen, now)]
  {
    hide Fed;
  }

  lemma {:induction false} RunFeedAll(st: RegState, ids: seq<TaskId>, seen: map<TaskId, Seen>, now: u64)
    requires NoRepeats(ids) && forall id | id in ids :: id in st.slots
    ensures Run(st, FeedAll(ids, seen, now)) == (st.(slots := FedUpTo(st.slots, ids, seen, now)), [])
  {
    hide Feed, SlotFold, Step, NoRepeats;
    if ids == [] {
      assert FedUpTo(st.slots, ids, seen, now) == st.slots;
    } else {
      var front, id := ids[..|ids| - 1], ids[|ids| - 1];
      assert ids == front + [id];
      LastIsOnce(ids);
      RunFeedAll(st, front, seen, now);
      var feed := Feed(id, SeenOf(seen, id), now);
      FoldAppend(Step, st, FeedAll(front, seen, now), feed);
      FeedIsFor(id, SeenOf(seen, id), now);
      RunForOne(st.(slots := FedUpTo(st.slots, front, seen, now)), id, feed);
      FedSnoc(st.slots, front, id, seen, now);
    }
  }

  lemma FeedIsFor(id: TaskId, s: Seen, now: u64)
    ensures AllFor(Feed(id, s, now), id)
  {
  }

  /** The registry as a pump's tick finds it. */
  ghost function FedState(rs: RunnerState, now: u64, seen: map<TaskId, Seen>): RegState {
    rs.reg.(slots := FedUpTo(rs.reg.slots, Ascending(rs.handles.Keys), seen, now))
  }

  /** A pump over coupled handles feeds every task and then ticks once. */
  lemma PumpRun(rs: RunnerState, now: u64, seen: map<TaskId, Seen>)
    requires rs.handles.Keys == rs.reg.slots.Keys
    ensures var fed := FedState(rs, now, seen);
            && Run(rs.reg, FeedAll(Ascending(rs.handles.Keys), seen, now)) == (fed, [])
            && Run(rs.reg, Calls(rs, Pump(now, seen))) == Step(fed, Tick(now))
  {
    hide Step, FedUpTo, FeedAll, Ascending;
    var ids := Ascending(rs.handles.Keys);
    RunFeedAll(rs.reg, ids, seen, now);
    FoldSnoc(Step, rs.reg, FeedAll(ids, seen, now), Tick(now));
    var said := Step(FedState(rs, now, seen), Tick(now)).1;
    assert [] + said == said;
  }

  lemma PumpStep(rs: RunnerState, now: u64, seen: map<TaskId, Seen>)
    requires rs.handles.Keys == rs.reg.slots.Keys
    ensures var (reg, actions) := Step(FedState(rs, now, seen), Tick(now));
            var lines := ForwardAll(rs.handles, Ascending(rs.handles.Keys), seen);
            RunnerStep(rs, Pump(now, seen))
            == (RunnerState(reg, PerformAll(rs.handles, actions), rs.sent + lines + Notices(actions)), actions)
  {
    hide Step, Calls, FedState, Run;
    PumpRun(rs, now, seen);
  }

  lemma FedAt(rs: RunnerState, now: u64, seen: map<TaskId, Seen>, id: TaskId)
    requires rs.handles.Keys == rs.reg.slots.Keys
    ensures var fed := FedState(rs, now, seen);
            && fed.slots.Keys == rs.reg.slots.Keys
            && (id in fed.slots ==> fed.slots[id] == Fed(rs.reg.slots[id], id, seen, now))
  {
    hide Fed;
    assert FedState(rs, now, seen).slots.Keys == rs.reg.slots.Keys;
  }

  // ----- the handles are exactly the supervised tasks -----

  ghost predicate Coupled(rs: RunnerState) {
    && rs.handles.Keys == rs.reg.slots.Keys
    && forall id | id in rs.handles :: rs.handles[id].chat == rs.reg.slots[id].chat
  }

  ghost predicate Drops(actions: seq<Action>, id: TaskId) {
    exists a | a in actions :: a.id == id && (a.HardKill? || a.Finalize?)
  }

  lemma {:induction false} PerformsAll(handles: map<TaskId, Handle>, actions: seq<Action>, id: TaskId)
    ensures var after := PerformAll(handles, actions);
            && (id in after <==> id in handles && !Drops(actions, id))
            && (id in after ==> after[id].chat == handles[id].chat)
            && (id in after ==> (after[id].cancelled <==> handles[id].cancelled || RequestCancel(id) in actions))
  {
    if actions != [] {
      var front, a := actions[..|actions| - 1], actions[|actions| - 1];
      PerformsAll(handles, front, id);
      assert actions == front + [a];
      assert Drops(actions, id) <==> Drops(front, id) || (a.id == id && (a.HardKill? || a.Finalize?)) by {
        if Drops(front, id) {
          var x :| x in front && x.id == id && (x.HardKill? || x.Finalize?);
          assert x in actions;
        }
      }
    }
  }

  lemma TickDrops(st: RegState, now: u64, id: TaskId)
    ensures Drops(Step(st, Tick(now)).1, id) <==> id in st.slots && Ticked(st.slots[id], now).phase.Done?
  {
    hide Ticked, TickActions, TickedSlots, Ended;
    var actions := Step(st, Tick(now)).1;
    var slot := Lookup(st.slots, id);
    var after := TickedOption(slot, now);
    TickPointwise(st, now, id);
    var said := CancelPart(slot, id) + EndPart(after, id);
    forall a: Action | a.id == id ensures a in actions <==> a in said {
      InAbout(actions, a);
    }
    if after.Some? && after.value.phase.Done? {
      var d := after.value.phase.done;
      EndingIn(slot, after, id, d);
      assert Finalize(id, d) in actions;
    }
  }

  lemma {:induction false} FoldKeeps(s: TaskSlot, evs: seq<Event>)
    requires forall e | e in evs :: e.OnOneSlot()
    ensures SlotFold(s, evs).chat == s.chat && SlotFold(s, evs).lease.owner == s.lease.owner
  {
    if evs != [] {
      FoldKeeps(s, evs[..|evs| - 1]);
    }
  }

  lemma PumpKeepsTask(rs: RunnerState, now: u64, seen: map<TaskId, Seen>, id: TaskId)
    requires Coupled(rs)
    ensures var n := RunnerStep(rs, Pump(now, seen)).0;
            && (id in n.handles <==> id in n.reg.slots)
            && (id in n.handles ==> n.handles[id].chat == n.reg.slots[id].chat)
  {
    hide Step, RunnerStep, PerformAll, SlotFold, Ticked, Drops, FedState, Fed, ForwardAll, Notices;
    var fed := FedState(rs, now, seen);
    var actions := Step(fed, Tick(now)).1;
    PumpStep(rs, now, seen);
    FedAt(rs, now, seen, id);
    PerformsAll(rs.handles, actions, id);
    TickDrops(fed, now, id);
    TickFinalizes(fed, now, id, Expired);
    if id in fed.slots {
      FedKeeps(rs.reg.slots[id], id, seen, now);
      TickKeepsChat(fed.slots[id], now);
    }
  }

  lemma FedKeeps(s: TaskSlot, id: TaskId, seen: map<TaskId, Seen>, now: u64)
    ensures Fed(s, id, seen, now).chat == s.chat
  {
    FeedIsFor(id, SeenOf(seen, id), now);
    FoldKeeps(s, Feed(id, SeenOf(seen, id), now));
  }

  /** What a launch does to the registry's slots. */
  lemma LaunchedSlots(st: RegState, chat: ChatId, budget: Budget, now: u64)
    ensures var admit, mark := Admit(chat, budget, now), MarkRunning(st.nextId, now);
            && (st.running >= st.cap ==> Step(st, admit).0 == st)
            && (st.running < st.cap ==>
                  Step(Step(st, admit).0, mark).0.slots
                  == st.slots[st.nextId := NewSlot(st.nextId, chat, Running, st.owner, budget, NO_USAGE, now)])
  {
    hide TickActions;
    var admit, mark := Admit(chat, budget, now), MarkRunning(st.nextId, now);
    var pending := NewSlot(st.nextId, chat, Pending, st.owner, budget, NO_USAGE, now);
    var run := NewSlot(st.nextId, chat, Running, st.owner, budget, NO_USAGE, now);
    assert OnSlot(pending, mark) == run;
    assert st.slots[st.nextId := pending][st.nextId := run] == st.slots[st.nextId := run];
  }

  lemma LaunchCoupled(rs: RunnerState, chat: ChatId, budget: Budget, now: u64)
    requires Coupled(rs)
    ensures Coupled(RunnerStep(rs, Launch(chat, budget, now)).0)
  {
    hide Step, Run, ForwardAll, Notices, PerformAll;
    var admit, mark := Admit(chat, budget, now), MarkRunning(rs.reg.nextId, now);
    OneStep(rs.reg, admit);
    TwoSteps(rs.reg, admit, mark);
    assert [admit] + [] == [admit] && [admit] + [mark] == [admit, mark];
    LaunchedSlots(rs.reg, chat, budget, now);
  }

  lemma QuietCoupled(rs: RunnerState, e: RunnerEvent)
    requires Coupled(rs) && !e.Pump?
    ensures Coupled(RunnerStep(rs, e).0)
  {
    match e
    case Launch(chat, budget, now) =>
      LaunchCoupled(rs, chat, budget, now);
    case CancelTask(id, chat) =>
      OneStep(rs.reg, Cancel(id, chat));
    case KillTask(id, chat) =>
      OneStep(rs.reg, Kill(id, chat));
  }

  lemma CoupledStep(rs: RunnerState, e: RunnerEvent)
    requires Coupled(rs)
    ensures Coupled(RunnerStep(rs, e).0)
  {
    hide RunnerStep;
    if e.Pump? {
      forall id ensures var n := RunnerStep(rs, e).0;
                        && (id in n.handles <==> id in n.reg.slots)
                        && (id in n.handles ==> n.handles[id].chat == n.reg.slots[id].chat)
      {
        PumpKeepsTask(rs, e.now, e.seen, id);
      }
    } else {
      QuietCoupled(rs, e);
    }
  }

  /** After every run, the live handles are exactly the supervised tasks, each reporting to the
      chat that launched it. */
  lemma {:induction false} AlwaysCoupled(evs: seq<RunnerEvent>)
    ensures Coupled(RunnerRun(evs).0)
  {
    hide RunnerStep;
    if evs != [] {
      var front, e := evs[..|evs| - 1], evs[|evs| - 1];
      AlwaysCoupled(front);
      FoldSnoc(RunnerStep, RunnerFresh(), front, e);
      assert evs == front + [e];
      CoupledStep(RunnerRun(front).0, e);
    }
  }

  // ----- how tasks end under the runner -----

  /** Neither admissions nor adoptions nor ticks. */
  ghost predicate Quiet(evs: seq<Event>) {
    forall e | e in evs :: e.OnOneSlot()
  }

  lemma {:induction false} FeedsAreQuiet(ids: seq<TaskId>, seen: map<TaskId, Seen>, now: u64)
    ensures Quiet(FeedAll(ids, seen, now))
  {
    if ids != [] {
      FeedsAreQuiet(ids[..|ids| - 1], seen, now);
    }
  }

  /** A pump gives no orders, and reports a worker finished only if it is held and was seen so. */
  lemma {:induction false} FeedsOrderNothing(ids: seq<TaskId>, seen: map<TaskId, Seen>, now: u64)
    ensures forall e | e in FeedAll(ids, seen, now) ::
              !e.Kill? && !e.Cancel? && (e.Finished? ==> e.id in ids && SeenOf(seen, e.id).finished)
  {
    if ids != [] {
      FeedsOrderNothing(ids[..|ids| - 1], seen, now);
    }
  }

  lemma {:induction false} FlatAdoptsNothing(evs: seq<RunnerEvent>)
    ensures AdoptionFree(Flat(evs))
  {
    hide RunnerRun, FeedAll;
    if evs != [] {
      var front, e := evs[..|evs| - 1], evs[|evs| - 1];
      FlatAdoptsNothing(front);
      if e.Pump? {
        FeedsAreQuiet(Ascending(RunnerRun(front).0.handles.Keys), e.seen, e.now);
      }
    }
  }

  lemma RunnerIdsFresh(evs: seq<RunnerEvent>)
    requires Room(RegistryOf(evs))
    ensures FreshIds(MAX_CONCURRENT, INSTANCE, Flat(evs))
  {
    hide Flat, Hist;
    FlatAdoptsNothing(evs);
    NoReuse(MAX_CONCURRENT, INSTANCE, Flat(evs));
  }

  // Every pump gives every active task proof of life at the time of its tick.

  lemma FedSettled(s: TaskSlot, id: TaskId, seen: map<TaskId, Seen>, now: u64)
    ensures var f := Fed(s, id, seen, now); f.phase.Done? || f.lease == Granted(s.lease.owner, now)
  {
    var feed := Feed(id, SeenOf(seen, id), now);
    FeedIsFor(id, SeenOf(seen, id), now);
    FoldKeeps(s, feed[..|feed| - 1]);
  }

  lemma {:induction false} KeptAliveQuiet(evs: seq<Event>, more: seq<Event>, id: TaskId)
    requires KeptAlive(MAX_CONCURRENT, INSTANCE, evs, id)
    requires forall e | e in more :: !e.Tick?
    ensures KeptAlive(MAX_CONCURRENT, INSTANCE, evs + more, id)
  {
    if more == [] {
      assert evs + more == evs;
    } else {
      assert (evs + more)[..|evs + more| - 1] == evs + more[..|more| - 1];
      KeptAliveQuiet(evs, more[..|more| - 1], id);
    }
  }

  lemma PumpKeepsAlive(front: seq<RunnerEvent>, now: u64, seen: map<TaskId, Seen>, id: TaskId)
    ensures var rs := RunnerRun(front).0;
            var feed := FeedAll(Ascending(rs.handles.Keys), seen, now);
            AliveAt(Hist(MAX_CONCURRENT, INSTANCE, Flat(front) + feed), id, now)
  {
    hide Hist, FeedAll, Flat, RunnerRun, FedState, Step, Fed, AllOk, Ascending;
    var rs := RunnerRun(front).0;
    var feed := FeedAll(Ascending(rs.handles.Keys), seen, now);
    var evs := Flat(front) + feed;
    var h := Hist(MAX_CONCURRENT, INSTANCE, evs);
    AlwaysCoupled(front);
    RunnerIsRegistryRun(front);
    HistIsRun(MAX_CONCURRENT, INSTANCE, Flat(front));
    HistIsRun(MAX_CONCURRENT, INSTANCE, evs);
    FoldAppend(Step, Fresh(MAX_CONCURRENT, INSTANCE), Flat(front), feed);
    PumpRun(rs, now, seen);
    assert h.st == FedState(rs, now, seen);
    FedAt(rs, now, seen, id);
    if id in h.st.slots {
      FedSettled(rs.reg.slots[id], id, seen, now);
      LeaseExact(MAX_CONCURRENT, INSTANCE, evs, now, id);
    }
  }

  lemma KeptAliveTick(evs: seq<Event>, now: u64, id: TaskId)
    requires KeptAlive(MAX_CONCURRENT, INSTANCE, evs, id) && AliveAt(Hist(MAX_CONCURRENT, INSTANCE, evs), id, now)
    ensures KeptAlive(MAX_CONCURRENT, INSTANCE, evs + [Tick(now)], id)
  {
    hide Hist, AliveAt;
    assert (evs + [Tick(now)])[..|evs|] == evs;
  }

  lemma KeptAliveCalls(front: seq<RunnerEvent>, e: RunnerEvent, id: TaskId)
    requires KeptAlive(MAX_CONCURRENT, INSTANCE, Flat(front), id)
    ensures KeptAlive(MAX_CONCURRENT, INSTANCE, Flat(front) + Calls(RunnerRun(front).0, e), id)
  {
    hide Hist, FeedAll, RunnerRun, AliveAt, Flat, KeptAlive, Ascending;
    var rs := RunnerRun(front).0;
    match e
    case Pump(now, seen) =>
      var feed := FeedAll(Ascending(rs.handles.Keys), seen, now);
      FeedsAreQuiet(Ascending(rs.handles.Keys), seen, now);
      KeptAliveQuiet(Flat(front), feed, id);
      PumpKeepsAlive(front, now, seen, id);
      KeptAliveTick(Flat(front) + feed, now, id);
      Assoc(Flat(front), feed, [Tick(now)]);
    case _ =>
      KeptAliveQuiet(Flat(front), Calls(rs, e), id);
  }

  lemma {:induction false} RunnerKeepsAlive(evs: seq<RunnerEvent>, id: TaskId)
    ensures KeptAlive(MAX_CONCURRENT, INSTANCE, Flat(evs), id)
  {
    hide Hist, RunnerRun, Calls, AliveAt;
    if evs != [] {
      RunnerKeepsAlive(evs[..|evs| - 1], id);
      KeptAliveCalls(evs[..|evs| - 1], evs[|evs| - 1], id);
    }
  }

  // Which runner call stands behind a registry call that reached an active task.

  /** The runner calls that give an order of the registry. */
  predicate Gives(e: RunnerEvent, order: Event) {
    match order
    case Kill(id, chat) => e == KillTask(id, chat)
    case Cancel(id, chat) => e == CancelTask(id, chat)
    case Finished(id) => e.Pump? && SeenOf(e.seen, id).finished
    case _ => false
  }

  /** Some call of the run gives the order and finds the task active and launched by `chat`. */
  ghost predicate Reached(evs: seq<RunnerEvent>, order: Event, id: TaskId, chat: ChatId) {
    exists k | 0 <= k < |evs| :: Gives(evs[k], order) && ActiveFor(RunnerRun(evs[..k]).0.reg, id, chat)
  }

  lemma ReachedLater(front: seq<RunnerEvent>, e: RunnerEvent, order: Event, id: TaskId, chat: ChatId)
    requires Reached(front, order, id, chat)
    ensures Reached(front + [e], order, id, chat)
  {
    hide RunnerRun, ActiveFor, Gives;
    var evs := front + [e];
    var k :| 0 <= k < |front| && Gives(front[k], order) && ActiveFor(RunnerRun(front[..k]).0.reg, id, chat);
    assert evs[k] == front[k] && evs[..k] == front[..k];
  }

  lemma ReachedNow(front: seq<RunnerEvent>, e: RunnerEvent, order: Event, id: TaskId, chat: ChatId)
    requires Gives(e, order) && ActiveFor(RunnerRun(front).0.reg, id, chat)
    ensures Reached(front + [e], order, id, chat)
  {
    hide RunnerRun, ActiveFor, Gives;
    var evs := front + [e];
    assert evs[|front|] == e && evs[..|front|] == front;
  }

  lemma {:induction false} QuietReaches(st: RegState, evs: seq<Event>, id: TaskId, chat: ChatId)
    requires Quiet(evs) && ActiveFor(Run(st, evs).0, id, chat)
    ensures ActiveFor(st, id, chat)
  {
    hide Step;
    if evs != [] {
      var front, e := evs[..|evs| - 1], evs[|evs| - 1];
      assert evs == front + [e] && e in evs;
      FoldSnoc(Step, st, front, e);
      ActiveBefore(Run(st, front).0, e, id, chat);
      QuietReaches(st, front, id, chat);
    }
  }

  lemma ActiveBefore(st: RegState, e: Event, id: TaskId, chat: ChatId)
    requires e.OnOneSlot() && ActiveFor(Step(st, e).0, id, chat)
    ensures ActiveFor(st, id, chat)
  {
    SlotAfter(st, e, id);
  }

  /** The calls before an order within one runner call change no slot from terminal to active. */
  lemma OrderInCalls(rs: RunnerState, e: RunnerEvent, m: nat, order: Event, id: TaskId, chat: ChatId)
    requires m < |Calls(rs, e)| && Calls(rs, e)[m] == order
    requires IsOrder(order, id, chat)
    requires ActiveFor(Run(rs.reg, Calls(rs, e)[..m]).0, id, chat)
    ensures Gives(e, order) && ActiveFor(rs.reg, id, chat)
  {
    hide ActiveFor, Run, FeedAll, Ascending;
    if e.Pump? {
      var feed := FeedAll(Ascending(rs.handles.Keys), e.seen, e.now);
      FeedsAreQuiet(Ascending(rs.handles.Keys), e.seen, e.now);
      FeedsOrderNothing(Ascending(rs.handles.Keys), e.seen, e.now);
      assert m < |feed| && feed[m] == order && order in feed;
      assert Calls(rs, e)[..m] == feed[..m];
      QuietReaches(rs.reg, feed[..m], id, chat);
    } else {
      assert m == 0 && Calls(rs, e)[..m] == [];
      QuietReaches(rs.reg, [], id, chat);
    }
  }

  /** The registry in the middle of a runner call. */
  lemma MidCall(front: seq<RunnerEvent>, e: RunnerEvent, m: nat)
    requires m <= |Calls(RunnerRun(front).0, e)|
    ensures var rs := RunnerRun(front).0;
            var calls := Calls(rs, e)[..m];
            Hist(MAX_CONCURRENT, INSTANCE, Flat(front) + calls).st == Run(rs.reg, calls).0
  {
    hide Hist, RunnerRun, Calls, Step, Flat;
    var done, calls := Flat(front), Calls(RunnerRun(front).0, e)[..m];
    RunnerIsRegistryRun(front);
    HistIsRun(MAX_CONCURRENT, INSTANCE, done);
    HistIsRun(MAX_CONCURRENT, INSTANCE, done + calls);
    FoldAppend(Step, Fresh(MAX_CONCURRENT, INSTANCE), done, calls);
  }

  predicate IsOrder(order: Event, id: TaskId, chat: ChatId) {
    order == Kill(id, chat) || order == Cancel(id, chat) || order == Finished(id)
  }

  lemma {:induction false} OrderedAt(evs: seq<RunnerEvent>, k: nat, order: Event, id: TaskId, chat: ChatId)
    requires IsOrder(order, id, chat) && k < |Flat(evs)| && Flat(evs)[k] == order
    requires ActiveFor(Hist(MAX_CONCURRENT, INSTANCE, Flat(evs)[..k]).st, id, chat)
    ensures Reached(evs, order, id, chat)
  {
    hide Hist, ActiveFor, RunnerRun, Calls, Reached, IsOrder, Gives;
    var front, e := evs[..|evs| - 1], evs[|evs| - 1];
    assert evs == front + [e];
    var done, calls := Flat(front), Calls(RunnerRun(front).0, e);
    assert Flat(evs) == done + calls;
    if k < |done| {
      assert (done + calls)[..k] == done[..k];
      OrderedAt(front, k, order, id, chat);
      ReachedLater(front, e, order, id, chat);
    } else {
      var m := k - |done|;
      assert (done + calls)[..k] == done + calls[..m] && calls[m] == order;
      MidCall(front, e, m);
      OrderInCalls(RunnerRun(front).0, e, m, order, id, chat);
      ReachedNow(front, e, order, id, chat);
    }
  }

  /** An order that reached an active task in the registry was given by a runner call that found
      the task active. */
  lemma OrderedByCall(evs: seq<RunnerEvent>, order: Event, id: TaskId, chat: ChatId)
    requires IsOrder(order, id, chat)
    requires Ordered(Past(MAX_CONCURRENT, INSTANCE, Flat(evs)), order, id, chat)
    ensures Reached(evs, order, id, chat)
  {
    hide Hist, ActiveFor, Flat, Reached, IsOrder;
    var past := Past(MAX_CONCURRENT, INSTANCE, Flat(evs));
    var k :| 0 <= k < |past.evs| && past.evs[k] == order && ActiveFor(past.Before(k).Now().st, id, chat);
    OrderedAt(evs, k, order, id, chat);
  }

  /** Under the runner no task ever ends expired, cancelled or out of tokens. A task ends killed
      only if the chat that launched it asked for that while it was active, and completed only if
      a pump found its worker finished while it was active; it is being cancelled only if its chat
      asked for that. A cancel that is not honoured therefore never escalates. */
  lemma RunnerEndings(evs: seq<RunnerEvent>, id: TaskId)
    requires Room(RegistryOf(evs))
    ensures var (rs, trace) := RunnerRun(evs);
            && Finalize(id, Expired) !in trace
            && Finalize(id, Cancelled) !in trace
            && Finalize(id, BudgetExhausted(Tokens)) !in trace
            && (Finalize(id, Killed) in trace || Finalize(id, Completed) in trace || id in rs.reg.slots ==>
                  && id in RegistryOf(evs).births
                  && var chat := RegistryOf(evs).births[id].chat;
                  && (Finalize(id, Killed) in trace ==> Reached(evs, Kill(id, chat), id, chat))
                  && (Finalize(id, Completed) in trace ==> Reached(evs, Finished(id), id, chat))
                  && (id in rs.reg.slots && rs.reg.slots[id].phase.Cancelling? ==>
                        Reached(evs, Cancel(id, chat), id, chat)))
  {
    hide Hist, Flat, RunnerRun, FreshIds, Reached, Ordered, Gives, KeptAlive, Caused;
    var past := Past(MAX_CONCURRENT, INSTANCE, Flat(evs));
    var (rs, trace) := RunnerRun(evs);
    RunnerIsRegistryRun(evs);
    RunnerIdsFresh(evs);
    FlatAdoptsNothing(evs);
    RunnerKeepsAlive(evs, id);
    KeptAliveEndings(MAX_CONCURRENT, INSTANCE, Flat(evs), id);
    NeverOutOfTokens(MAX_CONCURRENT, INSTANCE, Flat(evs));
    assert past.Now() == RegistryOf(evs);
    if Finalize(id, Killed) in trace {
      var chat := past.Now().births[id].chat;
      OrderedByCall(evs, Kill(id, chat), id, chat);
    }
    if Finalize(id, Completed) in trace {
      EndingCaused(past, id, Completed);
      var chat := past.Now().births[id].chat;
      CompletedOrdered(past, id, chat);
      OrderedByCall(evs, Finished(id), id, chat);
    }
    if id in rs.reg.slots {
      EveryStory(MAX_CONCURRENT, INSTANCE, Flat(evs), id);
      StoryOfCancelling(past, id);
      if rs.reg.slots[id].phase.Cancelling? {
        var chat := past.Now().births[id].chat;
        OrderedByCall(evs, Cancel(id, chat), id, chat);
      }
    }
  }

  lemma CompletedOrdered(past: Past, id: TaskId, chat: ChatId)
    requires Caused(past, id, chat, Completed)
    ensures Ordered(past, Finished(id), id, chat)
  {
    hide Hist;
    var k :| 0 <= k < |past.evs| && CausedAt(past, k, id, chat, Completed);
  }

  lemma StoryOfCancelling(past: Past, id: TaskId)
    requires Story(past, id) && id in past.Now().st.slots
    ensures id in past.Now().births
    ensures past.Now().st.slots[id].phase.Cancelling? ==>
              var chat := past.Now().births[id].chat; Ordered(past, Cancel(id, chat), id, chat)
  {
    hide Hist, Ordered, Caused, AllCancels;
  }

  /** Under the runner every task's story is told exactly once, and at most four workers live. */
  lemma RunnerStories(evs: seq<RunnerEvent>, id: TaskId)
    requires Room(RegistryOf(evs))
    ensures Story(Past(MAX_CONCURRENT, INSTANCE, Flat(evs)), id)
    ensures |RunnerRun(evs).0.handles| <= 4
    ensures forall k | k in RunnerRun(evs).0.reg.slots :: RunnerRun(evs).0.reg.slots[k].lease.owner == 1
  {
    hide Hist, Flat, RunnerRun, FreshIds, Story;
    RunnerIsRegistryRun(evs);
    RunnerIdsFresh(evs);
    FlatAdoptsNothing(evs);
    EveryStory(MAX_CONCURRENT, INSTANCE, Flat(evs), id);
    ExactAccounting(MAX_CONCURRENT, INSTANCE, Flat(evs));
    AlwaysCoupled(evs);
    var rs := RunnerRun(evs).0;
    forall k | k in rs.reg.slots ensures rs.reg.slots[k].lease.owner == 1 {
      LeaseExact(MAX_CONCURRENT, INSTANCE, Flat(evs), 0, k);
    }
    assert |rs.handles| == |rs.handles.Keys| && |rs.reg.slots| == |rs.reg.slots.Keys|;
  }

  // ----- every line is forwarded -----

  /** The lines of one task among the messages sent. */
  function LinesOf(sent: seq<Message>, id: TaskId): seq<Message> {
    if sent == [] then [] else
    var m := sent[|sent| - 1];
    LinesOf(sent[..|sent| - 1], id) + (if m.Forwarded? && m.id == id then [m] else [])
  }

  lemma {:induction false} LinesAppend(a: seq<Message>, b: seq<Message>, id: TaskId)
    ensures LinesOf(a + b, id) == LinesOf(a, id) + LinesOf(b, id)
  {
    if b == [] {
      assert a + b == a;
    } else {
      assert (a + b)[..|a + b| - 1] == a + b[..|b| - 1];
      LinesAppend(a, b[..|b| - 1], id);
    }
  }

  lemma {:induction false} LinesOfForwards(chat: ChatId, owner: TaskId, lines: seq<Line>, id: TaskId)
    ensures LinesOf(Forwards(chat, owner, lines), id) == if id == owner then Forwards(chat, owner, lines) else []
  {
    if lines != [] {
      var all := Forwards(chat, owner, lines);
      assert all[..|all| - 1] == Forwards(chat, owner, lines[..|lines| - 1]);
      LinesOfForwards(chat, owner, lines[..|lines| - 1], id);
    }
  }

  lemma {:induction false} NoticesAreNotLines(actions: seq<Action>, id: TaskId)
    ensures LinesOf(Notices(actions), id) == []
  {
    if actions != [] {
      var front, a := actions[..|actions| - 1], actions[|actions| - 1];
      NoticesAreNotLines(front, id);
      LinesAppend(Notices(front), if a.SendLine? then [Notice(a.chat, a.id, a.done)] else [], id);
    }
  }

  lemma {:induction false} LinesOfAll(handles: map<TaskId, Handle>, ids: seq<TaskId>, seen: map<TaskId, Seen>,
                                      id: TaskId)
    requires NoRepeats(ids)
    ensures LinesOf(ForwardAll(handles, ids, seen), id) == if id in ids then ForwardsOf(handles, seen, id) else []
  {
    hide NoRepeats, Forwards;
    if ids != [] {
      var front, last := ids[..|ids| - 1], ids[|ids| - 1];
      LastIsOnce(ids);
      LinesOfAll(handles, front, seen, id);
      LinesAppend(ForwardAll(handles, front, seen), ForwardsOf(handles, seen, last), id);
      if last in handles {
        LinesOfForwards(handles[last].chat, last, SeenOf(seen, last).lines, id);
      }
      assert id in ids <==> id in front || id == last;
      assert [] + ForwardsOf(handles, seen, last) == ForwardsOf(handles, seen, last);
    }
  }

  /** A pump forwards every line it drained from a worker, in order, to the worker's chat. */
  lemma PumpForwards(rs: RunnerState, now: u64, seen: map<TaskId, Seen>, id: TaskId)
    ensures LinesOf(RunnerStep(rs, Pump(now, seen)).0.sent, id)
            == LinesOf(rs.sent, id) + ForwardsOf(rs.handles, seen, id)
  {
    hide Run, Calls, PerformAll, Forwards, LinesOf, ForwardAll, Notices;
    var actions := RunnerStep(rs, Pump(now, seen)).1;
    var lines := ForwardAll(rs.handles, Ascending(rs.handles.Keys), seen);
    LinesAppend(rs.sent + lines, Notices(actions), id);
    LinesAppend(rs.sent, lines, id);
    NoticesAreNotLines(actions, id);
    LinesOfAll(rs.handles, Ascending(rs.handles.Keys), seen, id);
    assert id !in rs.handles ==> ForwardsOf(rs.handles, seen, id) == [];
    var all := LinesOf(rs.sent, id) + ForwardsOf(rs.handles, seen, id);
    assert all + [] == all;
  }

  /** Everything drained from a task's worker while it was held. */
  function Drained(evs: seq<RunnerEvent>, id: TaskId): seq<Line> {
    if evs == [] then [] else
    var front, e := evs[..|evs| - 1], evs[|evs| - 1];
    Drained(front, id) + (if e.Pump? && id in RunnerRun(front).0.handles then SeenOf(e.seen, id).lines else [])
  }

  ghost predicate AllForwarded(rs: RunnerState, born: Option<ChatId>, drained: seq<Line>, id: TaskId) {
    match born
    case Some(chat) => LinesOf(rs.sent, id) == Forwards(chat, id, drained)
    case None => LinesOf(rs.sent, id) == [] && drained == []
  }

  lemma ForwardsAppend(chat: ChatId, id: TaskId, a: seq<Line>, b: seq<Line>)
    ensures Forwards(chat, id, a + b) == Forwards(chat, id, a) + Forwards(chat, id, b)
  {
  }

  lemma SentStays(rs: RunnerState, e: RunnerEvent)
    requires !e.Pump?
    ensures RunnerStep(rs, e).0.sent == rs.sent
  {
    hide Run;
  }

  lemma HandleChat(evs: seq<RunnerEvent>, id: TaskId)
    requires id in RunnerRun(evs).0.handles
    ensures BornIn(RegistryOf(evs), id) == Some(RunnerRun(evs).0.handles[id].chat)
  {
    hide Hist, Flat, RunnerRun;
    AlwaysCoupled(evs);
    RunnerIsRegistryRun(evs);
    SlotsOk(MAX_CONCURRENT, INSTANCE, Flat(evs));
    assert SlotOk(RegistryOf(evs), id);
  }

  lemma RunnerBirthsStay(front: seq<RunnerEvent>, e: RunnerEvent, id: TaskId)
    requires Room(RegistryOf(front + [e])) && BornIn(RegistryOf(front), id).Some?
    ensures BornIn(RegistryOf(front + [e]), id) == BornIn(RegistryOf(front), id)
  {
    hide Hist, Calls, RunnerRun, FreshIds;
    assert (front + [e])[..|front|] == front;
    RunnerIdsFresh(front + [e]);
    BirthsStay(MAX_CONCURRENT, INSTANCE, Flat(front), Calls(RunnerRun(front).0, e), id);
  }

  lemma {:induction false} RoomEarlier(max: nat, owner: u64, evs: seq<Event>, more: seq<Event>)
    requires Room(Hist(max, owner, evs + more))
    ensures Room(Hist(max, owner, evs))
  {
    hide Next;
    if more == [] {
      assert evs + more == evs;
    } else {
      assert (evs + more)[..|evs + more| - 1] == evs + more[..|more| - 1];
      RoomBefore(Hist(max, owner, evs + more[..|more| - 1]), more[|more| - 1]);
      RoomEarlier(max, owner, evs, more[..|more| - 1]);
    }
  }

  lemma RunnerRoomEarlier(front: seq<RunnerEvent>, e: RunnerEvent)
    requires Room(RegistryOf(front + [e]))
    ensures Room(RegistryOf(front))
  {
    hide Hist, Calls, RunnerRun;
    assert (front + [e])[..|front|] == front;
    RoomEarlier(MAX_CONCURRENT, INSTANCE, Flat(front), Calls(RunnerRun(front).0, e));
  }

  lemma ForwardStep(front: seq<RunnerEvent>, e: RunnerEvent, id: TaskId)
    requires Room(RegistryOf(front + [e]))
    requires AllForwarded(RunnerRun(front).0, BornIn(RegistryOf(front), id), Drained(front, id), id)
    ensures AllForwarded(RunnerRun(front + [e]).0, BornIn(RegistryOf(front + [e]), id), Drained(front + [e], id), id)
  {
    hide Hist, Flat, RunnerStep, Forwards, Room, LinesOf;
    var rs, evs := RunnerRun(front).0, front + [e];
    assert evs[..|front|] == front;
    FoldSnoc(RunnerStep, RunnerFresh(), front, e);
    if BornIn(RegistryOf(front), id).Some? {
      RunnerBirthsStay(front, e, id);
    }
    if e.Pump? {
      PumpForwards(rs, e.now, e.seen, id);
      if id in rs.handles {
        HandleChat(front, id);
        ForwardsAppend(rs.handles[id].chat, id, Drained(front, id), SeenOf(e.seen, id).lines);
      } else {
        NothingForwarded(rs, BornIn(RegistryOf(front), id), BornIn(RegistryOf(evs), id), Drained(front, id), id);
      }
    } else {
      SentStays(rs, e);
      NothingForwarded(rs, BornIn(RegistryOf(front), id), BornIn(RegistryOf(evs), id), Drained(front, id), id);
    }
  }

  lemma NothingForwarded(rs: RunnerState, born: Option<ChatId>, later: Option<ChatId>, drained: seq<Line>, id: TaskId)
    requires AllForwarded(rs, born, drained, id) && (born.Some? ==> later == born)
    ensures LinesOf(rs.sent, id) + [] == LinesOf(rs.sent, id) && drained + [] == drained
    ensures AllForwarded(rs, later, drained, id)
  {
    assert born.None? && later.Some? ==> Forwards(later.value, id, drained) == [];
  }

  lemma NothingSentYet(id: TaskId)
    ensures AllForwarded(RunnerRun([]).0, BornIn(RegistryOf([]), id), Drained([], id), id)
  {
  }

  /** Over every run, the lines sent for a task are exactly the lines drained from its worker, in
      order, all to the chat that launched it. */
  lemma {:induction false} EveryLineForwarded(evs: seq<RunnerEvent>, id: TaskId)
    requires Room(RegistryOf(evs))
    ensures AllForwarded(RunnerRun(evs).0, BornIn(RegistryOf(evs), id), Drained(evs, id), id)
  {
    hide RunnerStep, Hist, Room, AllForwarded, Flat, Drained, RunnerRun, BornIn;
    if evs == [] {
      NothingSentYet(id);
    } else {
      var front, e := evs[..|evs| - 1], evs[|evs| - 1];
      assert evs == front + [e];
      RunnerRoomEarlier(front, e);
      EveryLineForwarded(front, id);
      ForwardStep(front, e, id);
    }
  }

  // ----- what one pump makes of an active task -----

  function Bytes(lines: seq<Line>): nat {
    if lines == [] then 0 else Bytes(lines[..|lines| - 1]) + |lines[|lines| - 1]|
  }

  /** What the task will have used of its wall budget once charged up to `now`. */
  function WallAt(s: TaskSlot, now: u64): u64 {
    SatAdd(s.usage.wall, WallSince(s, now))
  }

  function OutputWith(s: TaskSlot, lines: seq<Line>): u64 {
    Min(U64_MAX, s.usage.output + Bytes(lines))
  }

  /** The budget covers the lines and, if there are any, the time up to them. */
  predicate Affords(s: TaskSlot, lines: seq<Line>, now: u64) {
    lines == [] || (WallAt(s, now) <= s.budget.maxWall && OutputWith(s, lines) <= s.budget.maxOutput)
  }

  /** The slot once the registry has seen the lines. */
  ghost function AfterLines(s: TaskSlot, id: TaskId, lines: seq<Line>, now: u64): TaskSlot {
    LineCallsFor(id, lines, now);
    SlotFold(s, LineCalls(id, lines, now))
  }

  lemma LineCallsFor(id: TaskId, lines: seq<Line>, now: u64)
    ensures AllFor(LineCalls(id, lines, now), id)
  {
  }

  function Paid(s: TaskSlot, lines: seq<Line>, now: u64): TaskSlot {
    if lines == [] then s
    else
      s.(lease := s.lease.Refreshed(now),
         usage := Usage(WallAt(s, now), OutputWith(s, lines), s.usage.tokens),
         lastChargeAt := now)
  }

  function Breach(s: TaskSlot, now: u64): TaskDone {
    BudgetExhausted(if WallAt(s, now) > s.budget.maxWall then Wall else Output)
  }

  lemma OneLine(s: TaskSlot, id: TaskId, front: seq<Line>, line: Line, now: u64)
    requires !s.phase.Done? && Within(s.usage, s.budget) && Affords(s, front, now)
    ensures var t := OnSlot(Paid(s, front, now), Progress(id, |line|, now));
            var lines := front + [line];
            if Affords(s, lines, now) then t == Paid(s, lines, now) else t.phase == Done(Breach(s, now))
  {
    var lines := front + [line];
    assert lines[..|lines| - 1] == front;
    assert Bytes(lines) == Bytes(front) + |line|;
  }

  /** Streaming ends an active task exactly when its budget does not cover the lines: on the wall
      axis if that is breached, else on output. Otherwise exactly their bytes and the time up to
      now are charged. */
  lemma {:induction false} StreamingSettles(s: TaskSlot, id: TaskId, lines: seq<Line>, now: u64)
    requires !s.phase.Done? && Within(s.usage, s.budget)
    ensures var t := AfterLines(s, id, lines, now);
            if Affords(s, lines, now) then t == Paid(s, lines, now) else t.phase == Done(Breach(s, now))
  {
    if lines != [] {
      hide OnSlot, Within;
      var front, line := lines[..|lines| - 1], lines[|lines| - 1];
      assert lines == front + [line];
      assert LineCalls(id, lines, now)[..|lines| - 1] == LineCalls(id, front, now);
      StreamingSettles(s, id, front, now);
      if Affords(s, front, now) {
        OneLine(s, id, front, line, now);
      } else {
        DoneStays(AfterLines(s, id, front, now), Progress(id, |line|, now));
      }
    }
  }

  lemma AffordsFewer(s: TaskSlot, lines: seq<Line>, k: nat, now: u64)
    requires k <= |lines| && Affords(s, lines, now)
    ensures Affords(s, lines[..k], now)
  {
    BytesUpTo(lines, k);
  }

  lemma {:induction false} BytesUpTo(lines: seq<Line>, k: nat)
    requires k <= |lines|
    ensures Bytes(lines[..k]) <= Bytes(lines)
  {
    if k < |lines| {
      assert lines[..|lines| - 1][..k] == lines[..k];
      BytesUpTo(lines[..|lines| - 1], k);
    } else {
      assert lines[..k] == lines;
    }
  }

  /** The task is still active after each of its first `n` lines, and before them. */
  ghost predicate ActiveThrough(s: TaskSlot, id: TaskId, lines: seq<Line>, now: u64, n: nat)
    requires n <= |lines|
  {
    forall k | 0 <= k <= n :: !AfterLines(s, id, lines[..k], now).phase.Done?
  }

  /** An active task outlives its first `n` lines exactly when its budget covers them. */
  lemma OutlivesLines(s: TaskSlot, id: TaskId, lines: seq<Line>, now: u64, n: nat)
    requires !s.phase.Done? && Within(s.usage, s.budget) && n <= |lines|
    ensures ActiveThrough(s, id, lines, now, n) <==> Affords(s, lines[..n], now)
  {
    hide AfterLines, Affords;
    forall k | 0 <= k <= n
      ensures !AfterLines(s, id, lines[..k], now).phase.Done? <==> Affords(s, lines[..k], now)
    {
      StreamingSettles(s, id, lines[..k], now);
    }
    if Affords(s, lines[..n], now) {
      forall k | 0 <= k <= n ensures Affords(s, lines[..k], now) {
        AffordsFewer(s, lines[..n], k, now);
        assert lines[..n][..k] == lines[..k];
      }
    }
  }

  /** How a pump ends an active task, if it does. */
  function PumpEnding(s: TaskSlot, seen: Seen, now: u64): Option<TaskDone> {
    if !Affords(s, seen.lines, now) then Some(Breach(s, now))
    else if seen.finished then Some(Completed)
    else if !s.phase.Cancelling? && WallAt(s, now) > s.budget.maxWall then Some(BudgetExhausted(Wall))
    else None
  }

  /** What a pump leaves of a task it keeps: a fresh lease, the lines charged, and the time up to
      now charged unless a cancelled worker streamed nothing. */
  function PumpKeeps(s: TaskSlot, seen: Seen, now: u64): TaskSlot {
    var silent := s.phase.Cancelling? && seen.lines == [];
    s.(lease := s.lease.Refreshed(now),
       usage := Usage(if silent then s.usage.wall else WallAt(s, now), OutputWith(s, seen.lines), s.usage.tokens),
       lastChargeAt := if silent then s.lastChargeAt else now)
  }

  lemma FedAndTicked(s: TaskSlot, id: TaskId, seen: map<TaskId, Seen>, now: u64)
    requires !s.phase.Done? && Within(s.usage, s.budget)
    ensures var t := Ticked(Fed(s, id, seen, now), now);
            match PumpEnding(s, SeenOf(seen, id), now)
            case Some(d) => t.phase == Done(d)
            case None => !t.phase.Done? && t == PumpKeeps(s, SeenOf(seen, id), now)
  {
    hide AfterLines, Fed, OnSlot, Ticked, Affords, WallAt, PumpKeeps, Within;
    var w := SeenOf(seen, id);
    FedIsLast(s, id, seen, now);
    StreamingSettles(s, id, w.lines, now);
    if !Affords(s, w.lines, now) {
      DoneStays(AfterLines(s, id, w.lines, now), if w.finished then Finished(id) else Heartbeat(id, now));
      DoneTicks(Fed(s, id, seen, now), now);
    } else if w.finished {
      FinishedSettles(Paid(s, w.lines, now), id);
      DoneTicks(Fed(s, id, seen, now), now);
    } else {
      HeldAndTicked(s, id, w.lines, now);
    }
  }

  lemma FinishedSettles(s: TaskSlot, id: TaskId)
    requires !s.phase.Done?
    ensures OnSlot(s, Finished(id)).phase == Done(Completed)
  {
  }

  lemma FedIsLast(s: TaskSlot, id: TaskId, seen: map<TaskId, Seen>, now: u64)
    ensures var w := SeenOf(seen, id);
            var last := if w.finished then Finished(id) else Heartbeat(id, now);
            Fed(s, id, seen, now) == OnSlot(AfterLines(s, id, w.lines, now), last)
  {
    var w := SeenOf(seen, id);
    var feed := Feed(id, w, now);
    assert feed[..|feed| - 1] == LineCalls(id, w.lines, now);
  }

  lemma HeldAndTicked(s: TaskSlot, id: TaskId, lines: seq<Line>, now: u64)
    requires !s.phase.Done? && Within(s.usage, s.budget) && Affords(s, lines, now)
    ensures var t := Ticked(OnSlot(Paid(s, lines, now), Heartbeat(id, now)), now);
            if !s.phase.Cancelling? && WallAt(s, now) > s.budget.maxWall then t.phase == Done(BudgetExhausted(Wall))
            else !t.phase.Done? && t == PumpKeeps(s, Seen(lines, false), now)
  {
    assert lines == [] ==> Bytes(lines) == 0;
  }

  lemma PumpDecides(rs: RunnerState, now: u64, seen: map<TaskId, Seen>, id: TaskId)
    requires Coupled(rs) && id in rs.reg.slots
    requires !rs.reg.slots[id].phase.Done? && Within(rs.reg.slots[id].usage, rs.reg.slots[id].budget)
    ensures var (n, actions) := RunnerStep(rs, Pump(now, seen));
            var s := rs.reg.slots[id];
            && (forall d :: Finalize(id, d) in actions <==> PumpEnding(s, SeenOf(seen, id), now) == Some(d))
            && (id in n.reg.slots <==> PumpEnding(s, SeenOf(seen, id), now).None?)
            && (id in n.handles <==> id in n.reg.slots)
            && (id in n.reg.slots ==>
                  && n.reg.slots[id] == PumpKeeps(s, SeenOf(seen, id), now)
                  && (s.phase.Cancelling? ==> n.handles[id].cancelled))
  {
    hide Step, RunnerStep, PerformAll, FedState, Fed, Drops, PumpEnding, PumpKeeps, Ticked, ForwardAll, Notices;
    var fed := FedState(rs, now, seen);
    var actions := Step(fed, Tick(now)).1;
    var s := rs.reg.slots[id];
    PumpStep(rs, now, seen);
    FedAt(rs, now, seen, id);
    FedAndTicked(s, id, seen, now);
    forall d ensures Finalize(id, d) in actions <==> PumpEnding(s, SeenOf(seen, id), now) == Some(d) {
      TickFinalizes(fed, now, id, d);
    }
    TickFinalizes(fed, now, id, Expired);
    PumpKeepsTask(rs, now, seen, id);
    PerformsAll(rs.handles, actions, id);
    if s.phase.Cancelling? && id in RunnerStep(rs, Pump(now, seen)).0.reg.slots {
      FedCancelling(s, id, seen, now);
      TickPointwise(fed, now, id);
      InAbout(actions, Action.RequestCancel(id));
    }
  }

  lemma FedCancelling(s: TaskSlot, id: TaskId, seen: map<TaskId, Seen>, now: u64)
    requires s.phase.Cancelling? && Within(s.usage, s.budget)
    ensures PumpEnding(s, SeenOf(seen, id), now).None? ==> Fed(s, id, seen, now).phase.Cancelling?
  {
    var lines := SeenOf(seen, id).lines;
    FedIsLast(s, id, seen, now);
    StreamingSettles(s, id, lines, now);
    hide AfterLines, Fed;
  }

  /** In every run, an active task is within its budget. */
  lemma RunnerWithin(evs: seq<RunnerEvent>, id: TaskId)
    ensures var slots := RunnerRun(evs).0.reg.slots;
            id in slots && !slots[id].phase.Done? ==> Within(slots[id].usage, slots[id].budget)
  {
    hide Hist, Flat, RunnerRun;
    RunnerIsRegistryRun(evs);
    SlotsOk(MAX_CONCURRENT, INSTANCE, Flat(evs));
    if id in RunnerRun(evs).0.reg.slots {
      assert SlotOk(RegistryOf(evs), id);
    }
  }

  predicate ActiveIn(evs: seq<RunnerEvent>, id: TaskId) {
    var slots := RunnerRun(evs).0.reg.slots;
    id in slots && !slots[id].phase.Done?
  }

  /** Exactly what one pump makes of an active task in any run: the ending it is given, or the
      slot it keeps and its handle, flagged if the task is being cancelled. */
  lemma PumpOutcome(evs: seq<RunnerEvent>, now: u64, seen: map<TaskId, Seen>, id: TaskId)
    requires ActiveIn(evs, id)
    ensures var (n, actions) := RunnerStep(RunnerRun(evs).0, Pump(now, seen));
            var s := RunnerRun(evs).0.reg.slots[id];
            && (forall d :: Finalize(id, d) in actions <==> PumpEnding(s, SeenOf(seen, id), now) == Some(d))
            && (id in n.reg.slots <==> PumpEnding(s, SeenOf(seen, id), now).None?)
            && (id in n.handles <==> id in n.reg.slots)
            && (id in n.reg.slots ==>
                  && n.reg.slots[id] == PumpKeeps(s, SeenOf(seen, id), now)
                  && (s.phase.Cancelling? ==> n.handles[id].cancelled))
  {
    hide RunnerRun, RunnerStep, PumpEnding, PumpKeeps, Within, Coupled;
    AlwaysCoupled(evs);
    RunnerWithin(evs, id);
    PumpDecides(RunnerRun(evs).0, now, seen, id);
  }

  /** A pump forwards all the lines of an active task. None of them follows the task's end exactly
      when its budget covers all but the last, and the last does not end it either exactly when
      its budget covers them all. */
  lemma LinesPastTheEnd(evs: seq<RunnerEvent>, now: u64, seen: map<TaskId, Seen>, id: TaskId)
    requires ActiveIn(evs, id) && SeenOf(seen, id).lines != []
    ensures var rs, lines := RunnerRun(evs).0, SeenOf(seen, id).lines;
            var s, most := rs.reg.slots[id], |lines| - 1;
            && LinesOf(RunnerStep(rs, Pump(now, seen)).0.sent, id) == LinesOf(rs.sent, id) + Forwards(s.chat, id, lines)
            && (ActiveThrough(s, id, lines, now, most) <==> Affords(s, lines[..most], now))
            && (ActiveThrough(s, id, lines, now, |lines|) <==> Affords(s, lines, now))
  {
    hide RunnerRun, RunnerStep, Affords, Within, ActiveThrough, LinesOf, Forwards;
    var rs, lines := RunnerRun(evs).0, SeenOf(seen, id).lines;
    AlwaysCoupled(evs);
    RunnerWithin(evs, id);
    PumpForwards(rs, now, seen, id);
    assert id in rs.handles;
    OutlivesLines(rs.reg.slots[id], id, lines, now, |lines| - 1);
    OutlivesLines(rs.reg.slots[id], id, lines, now, |lines|);
    assert lines[..|lines|] == lines;
  }

  /** A line that follows the breach: of the two lines of a task without output budget, the first
      ends it and the second is sent all the same. */
  lemma LineFollowsBreach(now: u64)
    ensures var evs := [Launch(5, Budget(U64_MAX, 0, 0), now)];
            var lines: seq<Line> := [[65], [66]];
            && ActiveIn(evs, 1)
            && !ActiveThrough(RunnerRun(evs).0.reg.slots[1], 1, lines, now, 1)
            && LinesOf(RunnerRun(evs + [Pump(now, map[1 := Seen(lines, false)])]).0.sent, 1)
               == [Forwarded(5, 1, [65]), Forwarded(5, 1, [66])]
  {
    hide RunnerStep, ActiveThrough, LinesOf;
    var budget := Budget(U64_MAX, 0, 0);
    var launch := Launch(5, budget, now);
    var evs := [launch];
    var lines: seq<Line> := [[65], [66]];
    var pump := Pump(now, map[1 := Seen(lines, false)]);
    FoldSnoc(RunnerStep, RunnerFresh(), [], launch);
    FoldSnoc(RunnerStep, RunnerFresh(), evs, pump);
    assert [] + [launch] == evs;
    FirstLaunched(5, budget, now);
    var rs := RunnerRun(evs).0;
    var s := rs.reg.slots[1];
    OutlivesLines(s, 1, lines, now, 1);
    assert lines[..1] == [lines[0]];
    OneLineBytes(lines[0]);
    AlwaysCoupled(evs);
    PumpForwards(rs, now, pump.seen, 1);
    NothingSent(1);
    assert LinesOf(rs.sent, 1) + Forwards(5, 1, lines) == [Forwarded(5, 1, [65]), Forwarded(5, 1, [66])];
  }

  lemma OneLineBytes(line: Line)
    ensures Bytes([line]) == |line|
  {
    assert [line][..0] == [] && Bytes([]) == 0;
  }

  lemma NothingSent(id: TaskId)
    ensures LinesOf([], id) == []
  {
  }

  lemma FirstLaunched(chat: ChatId, budget: Budget, now: u64)
    ensures var n := RunnerStep(RunnerFresh(), Launch(chat, budget, now)).0;
            && n.sent == []
            && n.reg.slots == map[1 := NewSlot(1, chat, Running, INSTANCE, budget, NO_USAGE, now)]
  {
    hide Step, Run;
    var rs, admit, mark := RunnerFresh(), Admit(chat, budget, now), MarkRunning(1, now);
    TwoSteps(rs.reg, admit, mark);
    assert [admit] + [mark] == [admit, mark];
    LaunchedSlots(rs.reg, chat, budget, now);
  }

  // ----- a cancelled worker that does not stop -----

  /** A cancelled worker that streams nothing and never finishes is supervised for ever, whatever
      time passes and whatever its wall budget. */
  lemma {:induction false} CancellingForever(evs: seq<RunnerEvent>, pumps: seq<RunnerEvent>, id: TaskId)
    requires var slots := RunnerRun(evs).0.reg.slots; id in slots && slots[id].phase.Cancelling?
    requires forall e | e in pumps :: e.Pump? && SeenOf(e.seen, id) == Seen([], false)
    ensures var s, slots := RunnerRun(evs).0.reg.slots[id], RunnerRun(evs + pumps).0.reg.slots;
            && id in slots && slots[id].phase.Cancelling?
            && slots[id].usage == s.usage && slots[id].budget == s.budget
  {
    hide RunnerStep;
    if pumps == [] {
      assert evs + pumps == evs;
    } else {
      var front, e := pumps[..|pumps| - 1], pumps[|pumps| - 1];
      var before := evs + front;
      assert evs + pumps == before + [e];
      assert e in pumps;
      CancellingForever(evs, front, id);
      AlwaysCoupled(before);
      RunnerWithin(before, id);
      SilentlyKept(RunnerRun(before).0, e.now, e.seen, id);
      FoldSnoc(RunnerStep, RunnerFresh(), before, e);
    }
  }

  lemma SilentlyKept(rs: RunnerState, now: u64, seen: map<TaskId, Seen>, id: TaskId)
    requires Coupled(rs) && id in rs.reg.slots && rs.reg.slots[id].phase.Cancelling?
    requires Within(rs.reg.slots[id].usage, rs.reg.slots[id].budget) && SeenOf(seen, id) == Seen([], false)
    ensures var n := RunnerStep(rs, Pump(now, seen)).0;
            id in n.reg.slots && n.reg.slots[id] == rs.reg.slots[id].(lease := rs.reg.slots[id].lease.Refreshed(now))
  {
    hide RunnerStep, Coupled;
    PumpDecides(rs, now, seen, id);
  }

  /** Such a task exists: the first one launched, cancelled at once by its chat. */
  lemma CancelIgnored(chat: ChatId, budget: Budget, now: u64, pumps: seq<RunnerEvent>)
    requires forall e | e in pumps :: e.Pump? && SeenOf(e.seen, 1) == Seen([], false)
    ensures var slots := RunnerRun([Launch(chat, budget, now), CancelTask(1, chat)] + pumps).0.reg.slots;
            1 in slots && slots[1].phase.Cancelling? && slots[1].usage == NO_USAGE && slots[1].budget == budget
  {
    hide RunnerStep;
    var launch, cancel := Launch(chat, budget, now), CancelTask(1, chat);
    FoldSnoc(RunnerStep, RunnerFresh(), [], launch);
    FoldSnoc(RunnerStep, RunnerFresh(), [launch], cancel);
    assert [] + [launch] == [launch] && [launch] + [cancel] == [launch, cancel];
    LaunchedThenCancelled(chat, budget, now);
    CancellingForever([launch, cancel], pumps, 1);
  }

  lemma LaunchedThenCancelled(chat: ChatId, budget: Budget, now: u64)
    ensures var launched := RunnerStep(RunnerFresh(), Launch(chat, budget, now)).0;
            var slots := RunnerStep(launched, CancelTask(1, chat)).0.reg.slots;
            1 in slots && slots[1].phase.Cancelling? && slots[1].usage == NO_USAGE && slots[1].budget == budget
  {
    hide TickActions;
    FirstLaunched(chat, budget, now);
    OneStep(RunnerStep(RunnerFresh(), Launch(chat, budget, now)).0.reg, Cancel(1, chat));
  }
}
