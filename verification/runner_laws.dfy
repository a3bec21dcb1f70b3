/** What the runner does to its handles and to its chats, over whole runs: which handles are told to
    cancel, and which notices are sent. */
module RunnerLaws {
  import opened Foundation
  import opened Supervisor
  import opened RegistryModel
  import opened RegistryRuns
  import opened RegistryConservation
  import opened RegistryEndings
  import opened TaskRunnerModel

  // ----- which handles are told to cancel -----

  lemma {:induction false} FoldPhase(s: TaskSlot, evs: seq<Event>)
    requires forall e | e in evs :: e.Progress? || e.Heartbeat? || e.Finished?
    ensures SlotFold(s, evs).phase.Done? || SlotFold(s, evs).phase == s.phase
  {
    if evs != [] {
      var front, e := evs[..|evs| - 1], evs[|evs| - 1];
      assert e in evs;
      FoldPhase(s, front);
    }
  }

  lemma FedPhase(s: TaskSlot, id: TaskId, seen: map<TaskId, Seen>, now: u64)
    ensures var f := Fed(s, id, seen, now); f.phase.Done? || f.phase == s.phase
  {
    FeedIsFor(id, SeenOf(seen, id), now);
    FoldPhase(s, Feed(id, SeenOf(seen, id), now));
  }

  /** A pump tells exactly the workers of cancelling tasks to cancel: the handle of a task it keeps
      is flagged afterwards exactly when it was before or its task was being cancelled. */
  lemma PumpFlags(rs: RunnerState, now: u64, seen: map<TaskId, Seen>, id: TaskId)
    requires Coupled(rs)
    ensures var n := RunnerStep(rs, Pump(now, seen)).0;
            id in n.handles ==>
              && id in rs.handles && id in rs.reg.slots && n.handles[id].chat == rs.handles[id].chat
              && (n.handles[id].cancelled <==> rs.handles[id].cancelled || rs.reg.slots[id].phase.Cancelling?)
  {
    hide Step, RunnerStep, PerformAll, FedState, Fed, Drops, Ticked, ForwardAll, Notices;
    var fed := FedState(rs, now, seen);
    var actions := Step(fed, Tick(now)).1;
    PumpStep(rs, now, seen);
    FedAt(rs, now, seen, id);
    PerformsAll(rs.handles, actions, id);
    PumpKeepsTask(rs, now, seen, id);
    TickFinalizes(fed, now, id, Expired);
    TickAsks(fed, now, id);
    if id in fed.slots {
      FedPhase(rs.reg.slots[id], id, seen, now);
      TickKeepsPhase(fed.slots[id], now);
      DoneForGood(fed.slots[id], now);
    }
  }

  lemma DoneForGood(s: TaskSlot, now: u64)
    ensures s.phase.Done? ==> Ticked(s, now).phase.Done?
  {
  }

  /** A launch adds at most one handle, of the next id and not told to cancel, and touches no other;
      a cancel or a kill touches none. */
  lemma QuietHandles(rs: RunnerState, e: RunnerEvent)
    requires !e.Pump?
    ensures var n := RunnerStep(rs, e).0;
            if e.Launch? && rs.reg.running < rs.reg.cap then
              && n.handles.Keys == rs.handles.Keys + {rs.reg.nextId}
              && n.handles[rs.reg.nextId] == Handle(e.chat, false)
              && forall id | id in rs.handles && id != rs.reg.nextId :: n.handles[id] == rs.handles[id]
            else n.handles == rs.handles
  {
    hide Run;
  }

  /** Some pump of the run found the task being cancelled. */
  ghost predicate FoundCancelling(evs: seq<RunnerEvent>, id: TaskId) {
    exists k | 0 <= k < |evs| :: evs[k].Pump? && CancellingIn(evs[..k], id)
  }

  ghost predicate CancellingIn(evs: seq<RunnerEvent>, id: TaskId) {
    var slots := RunnerRun(evs).0.reg.slots;
    id in slots && slots[id].phase.Cancelling?
  }

  lemma FoundSnoc(front: seq<RunnerEvent>, e: RunnerEvent, id: TaskId)
    ensures FoundCancelling(front + [e], id) <==> FoundCancelling(front, id) || (e.Pump? && CancellingIn(front, id))
  {
    hide CancellingIn;
    var evs := front + [e];
    assert evs[|front|] == e && evs[..|front|] == front;
    if FoundCancelling(front, id) {
      var k :| 0 <= k < |front| && front[k].Pump? && CancellingIn(front[..k], id);
      assert evs[k] == front[k] && evs[..k] == front[..k];
    }
    if FoundCancelling(evs, id) {
      var k :| 0 <= k < |evs| && evs[k].Pump? && CancellingIn(evs[..k], id);
      if k < |front| {
        assert evs[k] == front[k] && evs[..k] == front[..k];
      }
    }
  }

  /** A held handle is flagged as `found` says, and a task not yet born was never found. */
  ghost predicate Flagged(rs: RunnerState, born: bool, found: bool, id: TaskId) {
    && (id in rs.handles ==> (rs.handles[id].cancelled <==> found))
    && (!born ==> !found)
  }

  lemma FlagStep(front: seq<RunnerEvent>, e: RunnerEvent, id: TaskId)
    requires Room(RegistryOf(front + [e]))
    requires Flagged(RunnerRun(front).0, BornIn(RegistryOf(front), id).Some?, FoundCancelling(front, id), id)
    ensures Flagged(RunnerRun(front + [e]).0, BornIn(RegistryOf(front + [e]), id).Some?,
                    FoundCancelling(front + [e], id), id)
  {
    hide Hist, Flat, RunnerStep, Room, FoundCancelling, Calls, FreshIds;
    var rs := RunnerRun(front).0;
    assert (front + [e])[..|front|] == front;
    FoldSnoc(RunnerStep, RunnerFresh(), front, e);
    AlwaysCoupled(front);
    FoundSnoc(front, e, id);
    if BornIn(RegistryOf(front), id).Some? {
      RunnerBirthsStay(front, e, id);
    }
    if id in rs.handles {
      HandleChat(front, id);
    }
    if e.Pump? {
      PumpFlags(rs, e.now, e.seen, id);
    } else {
      QuietHandles(rs, e);
      if e.Launch? {
        NextUnborn(front, e);
      }
    }
  }

  lemma NextUnborn(front: seq<RunnerEvent>, e: RunnerEvent)
    requires Room(RegistryOf(front + [e]))
    ensures RunnerRun(front).0.reg.nextId !in RegistryOf(front).births
  {
    hide Hist, Flat, RunnerRun, Calls;
    RunnerRoomEarlier(front, e);
    RunnerIsRegistryRun(front);
    NextIdAbove(MAX_CONCURRENT, INSTANCE, Flat(front));
  }

  lemma NoneFlaggedYet(id: TaskId)
    ensures Flagged(RunnerRun([]).0, BornIn(RegistryOf([]), id).Some?, FoundCancelling([], id), id)
  {
  }

  /** Over every run, a worker has been told to cancel exactly when some pump found its own task
      being cancelled. */
  lemma {:induction false} FlaggedIff(evs: seq<RunnerEvent>, id: TaskId)
    requires Room(RegistryOf(evs))
    ensures Flagged(RunnerRun(evs).0, BornIn(RegistryOf(evs), id).Some?, FoundCancelling(evs, id), id)
  {
    hide RunnerStep, Hist, Room, Flagged, Flat, RunnerRun, BornIn, FoundCancelling;
    if evs == [] {
      NoneFlaggedYet(id);
    } else {
      var front, e := evs[..|evs| - 1], evs[|evs| - 1];
      assert evs == front + [e];
      RunnerRoomEarlier(front, e);
      FlaggedIff(front, id);
      FlagStep(front, e, id);
    }
  }

  // ----- one notice for every ending -----

  /** The notices about one task among the messages sent. */
  function NoticesOf(sent: seq<Message>, id: TaskId): seq<Message> {
    if sent == [] then [] else
    var m := sent[|sent| - 1];
    NoticesOf(sent[..|sent| - 1], id) + (if m.Notice? && m.id == id then [m] else [])
  }

  /** The notices a trace of actions asks for about one task. */
  function Asked(t: seq<Action>, id: TaskId): seq<Message> {
    if t == [] then [] else
    var a := t[|t| - 1];
    Asked(t[..|t| - 1], id) + (if a.SendLine? && a.id == id then [Notice(a.chat, id, a.done)] else [])
  }

  lemma {:induction false} NoticesAppend(a: seq<Message>, b: seq<Message>, id: TaskId)
    ensures NoticesOf(a + b, id) == NoticesOf(a, id) + NoticesOf(b, id)
  {
    if b == [] {
      assert a + b == a;
    } else {
      assert (a + b)[..|a + b| - 1] == a + b[..|b| - 1];
      NoticesAppend(a, b[..|b| - 1], id);
    }
  }

  lemma {:induction false} AskedAppend(a: seq<Action>, b: seq<Action>, id: TaskId)
    ensures Asked(a + b, id) == Asked(a, id) + Asked(b, id)
  {
    if b == [] {
      assert a + b == a;
    } else {
      assert (a + b)[..|a + b| - 1] == a + b[..|b| - 1];
      AskedAppend(a, b[..|b| - 1], id);
    }
  }

  lemma {:induction false} NoticesAreAsked(actions: seq<Action>, id: TaskId)
    ensures NoticesOf(Notices(actions), id) == Asked(actions, id)
  {
    if actions != [] {
      var front, a := actions[..|actions| - 1], actions[|actions| - 1];
      NoticesAreAsked(front, id);
      NoticesAppend(Notices(front), if a.SendLine? then [Notice(a.chat, a.id, a.done)] else [], id);
    }
  }

  ghost predicate OnlyLines(sent: seq<Message>) {
    forall m | m in sent :: m.Forwarded?
  }

  lemma {:induction false} LinesAreNoNotices(sent: seq<Message>, id: TaskId)
    requires OnlyLines(sent)
    ensures NoticesOf(sent, id) == []
  {
    if sent != [] {
      assert sent[|sent| - 1] in sent;
      LinesAreNoNotices(sent[..|sent| - 1], id);
    }
  }

  lemma {:induction false} ForwardsAreLines(handles: map<TaskId, Handle>, ids: seq<TaskId>, seen: map<TaskId, Seen>)
    ensures OnlyLines(ForwardAll(handles, ids, seen))
  {
    if ids != [] {
      ForwardsAreLines(handles, ids[..|ids| - 1], seen);
    }
  }

  lemma PumpNotices(rs: RunnerState, now: u64, seen: map<TaskId, Seen>, id: TaskId)
    ensures var (n, actions) := RunnerStep(rs, Pump(now, seen));
            NoticesOf(n.sent, id) == NoticesOf(rs.sent, id) + Asked(actions, id)
  {
    hide Run, Calls, PerformAll, ForwardAll, Notices, NoticesOf, Asked, OnlyLines;
    var actions := RunnerStep(rs, Pump(now, seen)).1;
    var lines := ForwardAll(rs.handles, Ascending(rs.handles.Keys), seen);
    NoticesAppend(rs.sent + lines, Notices(actions), id);
    NoticesAppend(rs.sent, lines, id);
    ForwardsAreLines(rs.handles, Ascending(rs.handles.Keys), seen);
    LinesAreNoNotices(lines, id);
    NoticesAreAsked(actions, id);
    assert NoticesOf(rs.sent, id) + [] == NoticesOf(rs.sent, id);
  }

  lemma QuietAsks(rs: RunnerState, e: RunnerEvent, id: TaskId)
    requires !e.Pump?
    ensures RunnerStep(rs, e).1 == []
  {
    hide Step;
    RunnerStepCalls(rs, e);
    match e
    case Launch(chat, budget, now) =>
      var admit, mark := Admit(chat, budget, now), MarkRunning(rs.reg.nextId, now);
      OneStep(rs.reg, admit);
      TwoSteps(rs.reg, admit, mark);
      assert [admit] + [] == [admit] && [admit] + [mark] == [admit, mark];
      OnlyTicksSpeak(rs.reg, admit);
      OnlyTicksSpeak(Step(rs.reg, admit).0, mark);
    case CancelTask(task, chat) =>
      OneStep(rs.reg, Cancel(task, chat));
      OnlyTicksSpeak(rs.reg, Cancel(task, chat));
    case KillTask(task, chat) =>
      OneStep(rs.reg, Kill(task, chat));
      OnlyTicksSpeak(rs.reg, Kill(task, chat));
  }

  /** The notices sent are exactly those the registry's actions ask for, in order. */
  lemma {:induction false} NoticesSent(evs: seq<RunnerEvent>, id: TaskId)
    ensures var (rs, trace) := RunnerRun(evs); NoticesOf(rs.sent, id) == Asked(trace, id)
  {
    hide RunnerStep;
    if evs != [] {
      var front, e := evs[..|evs| - 1], evs[|evs| - 1];
      var (rs, trace) := RunnerRun(front);
      NoticesSent(front, id);
      FoldSnoc(RunnerStep, RunnerFresh(), front, e);
      assert evs == front + [e];
      AskedAppend(trace, RunnerStep(rs, e).1, id);
      if e.Pump? {
        PumpNotices(rs, e.now, e.seen, id);
      } else {
        QuietAsks(rs, e, id);
        SentStays(rs, e);
        assert Asked(trace, id) + [] == Asked(trace, id);
      }
    }
  }

  lemma {:induction false} AskedAbout(t: seq<Action>, id: TaskId)
    ensures Asked(t, id) == Asked(About(t, id), id)
  {
    if t != [] {
      var front, a := t[..|t| - 1], t[|t| - 1];
      AskedAbout(front, id);
      AskedAppend(About(front, id), if a.id == id then [a] else [], id);
      if a.id == id {
        assert [a][..0] == [];
      }
    }
  }

  lemma {:induction false} CancelsAskNothing(t: seq<Action>, id: TaskId)
    requires AllCancels(t, id)
    ensures Asked(t, id) == []
  {
    if t != [] {
      assert t[|t| - 1] in t;
      var front := t[..|t| - 1];
      forall a | a in front ensures a == Action.RequestCancel(id) {
        assert a in t;
      }
      CancelsAskNothing(front, id);
    }
  }

  lemma EndingAsks(id: TaskId, chat: ChatId, d: TaskDone)
    ensures Asked(EndActions(id, chat, d), id) == [Notice(chat, id, d)]
    ensures Finalize(id, d) in EndActions(id, chat, d)
  {
    var end := EndActions(id, chat, d);
    var line, last := [SendLine(chat, id, d)], [Finalize(id, d)];
    var stop := end[..|end| - 2];
    assert end == stop + line + last;
    AskedAppend(stop + line, last, id);
    AskedAppend(stop, line, id);
    assert last[..0] == [] && line[..0] == [] && stop[..0] == [];
    assert Asked(stop, id) == [];
    assert end[|end| - 1] == Finalize(id, d);
  }

  lemma ToldAsks(about: seq<Action>, id: TaskId, chat: ChatId, d: TaskDone)
    requires Told(about, id, chat, d)
    ensures Asked(about, id) == [Notice(chat, id, d)] && Finalize(id, d) in about
  {
    hide Asked;
    var end := EndActions(id, chat, d);
    var k := |about| - |end|;
    assert about == about[..k] + end;
    AskedAppend(about[..k], end, id);
    CancelsAskNothing(about[..k], id);
    EndingAsks(id, chat, d);
    assert [] + Asked(end, id) == Asked(end, id);
  }

  /** The chat that launched a task is told of its ending once, as it ended, and no chat is told
      anything of a task that has not ended. */
  lemma OneNotice(evs: seq<RunnerEvent>, id: TaskId)
    requires Room(RegistryOf(evs))
    ensures var (rs, trace) := RunnerRun(evs);
            var births := RegistryOf(evs).births;
            && (forall d | Finalize(id, d) in trace ::
                  id in births && NoticesOf(rs.sent, id) == [Notice(births[id].chat, id, d)])
            && ((forall d :: Finalize(id, d) !in trace) ==> NoticesOf(rs.sent, id) == [])
  {
    hide Hist, Flat, RunnerRun, FreshIds, Caused, Ordered, Told, NoticesOf, Asked;
    var (rs, trace) := RunnerRun(evs);
    var past := Past(MAX_CONCURRENT, INSTANCE, Flat(evs));
    var h := past.Now();
    RunnerIsRegistryRun(evs);
    RunnerIdsFresh(evs);
    NoticesSent(evs, id);
    AskedAbout(trace, id);
    EveryStory(MAX_CONCURRENT, INSTANCE, Flat(evs), id);
    forall d ensures Finalize(id, d) in trace <==> Finalize(id, d) in About(trace, id) {
      InAbout(trace, Finalize(id, d));
    }
    if id in h.births && id !in h.st.slots {
      var chat := h.births[id].chat;
      var told :| Told(About(trace, id), id, chat, told) && Caused(past, id, chat, told);
      ToldAsks(About(trace, id), id, chat, told);
      forall d | Finalize(id, d) in trace ensures d == told {
        var j :| 0 <= j < |trace| && trace[j] == Finalize(id, d);
        OnceInTrace(trace, id, chat, told, j, d);
      }
    } else {
      CancelsAskNothing(About(trace, id), id);
    }
  }

  // ----- in which order a pump sends -----

  /** Lines first, then notices, each by task id. */
  ghost predicate InOrder(m: seq<Message>) {
    forall i, j | 0 <= i < j < |m| ::
      (m[i].Notice? ==> m[j].Notice?) && (m[i].Notice? == m[j].Notice? ==> m[i].id <= m[j].id)
  }

  lemma {:induction false} ForwardsInOrder(handles: map<TaskId, Handle>, ids: seq<TaskId>, seen: map<TaskId, Seen>)
    requires forall i, j | 0 <= i < j < |ids| :: ids[i] < ids[j]
    ensures var m := ForwardAll(handles, ids, seen);
            InOrder(m) && OnlyLines(m) && forall x | x in m :: x.id in ids
  {
    if ids != [] {
      var front, last := ids[..|ids| - 1], ids[|ids| - 1];
      ForwardsInOrder(handles, front, seen);
      ForwardsSnoc(ForwardAll(handles, front, seen), ForwardsOf(handles, seen, last), front, last);
      assert ids == front + [last];
    }
  }

  lemma ForwardsSnoc(a: seq<Message>, b: seq<Message>, ids: seq<TaskId>, last: TaskId)
    requires InOrder(a) && OnlyLines(a) && forall x | x in a :: x.id in ids
    requires forall x | x in b :: x.Forwarded? && x.id == last
    requires forall k | k in ids :: k < last
    ensures InOrder(a + b) && OnlyLines(a + b) && forall x | x in a + b :: x.id in ids + [last]
  {
    var all := a + b;
    forall x | x in all ensures x.Forwarded? && x.id in ids + [last] {
      assert x in a || x in b;
    }
    forall i, j | 0 <= i < j < |all|
      ensures (all[i].Notice? ==> all[j].Notice?) && (all[i].Notice? == all[j].Notice? ==> all[i].id <= all[j].id)
    {
      assert all[i] in all && all[j] in all;
      assert i < |a| ==> all[i] == a[i] && a[i] in a;
      assert i >= |a| ==> all[i] == b[i - |a|] && b[i - |a|] in b;
      assert j < |a| ==> all[j] == a[j] && a[j] in a;
      assert j >= |a| ==> all[j] == b[j - |a|] && b[j - |a|] in b;
    }
  }

  lemma {:induction false} NoticesInOrder(actions: seq<Action>)
    requires Orderly(actions)
    ensures var m := Notices(actions);
            && InOrder(m)
            && (forall x | x in m :: x.Notice? && exists i | 0 <= i < |actions| :: NoticeOf(actions[i], x))
  {
    if actions != [] {
      var front, a := actions[..|actions| - 1], actions[|actions| - 1];
      NoticesInOrder(front);
      var m, all := Notices(front), Notices(actions);
      forall x | x in all ensures x.Notice? && exists i | 0 <= i < |actions| :: NoticeOf(actions[i], x) {
        if x in m {
          var i :| 0 <= i < |front| && NoticeOf(front[i], x);
          assert actions[i] == front[i];
        } else {
          assert NoticeOf(actions[|actions| - 1], x);
        }
      }
      forall i, j | 0 <= i < j < |all|
        ensures (all[i].Notice? ==> all[j].Notice?) && (all[i].Notice? == all[j].Notice? ==> all[i].id <= all[j].id)
      {
        assert all[i] in all && all[j] in all;
        assert all[i] == m[i] && m[i] in m;
        if j == |m| {
          var k :| 0 <= k < |front| && NoticeOf(front[k], all[i]);
          assert front[k] == actions[k];
        } else {
          assert all[j] == m[j];
        }
      }
    }
  }

  ghost predicate NoticeOf(a: Action, m: Message) {
    a.SendLine? && m == Notice(a.chat, a.id, a.done)
  }

  lemma LinesThenNotices(a: seq<Message>, b: seq<Message>)
    requires InOrder(a) && OnlyLines(a) && InOrder(b) && forall x | x in b :: x.Notice?
    ensures InOrder(a + b)
  {
    var all := a + b;
    forall i, j | 0 <= i < j < |all|
      ensures (all[i].Notice? ==> all[j].Notice?) && (all[i].Notice? == all[j].Notice? ==> all[i].id <= all[j].id)
    {
      assert i < |a| ==> all[i] == a[i] && a[i] in a;
      assert i >= |a| ==> all[i] == b[i - |a|] && b[i - |a|] in b;
      assert j < |a| ==> all[j] == a[j] && a[j] in a;
      assert j >= |a| ==> all[j] == b[j - |a|] && b[j - |a|] in b;
    }
  }

  /** A pump adds to what was sent: first the workers' lines by task id, then the notices by task id. */
  lemma PumpSendsInOrder(rs: RunnerState, now: u64, seen: map<TaskId, Seen>)
    requires Coupled(rs)
    ensures var n := RunnerStep(rs, Pump(now, seen)).0;
            rs.sent <= n.sent && InOrder(n.sent[|rs.sent|..])
  {
    hide Step, RunnerStep, PerformAll, FedState, ForwardAll, Notices, Orderly, InOrder, OnlyLines;
    var fed := FedState(rs, now, seen);
    var actions := Step(fed, Tick(now)).1;
    var ids := Ascending(rs.handles.Keys);
    PumpStep(rs, now, seen);
    TickOrdered(fed, now);
    ForwardsInOrder(rs.handles, ids, seen);
    NoticesInOrder(actions);
    var lines, notices := ForwardAll(rs.handles, ids, seen), Notices(actions);
    LinesThenNotices(lines, notices);
    var n := RunnerStep(rs, Pump(now, seen)).0;
    assert n.sent == rs.sent + (lines + notices);
    assert n.sent[|rs.sent|..] == lines + notices;
  }
}
