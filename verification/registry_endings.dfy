/** What the registry says and when: the order of a tick's actions, the announcement of every
    ending, the phase a task is in, and the ids it hands out. */
module RegistryEndings {
  import opened Foundation
  import opened Supervisor
  import opened RegistryModel
  import opened RegistryRuns
  import opened RegistryConservation

  // ----- one tick -----

  /** Exactly what a tick says about a task: a request to stop if it is being cancelled, and if the
      tick decides an ending, a hard stop for a kill or a spent budget, the notice of that ending
      to the task's chat, and its finalization. */
  lemma TickSays(st: RegState, now: u64, id: TaskId)
    ensures var said := About(Step(st, Tick(now)).1, id);
            if id !in st.slots then said == []
            else
              var s, t := st.slots[id], Ticked(st.slots[id], now);
              var asked := if s.phase.Cancelling? then [RequestCancel(id)] else [];
              if !t.phase.Done? then said == asked
              else
                var d := t.phase.done;
                var stop := if d.Killed? || d.BudgetExhausted? then [HardKill(id)] else [];
                said == asked + (stop + [SendLine(s.chat, id, d), Finalize(id, d)])
  {
    hide Step, Ticked;
    TickPointwise(st, now, id);
    if id in st.slots {
      TickKeepsChat(st.slots[id], now);
    }
    var asked := if id in st.slots && st.slots[id].phase.Cancelling? then [RequestCancel(id)] else [];
    assert asked + [] == asked;
  }

  /** A tick asks exactly the cancelling tasks to stop. */
  lemma TickAsks(st: RegState, now: u64, id: TaskId)
    ensures RequestCancel(id) in Step(st, Tick(now)).1 <==> id in st.slots && st.slots[id].phase.Cancelling?
  {
    hide Step, Ticked;
    TickSays(st, now, id);
    InAbout(Step(st, Tick(now)).1, RequestCancel(id));
  }

  /** All requests to stop come first, by id; then everything else, by id. */
  ghost predicate Orderly(t: seq<Action>) {
    forall i, j | 0 <= i < j < |t| ::
      && (t[j].RequestCancel? ==> t[i].RequestCancel? && t[i].id < t[j].id)
      && (!t[i].RequestCancel? ==> t[i].id <= t[j].id)
  }

  ghost predicate FromPart(t: seq<Action>, part: Part, ids: seq<TaskId>) {
    && (forall a | a in t :: (a.RequestCancel? <==> part.Cancels?) && a.id in ids)
    && Orderly(t)
  }

  lemma EmitFrom(part: Part, slots: map<TaskId, TaskSlot>, id: TaskId)
    ensures FromPart(Emit(part, slots, id), part, [id])
  {
  }

  lemma FromPartSnoc(t: seq<Action>, x: seq<Action>, part: Part, ids: seq<TaskId>, id: TaskId)
    requires FromPart(t, part, ids) && FromPart(x, part, [id])
    requires forall k | k in ids :: k < id
    ensures FromPart(t + x, part, ids + [id])
  {
    var all := t + x;
    forall a | a in all ensures (a.RequestCancel? <==> part.Cancels?) && a.id in ids + [id] {
      assert a in t || a in x;
    }
    forall i, j | 0 <= i < j < |all|
      ensures (all[j].RequestCancel? ==> all[i].RequestCancel? && all[i].id < all[j].id)
              && (!all[i].RequestCancel? ==> all[i].id <= all[j].id)
    {
      assert all[i] in all && all[j] in all;
      if j >= |t| {
        assert all[j] == x[j - |t|] && x[j - |t|] in x;
        if i >= |t| {
          assert all[i] == x[i - |t|];
        } else {
          assert all[i] == t[i] && t[i] in t;
        }
      } else {
        assert all[i] == t[i] && all[j] == t[j];
      }
    }
  }

  lemma {:induction false} CollectFrom(part: Part, slots: map<TaskId, TaskSlot>, ids: seq<TaskId>)
    requires forall i, j | 0 <= i < j < |ids| :: ids[i] < ids[j]
    ensures FromPart(Collect(part, slots, ids), part, ids)
  {
    hide Emit;
    if ids != [] {
      hide FromPart;
      var front, last := ids[..|ids| - 1], ids[|ids| - 1];
      CollectFrom(part, slots, front);
      EmitFrom(part, slots, last);
      FromPartSnoc(Collect(part, slots, front), Emit(part, slots, last), part, front, last);
      assert front + [last] == ids;
    }
  }

  /** A tick first asks the cancelling workers to stop, then reports the endings, each in id order. */
  lemma TickOrdered(st: RegState, now: u64)
    ensures Orderly(Step(st, Tick(now)).1)
  {
    hide Ticked, Collect, TickedSlots, FromPart;
    var ids := Ascending(st.slots.Keys);
    CollectFrom(Cancels, st.slots, ids);
    CollectFrom(Ends, TickedSlots(st.slots, now), ids);
    CancelsFirst(Collect(Cancels, st.slots, ids), Collect(Ends, TickedSlots(st.slots, now), ids), ids);
  }

  lemma CancelsFirst(a: seq<Action>, b: seq<Action>, ids: seq<TaskId>)
    requires FromPart(a, Cancels, ids) && FromPart(b, Ends, ids)
    ensures Orderly(a + b)
  {
    var all := a + b;
    forall i, j | 0 <= i < j < |all|
      ensures (all[j].RequestCancel? ==> all[i].RequestCancel? && all[i].id < all[j].id)
              && (!all[i].RequestCancel? ==> all[i].id <= all[j].id)
    {
      assert i < |a| ==> all[i] == a[i] && a[i] in a;
      assert i >= |a| ==> all[i] == b[i - |a|] && b[i - |a|] in b;
      assert j < |a| ==> all[j] == a[j] && a[j] in a;
      assert j >= |a| ==> all[j] == b[j - |a|] && b[j - |a|] in b;
    }
  }

  // ----- every ending is announced -----

  /** A finalization comes right after the notice of the same ending, and a notice right before
      its finalization. */
  ghost predicate PairedAt(t: seq<Action>, j: nat)
    requires j < |t|
  {
    && (t[j].Finalize? ==> j > 0 && t[j - 1].SendLine? && t[j - 1].id == t[j].id && t[j - 1].done == t[j].done)
    && (t[j].SendLine? ==> j + 1 < |t| && t[j + 1] == Finalize(t[j].id, t[j].done))
  }

  ghost predicate Paired(t: seq<Action>) {
    forall j | 0 <= j < |t| :: PairedAt(t, j)
  }

  lemma PairedAppend(a: seq<Action>, b: seq<Action>)
    requires Paired(a) && Paired(b)
    ensures Paired(a + b)
  {
    var t := a + b;
    forall j | 0 <= j < |t| ensures PairedAt(t, j) {
      if j >= |a| {
        assert PairedAt(b, j - |a|);
        assert t[j] == b[j - |a|];
        assert j > |a| ==> t[j - 1] == b[j - |a| - 1];
        assert j + 1 < |t| ==> t[j + 1] == b[j - |a| + 1];
      } else {
        assert PairedAt(a, j);
        assert t[j] == a[j];
        assert j > 0 ==> t[j - 1] == a[j - 1];
        assert j + 1 < |a| ==> t[j + 1] == a[j + 1];
      }
    }
  }

  lemma EmitPaired(part: Part, slots: map<TaskId, TaskSlot>, id: TaskId)
    ensures Paired(Emit(part, slots, id))
  {
  }

  lemma {:induction false} CollectPaired(part: Part, slots: map<TaskId, TaskSlot>, ids: seq<TaskId>)
    ensures Paired(Collect(part, slots, ids))
  {
    hide Emit;
    if ids != [] {
      hide Paired;
      CollectPaired(part, slots, ids[..|ids| - 1]);
      EmitPaired(part, slots, ids[|ids| - 1]);
      PairedAppend(Collect(part, slots, ids[..|ids| - 1]), Emit(part, slots, ids[|ids| - 1]));
    }
  }

  lemma StepPaired(st: RegState, e: Event)
    ensures Paired(Step(st, e).1)
  {
    hide Collect, TickedSlots;
    if e.Tick? {
      hide Paired;
      var ids := Ascending(st.slots.Keys);
      CollectPaired(Cancels, st.slots, ids);
      CollectPaired(Ends, TickedSlots(st.slots, e.now), ids);
      PairedAppend(Collect(Cancels, st.slots, ids), Collect(Ends, TickedSlots(st.slots, e.now), ids));
    }
  }

  lemma {:induction false} AlwaysPaired(max: nat, owner: u64, evs: seq<Event>)
    ensures Paired(Hist(max, owner, evs).trace)
  {
    hide Step, NextBirths, NextLife, NextTally;
    if evs != [] {
      hide Paired;
      var h := Hist(max, owner, evs[..|evs| - 1]);
      AlwaysPaired(max, owner, evs[..|evs| - 1]);
      StepPaired(h.st, evs[|evs| - 1]);
      PairedAppend(h.trace, Step(h.st, evs[|evs| - 1]).1);
    }
  }

  /** Every notice goes to the chat its task was born with. */
  ghost predicate ToOwnChat(h: History, c: ChatId, id: TaskId, d: TaskDone) {
    SendLine(c, id, d) in h.trace ==> id in h.births && h.births[id].chat == c
  }

  lemma SpokenChat(h: History, e: Event, c: ChatId, id: TaskId, d: TaskDone)
    requires AllOk(h) && SendLine(c, id, d) in Step(h.st, e).1
    ensures e.Tick? && id in h.births && h.births[id].chat == c
  {
    hide Step, Ticked;
    if e.Tick? {
      TickSays(h.st, e.now, id);
      InAbout(Step(h.st, e).1, SendLine(c, id, d));
      if id in h.st.slots {
        assert SlotOk(h, id);
      }
    } else {
      OnlyTicksSpeak(h.st, e);
    }
  }

  lemma {:induction false} OwnChat(max: nat, owner: u64, evs: seq<Event>, c: ChatId, id: TaskId, d: TaskDone)
    requires FreshIds(max, owner, evs)
    ensures ToOwnChat(Hist(max, owner, evs), c, id, d)
  {
    hide Step, NextLife, NextTally;
    if evs != [] {
      var front, e := evs[..|evs| - 1], evs[|evs| - 1];
      var h := Hist(max, owner, front);
      OwnChat(max, owner, front, c, id, d);
      SlotsOk(max, owner, front);
      assert Hist(max, owner, evs).trace == h.trace + Step(h.st, e).1;
      if SendLine(c, id, d) in Step(h.st, e).1 {
        SpokenChat(h, e, c, id, d);
      }
    }
  }

  /** Over every run without id reuse, a task's finalization comes right after the notice of the
      same ending to the chat it was born with, and no notice is sent otherwise. */
  lemma EveryEndingAnnounced(max: nat, owner: u64, evs: seq<Event>, id: TaskId, j: nat, d: TaskDone)
    requires FreshIds(max, owner, evs)
    ensures var h := Hist(max, owner, evs);
            j < |h.trace| && h.trace[j] == Finalize(id, d) ==>
              id in h.births && j > 0 && h.trace[j - 1] == SendLine(h.births[id].chat, id, d)
    ensures forall c :: var h := Hist(max, owner, evs);
              j < |h.trace| && h.trace[j] == SendLine(c, id, d) ==>
                && id in h.births && c == h.births[id].chat
                && j + 1 < |h.trace| && h.trace[j + 1] == Finalize(id, d)
  {
    hide Hist, FreshIds;
    var t := Hist(max, owner, evs).trace;
    AlwaysPaired(max, owner, evs);
    assert j < |t| ==> PairedAt(t, j);
    if j < |t| && t[j] == Finalize(id, d) {
      assert t[j - 1] in t;
      OwnChat(max, owner, evs, t[j - 1].chat, id, d);
    }
    forall c | j < |t| && t[j] == SendLine(c, id, d)
      ensures id in Hist(max, owner, evs).births && c == Hist(max, owner, evs).births[id].chat
      ensures j + 1 < |t| && t[j + 1] == Finalize(id, d)
    {
      assert t[j] in t;
      OwnChat(max, owner, evs, c, id, d);
    }
  }

  // ----- the phase of an active task -----

  /** The task was marked running while it was active. */
  ghost predicate Marked(past: Past, id: TaskId, chat: ChatId) {
    exists k | 0 <= k < |past.evs| ::
      past.evs[k].MarkRunning? && past.evs[k].id == id && ActiveFor(past.Before(k).Now().st, id, chat)
  }

  lemma OrderedSnoc(past: Past, e: Event, order: Event, id: TaskId, chat: ChatId)
    ensures Ordered(past.After(e), order, id, chat)
            <==> Ordered(past, order, id, chat) || (e == order && ActiveFor(past.Now().st, id, chat))
  {
    hide Hist, ActiveFor;
    var later := past.After(e);
    BeforeAfter(past, e, |past.evs|);
    if Ordered(past, order, id, chat) {
      OrderedLater(past, e, order, id, chat);
    }
    if e == order && ActiveFor(past.Now().st, id, chat) {
      OrderedNow(past, e, id, chat);
    }
    if Ordered(later, order, id, chat) {
      var k :| 0 <= k < |later.evs| && later.evs[k] == order && ActiveFor(later.Before(k).Now().st, id, chat);
      if k < |past.evs| {
        BeforeAfter(past, e, k);
        assert past.evs[k] == order;
      }
    }
  }

  lemma MarkedSnoc(past: Past, e: Event, id: TaskId, chat: ChatId)
    ensures Marked(past.After(e), id, chat)
            <==> Marked(past, id, chat) || (e.MarkRunning? && e.id == id && ActiveFor(past.Now().st, id, chat))
  {
    hide Hist, ActiveFor;
    var later := past.After(e);
    BeforeAfter(past, e, |past.evs|);
    if Marked(past, id, chat) {
      var k :| 0 <= k < |past.evs| && past.evs[k].MarkRunning? && past.evs[k].id == id
               && ActiveFor(past.Before(k).Now().st, id, chat);
      BeforeAfter(past, e, k);
      assert later.evs[k] == past.evs[k];
    }
    if e.MarkRunning? && e.id == id && ActiveFor(past.Now().st, id, chat) {
      assert later.evs[|past.evs|] == e;
    }
    if Marked(later, id, chat) {
      var k :| 0 <= k < |later.evs| && later.evs[k].MarkRunning? && later.evs[k].id == id
               && ActiveFor(later.Before(k).Now().st, id, chat);
      if k < |past.evs| {
        BeforeAfter(past, e, k);
        assert past.evs[k] == later.evs[k];
      }
    }
  }

  /** The phase of the task is the one its acted orders leave it in; one not yet born has none. */
  ghost predicate PhaseFits(past: Past, id: TaskId, chat: ChatId) {
    var h, cancelled, marked := past.Now(), Ordered(past, Cancel(id, chat), id, chat), Marked(past, id, chat);
    && (id !in h.births ==> !cancelled && !marked)
    && (ActiveFor(h.st, id, chat) ==>
          h.st.slots[id].phase == if cancelled then Cancelling else if marked then Running else Pending)
  }

  lemma PhaseMoves(s: TaskSlot, e: Event)
    requires e.OnOneSlot() && !s.phase.Done?
    ensures var n := OnSlot(s, e);
            && n.chat == s.chat
            && (n.phase.Done? ||
                n.phase == if e == Cancel(e.id, s.chat) then Cancelling
                           else if e.MarkRunning? && s.phase.Pending? then Running
                           else s.phase)
  {
  }

  lemma TickKeepsPhase(s: TaskSlot, now: u64)
    ensures Ticked(s, now).phase.Done? || Ticked(s, now).phase == s.phase
  {
  }

  lemma PhaseStep(past: Past, e: Event, id: TaskId, chat: ChatId)
    requires PhaseFits(past, id, chat) && AllOk(past.Now())
    requires Admits(past.Now().st, e) ==> past.Now().st.nextId !in past.Now().births
    requires Adopts(past.Now().st, e) ==> e.snap.id !in past.Now().births
    ensures PhaseFits(past.After(e), id, chat)
  {
    hide Hist, Ordered, Marked, OnSlot, Ticked, TickActions, TickedSlots, Ended, Fits;
    var h := past.Now();
    var n := Next(h, e);
    HistAfter(past, e);
    OrderedSnoc(past, e, Cancel(id, chat), id, chat);
    MarkedSnoc(past, e, id, chat);
    if id in h.st.slots {
      assert SlotOk(h, id);
    }
    if ActiveFor(n.st, id, chat) {
      NextSlot(h, e, id);
      if id in h.st.slots {
        if e.Tick? {
          TickKeepsPhase(h.st.slots[id], e.now);
          TickKeepsChat(h.st.slots[id], e.now);
        } else if e.OnOneSlot() && e.id == id {
          if h.st.slots[id].phase.Done? {
            DoneStays(h.st.slots[id], e);
          } else {
            PhaseMoves(h.st.slots[id], e);
          }
        }
      }
    }
  }

  lemma NextSlot(h: History, e: Event, id: TaskId)
    requires id in Next(h, e).st.slots
    ensures var s := Next(h, e).st.slots[id];
            if Admits(h.st, e) && id == h.st.nextId then s.phase == Pending
            else if Adopts(h.st, e) && id == e.snap.id then s.phase == AdoptedPhase(e.snap) && !s.phase.Cancelling?
                                                            && !s.phase.Running?
            else id in h.st.slots && s == if e.Tick? then Ticked(h.st.slots[id], e.now)
                                          else if e.OnOneSlot() && e.id == id then OnSlot(h.st.slots[id], e)
                                          else h.st.slots[id]
  {
    SlotAfter(h.st, e, id);
  }

  /** Over every run without id reuse: an active task is being cancelled exactly when its chat
      ordered that while it was active, otherwise running exactly when it was marked so while
      active, and pending otherwise. */
  lemma {:induction false} PhaseIs(max: nat, owner: u64, evs: seq<Event>, id: TaskId, chat: ChatId)
    requires FreshIds(max, owner, evs)
    ensures PhaseFits(Past(max, owner, evs), id, chat)
  {
    hide Next;
    if evs != [] {
      hide PhaseFits;
      var front, e := evs[..|evs| - 1], evs[|evs| - 1];
      PhaseIs(max, owner, front, id, chat);
      SlotsOk(max, owner, front);
      assert evs == front + [e];
      PhaseStep(Past(max, owner, front), e, id, chat);
    }
  }

  // ----- ids -----

  /** The next id after an adoption is the least one that is not below the last and is above the
      adopted id. */
  lemma AdoptionBumps(st: RegState, snap: TaskSnapshot, now: u64)
    requires Adopts(st, Adopt(snap, true, now)) && snap.id < U64_MAX
    ensures var n := Step(st, Adopt(snap, true, now)).0.nextId;
            && st.nextId <= n && snap.id < n
            && (n == st.nextId || n == snap.id + 1)
  {
  }

  /** Without adoption the ids handed out are exactly 1, 2, 3 and so on. */
  lemma {:induction false} IdsConsecutive(max: nat, owner: u64, evs: seq<Event>)
    requires AdoptionFree(evs) && Room(Hist(max, owner, evs))
    ensures var h := Hist(max, owner, evs);
            && h.st.nextId == 1 + h.tally.admitted
            && forall id :: id in h.births <==> 1 <= id <= h.tally.admitted
  {
    hide OnSlot, TickActions, TickedSlots;
    if evs != [] {
      var front, e := evs[..|evs| - 1], evs[|evs| - 1];
      RoomBefore(Hist(max, owner, front), e);
      assert e in evs;
      NoAdopted(max, owner, evs);
      IdsConsecutive(max, owner, front);
    }
  }

  lemma {:induction false} NoAdopted(max: nat, owner: u64, evs: seq<Event>)
    requires AdoptionFree(evs)
    ensures Hist(max, owner, evs).tally.highest == 0
  {
    hide Step, NextBirths, NextLife;
    if evs != [] {
      assert evs[|evs| - 1] in evs;
      NoAdopted(max, owner, evs[..|evs| - 1]);
    }
  }
}
