/** The registry as the daemon runs it: fields updated in place, each call proved to be the
    corresponding `Step` of the state machine. */
module Registry {
  import opened Foundation
  import opened Supervisor
  import opened RegistryModel

  class TaskRegistry {
    var slots: map<TaskId, TaskSlot>
    const sched: Scheduler
    const owner: u64
    var nextId: u64

    ghost predicate Valid()
      reads this
    {
      forall id | id in slots :: slots[id].id == id
    }

    ghost function State(): RegState
      reads this, sched
    {
      RegState(slots, sched.running, sched.maxConcurrent, owner, nextId)
    }

    constructor (max: nat, owner: u64)
      ensures Valid() && fresh(sched) && State() == Fresh(max, owner)
    {
      slots := map[];
      sched := new Scheduler(max);
      this.owner := owner;
      nextId := 1;
    }

    method Admit(chat: ChatId, budget: Budget, now: u64) returns (r: Result<TaskId, AdmitError>)
      requires Valid()
      modifies this, sched
      ensures Valid() && State() == Step(old(State()), RegistryModel.Admit(chat, budget, now)).0
      ensures r == if old(sched.running) < sched.maxConcurrent then Ok(old(nextId)) else Err(ConcurrencyCap)
    {
      var reserved := sched.TrySpawn();
      if !reserved {
        return Err(ConcurrencyCap);
      }
      var id := nextId;
      nextId := WrapInc(nextId);
      slots := slots[id := TaskSlot(id, chat, Pending, Granted(owner, now), budget, NO_USAGE, now, now)];
      r := Ok(id);
    }

    method MarkRunning(id: TaskId, now: u64)
      requires Valid()
      modifies this`slots
      ensures Valid() && State() == Step(old(State()), RegistryModel.MarkRunning(id, now)).0
    {
      if id in slots {
        var slot := slots[id];
        if slot.phase == Pending {
          slot := slot.(phase := Running, lease := slot.lease.Refreshed(now));
        }
        slots := slots[id := slot];
      }
    }

    method ObserveProgress(id: TaskId, bytes: u64, now: u64)
      requires Valid()
      modifies this`slots
      ensures Valid() && State() == Step(old(State()), Progress(id, bytes, now)).0
    {
      if id in slots {
        var slot := slots[id];
        if slot.phase.Done? {
          assert slots[id := slot] == slots;
          return;
        }
        slot := slot.(lease := slot.lease.Refreshed(now));
        var delta := Usage(SatSub(now, slot.lastChargeAt), bytes, 0);
        match Charge(slot.usage, delta, slot.budget) {
          case Ok(next) => slot := slot.(usage := next, lastChargeAt := now);
          case Err(axis) => slot := slot.(phase := Done(BudgetExhausted(axis)));
        }
        slots := slots[id := slot];
      }
    }

    method Heartbeat(id: TaskId, now: u64)
      requires Valid()
      modifies this`slots
      ensures Valid() && State() == Step(old(State()), RegistryModel.Heartbeat(id, now)).0
    {
      if id in slots {
        var slot := slots[id];
        if !slot.phase.Done? {
          slot := slot.(lease := slot.lease.Refreshed(now));
        }
        slots := slots[id := slot];
      }
    }

    method ObserveFinished(id: TaskId)
      requires Valid()
      modifies this`slots
      ensures Valid() && State() == Step(old(State()), Finished(id)).0
    {
      if id in slots {
        var slot := slots[id];
        if !slot.phase.Done? {
          slot := slot.(phase := Done(Completed));
        }
        slots := slots[id := slot];
      }
    }

    method RequestCancel(id: TaskId, chat: ChatId) returns (acted: bool)
      requires Valid()
      modifies this`slots
      ensures Valid() && State() == Step(old(State()), Cancel(id, chat)).0
      ensures acted <==> id in old(slots) && old(slots)[id].chat == chat && !old(slots)[id].phase.Done?
    {
      acted := false;
      if id in slots {
        var slot := slots[id];
        if slot.chat == chat && !slot.phase.Done? {
          slot := slot.(phase := Cancelling);
          acted := true;
        }
        slots := slots[id := slot];
      }
    }

    method RequestKill(id: TaskId, chat: ChatId) returns (acted: bool)
      requires Valid()
      modifies this`slots
      ensures Valid() && State() == Step(old(State()), Kill(id, chat)).0
      ensures acted <==> id in old(slots) && old(slots)[id].chat == chat && !old(slots)[id].phase.Done?
    {
      acted := false;
      if id in slots {
        var slot := slots[id];
        if slot.chat == chat && !slot.phase.Done? {
          slot := slot.(phase := Done(Killed));
          acted := true;
        }
        slots := slots[id := slot];
      }
    }

    /** Re-leases a task from a dump, carrying its usage; the scheduler is not asked. */
    method AdoptFromSnapshot(snap: TaskSnapshot, present: bool, now: u64) returns (r: Result<TaskId, AdoptError>)
      requires Valid()
      modifies this
      ensures Valid() && State() == Step(old(State()), Adopt(snap, present, now)).0
      ensures r == if snap.id in old(slots) then Err(Duplicate) else if !present then Err(WorktreeGone) else Ok(snap.id)
    {
      if snap.id in slots {
        return Err(Duplicate);
      }
      if !present {
        return Err(WorktreeGone);
      }
      var phase;
      match Charge(snap.usage, NO_USAGE, snap.budget) {
        case Err(axis) => phase := Done(BudgetExhausted(axis));
        case Ok(_) => phase := Pending;
      }
      var lease := Granted(owner, now);
      slots := slots[snap.id := TaskSlot(snap.id, snap.chat, phase, lease, snap.budget, snap.usage, now, now)];
      if nextId <= snap.id {
        nextId := WrapInc(snap.id);
      }
      r := Ok(snap.id);
    }

    /** Every non-terminal task, in id order, for a dump. */
    method SnapshotEvery(now: u64) returns (snaps: seq<TaskSnapshot>)
      ensures snaps == SnapshotAll(State(), now)
    {
      hide Ascending, SnapshotOf, SnapshotIds;
      var ids := Ascending(slots.Keys);
      snaps := [];
      NoSnapshots(slots, now);
      assert ids[..0] == [];
      for i := 0 to |ids|
        invariant snaps == SnapshotIds(slots, ids[..i], now)
      {
        SnapshotSnoc(slots, ids, i, now);
        var s := slots[ids[i]];
        if !s.phase.Done? {
          snaps := snaps + [SnapshotOf(s, now)];
        }
      }
      assert ids[..|ids|] == ids;
    }

    /** The only place lifecycle decisions are made: charge, expire, ask to cancel, finalize. */
    method Tick(now: u64) returns (actions: seq<Action>)
      requires Valid()
      modifies this, sched
      ensures Valid() && nextId == old(nextId)
      ensures (State(), actions) == Step(old(State()), RegistryModel.Tick(now))
    {
      hide Step, Collect, Ended, TickedSlots, Ascending;
      var ids := Ascending(slots.Keys);
      actions := DecideAll(ids, now);
      var reports := FinalizeAll(ids);
      actions := actions + reports;
      PassesMakeTick(old(State()), now);
    }

    /** First pass: each slot in id order. */
    method DecideAll(ids: seq<TaskId>, now: u64) returns (actions: seq<Action>)
      requires Valid() && ids == Ascending(slots.Keys)
      modifies this`slots
      ensures Valid() && slots == TickedSlots(old(slots), now) && slots.Keys == old(slots.Keys)
      ensures actions == Collect(Cancels, old(slots), ids)
    {
      hide Ticked, Collect, Ascending, TickedUpTo;
      actions := [];
      ghost var before := slots;
      NoneTicked(before, ids, now);
      for i := 0 to |ids|
        invariant slots == TickedUpTo(before, ids, i, now)
        invariant actions == Collect(Cancels, before, ids[..i])
      {
        OneMoreTicked(before, ids, i, now);
        CollectSnoc(Cancels, before, ids, i);
        var slot := slots[ids[i]];
        if slot.phase.Cancelling? {
          actions := actions + [Action.RequestCancel(slot.id)];
        }
        var decided := Decide(slot, now);
        slots := slots[ids[i] := decided];
      }
      AllTicked(before, ids, now);
      assert ids[..|ids|] == ids;
    }

    /** The lifecycle decision for one slot. */
    static method Decide(old_slot: TaskSlot, now: u64) returns (slot: TaskSlot)
      ensures slot == Ticked(old_slot, now)
    {
      slot := old_slot;
      match slot.phase {
        case Done(_) =>
        case Cancelling =>
          if slot.lease.ExpiredAt(now) {
            slot := slot.(phase := Done(Killed));
          }
        case _ =>
          var delta := Usage(SatSub(now, slot.lastChargeAt), 0, 0);
          match Charge(slot.usage, delta, slot.budget) {
            case Ok(next) =>
              slot := slot.(usage := next, lastChargeAt := now);
            case Err(axis) =>
              slot := slot.(phase := Done(BudgetExhausted(axis)));
              return;
          }
          if slot.lease.ExpiredAt(now) {
            slot := slot.(phase := Done(Expired));
          }
      }
    }

    /** Second pass: list the terminal tasks, then report each, forget it and free its slot. */
    method FinalizeAll(ids: seq<TaskId>) returns (actions: seq<Action>)
      requires Valid() && ids == Ascending(slots.Keys)
      modifies this`slots, sched
      ensures Valid() && slots == old(slots) - Ended(old(slots))
      ensures sched.running == Max(old(sched.running) - |Ended(old(slots))|, 0)
      ensures actions == Collect(Ends, old(slots), ids)
    {
      hide Collect, Ascending, Ended, IdsOf, Reported, EndActions;
      ghost var before := slots;
      var terminal := ListTerminal(ids);
      actions := [];
      NoneListed(slots);
      assert terminal[..0] == [] && slots - {} == slots;
      for k := 0 to |terminal|
        invariant slots == before - IdsOf(terminal[..k])
        invariant sched.running == Max(old(sched.running) - k, 0)
        invariant actions == Reported(terminal[..k])
      {
        var t := terminal[k];
        var report := ReportEnding(t);
        actions := actions + report;
        slots := slots - {t.id};
        sched.Finish();
        ForgetStep(before, terminal, k);
      }
      assert terminal[..|terminal|] == terminal;
    }

    /** A task killed or out of budget is hard-stopped before it is forgotten. */
    static method ReportEnding(t: Terminal) returns (actions: seq<Action>)
      ensures actions == EndActions(t.id, t.chat, t.done)
    {
      actions := [];
      if t.done.Killed? || t.done.BudgetExhausted? {
        actions := actions + [HardKill(t.id)];
      }
      actions := actions + [SendLine(t.chat, t.id, t.done)];
      actions := actions + [Finalize(t.id, t.done)];
    }

    method ListTerminal(ids: seq<TaskId>) returns (terminal: seq<Terminal>)
      requires Valid() && ids == Ascending(slots.Keys)
      ensures IdsOf(terminal) == Ended(slots) && |terminal| == |Ended(slots)|
      ensures Reported(terminal) == Collect(Ends, slots, ids)
    {
      hide Collect, Ascending, IdsOf, Reported, EndedAmong, Ended;
      terminal := [];
      NoneListed(slots);
      for i := 0 to |ids|
        invariant IdsOf(terminal) == EndedAmong(slots, ids[..i]) && |terminal| == |EndedAmong(slots, ids[..i])|
        invariant Reported(terminal) == Collect(Ends, slots, ids[..i])
      {
        var s := slots[ids[i]];
        EndedSnoc(slots, ids, i);
        CollectSnoc(Ends, slots, ids, i);
        if s.phase.Done? {
          var t := Terminal(s.id, s.chat, s.phase.done);
          ListedSnoc(terminal, t);
          terminal := terminal + [t];
        }
      }
      assert ids[..|ids|] == ids;
      AllListed(slots, ids);
    }
  }

  // ----- the passes as functions of what they have covered -----

  lemma PassesMakeTick(st: RegState, now: u64)
    ensures var after := TickedSlots(st.slots, now);
            var ids := Ascending(st.slots.Keys);
            Step(st, RegistryModel.Tick(now))
            == (RegState(after - Ended(after), Max(st.running - |Ended(after)|, 0), st.cap, st.owner, st.nextId),
                Collect(Cancels, st.slots, ids) + Collect(Ends, after, ids))
  {
    hide Ticked, Collect, Ended, TickedSlots, Ascending, OnSlot, Charge;
  }

  lemma CollectSnoc(part: Part, slots: map<TaskId, TaskSlot>, ids: seq<TaskId>, i: nat)
    requires i < |ids|
    ensures Collect(part, slots, ids[..i + 1]) == Collect(part, slots, ids[..i]) + Emit(part, slots, ids[i])
  {
    assert ids[..i + 1][..i] == ids[..i];
  }

  lemma NoSnapshots(slots: map<TaskId, TaskSlot>, now: u64)
    ensures SnapshotIds(slots, [], now) == []
  {
  }

  lemma SnapshotSnoc(slots: map<TaskId, TaskSlot>, ids: seq<TaskId>, i: nat, now: u64)
    requires i < |ids| && ids[i] in slots
    ensures SnapshotIds(slots, ids[..i + 1], now)
            == SnapshotIds(slots, ids[..i], now)
               + if slots[ids[i]].phase.Done? then [] else [SnapshotOf(slots[ids[i]], now)]
  {
    hide SnapshotOf;
    TakeSnoc(ids, i);
  }

  /** The slots after the first `i` ids have been decided. */
  ghost function TickedUpTo(slots: map<TaskId, TaskSlot>, ids: seq<TaskId>, i: nat, now: u64): map<TaskId, TaskSlot>
    requires i <= |ids|
  {
    map id | id in slots :: if id in ids[..i] then Ticked(slots[id], now) else slots[id]
  }

  lemma NoneTicked(slots: map<TaskId, TaskSlot>, ids: seq<TaskId>, now: u64)
    ensures TickedUpTo(slots, ids, 0, now) == slots
    ensures Collect(Cancels, slots, ids[..0]) == []
  {
  }

  lemma OneMoreTicked(slots: map<TaskId, TaskSlot>, ids: seq<TaskId>, i: nat, now: u64)
    requires i < |ids| && ids[i] in slots
    requires forall j, k | 0 <= j < k < |ids| :: ids[j] < ids[k]
    ensures var before := TickedUpTo(slots, ids, i, now);
            && ids[i] in before && before[ids[i]] == slots[ids[i]]
            && TickedUpTo(slots, ids, i + 1, now) == before[ids[i] := Ticked(slots[ids[i]], now)]
  {
    hide Ticked;
    assert ids[..i + 1] == ids[..i] + [ids[i]];
  }

  lemma AllTicked(slots: map<TaskId, TaskSlot>, ids: seq<TaskId>, now: u64)
    requires forall id :: id in ids <==> id in slots.Keys
    requires forall id | id in slots :: slots[id].id == id
    ensures var after := TickedUpTo(slots, ids, |ids|, now);
            after == TickedSlots(slots, now) && after.Keys == slots.Keys
                && forall id | id in after :: after[id].id == id
  {
    assert ids[..|ids|] == ids;
  }

  datatype Terminal = Terminal(id: TaskId, chat: ChatId, done: TaskDone)

  function IdsOf(terminal: seq<Terminal>): set<TaskId> {
    set t | t in terminal :: t.id
  }

  lemma NoneListed(slots: map<TaskId, TaskSlot>)
    ensures IdsOf([]) == {} == EndedAmong(slots, []) && Reported([]) == [] == Collect(Ends, slots, [])
  {
  }

  lemma ListedSnoc(terminal: seq<Terminal>, t: Terminal)
    ensures IdsOf(terminal + [t]) == IdsOf(terminal) + {t.id}
    ensures Reported(terminal + [t]) == Reported(terminal) + EndActions(t.id, t.chat, t.done)
  {
    assert (terminal + [t])[..|terminal|] == terminal;
  }

  lemma ForgetStep(before: map<TaskId, TaskSlot>, terminal: seq<Terminal>, k: nat)
    requires k < |terminal|
    ensures var t := terminal[k];
            && before - IdsOf(terminal[..k + 1]) == before - IdsOf(terminal[..k]) - {t.id}
            && Reported(terminal[..k + 1]) == Reported(terminal[..k]) + EndActions(t.id, t.chat, t.done)
  {
    hide IdsOf, Reported, EndActions;
    ListedSnoc(terminal[..k], terminal[k]);
    TakeSnoc(terminal, k);
    RemoveOneMore(before, IdsOf(terminal[..k]), terminal[k].id);
  }

  lemma AllListed(slots: map<TaskId, TaskSlot>, ids: seq<TaskId>)
    requires forall id :: id in ids <==> id in slots.Keys
    ensures EndedAmong(slots, ids) == Ended(slots)
  {
  }

  ghost function Reported(terminal: seq<Terminal>): seq<Action> {
    if terminal == [] then [] else
    var t := terminal[|terminal| - 1];
    Reported(terminal[..|terminal| - 1]) + EndActions(t.id, t.chat, t.done)
  }

  ghost function EndedAmong(slots: map<TaskId, TaskSlot>, ids: seq<TaskId>): set<TaskId> {
    set id | id in ids && id in slots && slots[id].phase.Done?
  }

  lemma EndedSnoc(slots: map<TaskId, TaskSlot>, ids: seq<TaskId>, i: nat)
    requires i < |ids| && ids[i] in slots
    requires forall j, k | 0 <= j < k < |ids| :: ids[j] < ids[k]
    ensures ids[i] !in EndedAmong(slots, ids[..i])
    ensures EndedAmong(slots, ids[..i + 1])
            == EndedAmong(slots, ids[..i]) + if slots[ids[i]].phase.Done? then {ids[i]} else {}
  {
    assert ids[..i + 1] == ids[..i] + [ids[i]];
  }
}
