/** The supervised task registry as a state machine: one `Step` per registry call.
    Every call takes the time as an argument and only a tick emits actions. */
module RegistryModel {
  import opened Foundation
  import opened Supervisor

  const LEASE_TTL: u64 := 60_000

  type TaskId = u64
  type ChatId = i64

  datatype Lease = Lease(owner: u64, expiresAt: u64, heartbeatAt: u64) {
    predicate ExpiredAt(now: u64) { now > expiresAt }
    function Refreshed(now: u64): Lease { Granted(owner, now) }
  }

  function Granted(owner: u64, now: u64): Lease {
    Lease(owner, SatAdd(now, LEASE_TTL), now)
  }

  datatype TaskDone = Completed | Cancelled | Killed | Expired | BudgetExhausted(axis: Axis)

  datatype TaskPhase = Pending | Running | Cancelling | Done(done: TaskDone)

  datatype TaskSlot = TaskSlot(
    id: TaskId, chat: ChatId, phase: TaskPhase, lease: Lease,
    budget: Budget, usage: Usage, startedAt: u64, lastChargeAt: u64)

  /** The text of a status line is not modelled, only what it reports and to whom. */
  datatype Action =
    | SendLine(chat: ChatId, id: TaskId, done: TaskDone)
    | RequestCancel(id: TaskId)
    | HardKill(id: TaskId)
    | Finalize(id: TaskId, done: TaskDone)

  datatype TaskSnapshot = TaskSnapshot(
    id: TaskId, chat: ChatId, phase: TaskPhase, leaseRemaining: u64,
    budget: Budget, usage: Usage, worktree: Option<seq<byte>>)

  datatype AdmitError = ConcurrencyCap

  datatype AdoptError = WorktreeGone | Duplicate

  datatype RegState = RegState(
    slots: map<TaskId, TaskSlot>, running: nat, cap: nat, owner: u64, nextId: u64)

  datatype Event =
    | Admit(chat: ChatId, budget: Budget, now: u64)
    | MarkRunning(id: TaskId, now: u64)
    | Progress(id: TaskId, bytes: u64, now: u64)
    | Heartbeat(id: TaskId, now: u64)
    | Finished(id: TaskId)
    | Cancel(id: TaskId, chat: ChatId)
    | Kill(id: TaskId, chat: ChatId)
    | Tick(now: u64)
    | Adopt(snap: TaskSnapshot, present: bool, now: u64)
  {
    predicate OnOneSlot() { !Admit? && !Tick? && !Adopt? }
    predicate Timed() { !Finished? && !Cancel? && !Kill? }
  }

  function Fresh(max: nat, owner: u64): RegState {
    RegState(map[], 0, Max(max, 1), owner, 1)
  }

  // ----- what one call does to one slot -----

  function NewSlot(id: TaskId, chat: ChatId, phase: TaskPhase, owner: u64, b: Budget, u: Usage, now: u64): TaskSlot {
    TaskSlot(id, chat, phase, Granted(owner, now), b, u, now, now)
  }

  function WallSince(s: TaskSlot, now: u64): u64 {
    SatSub(now, s.lastChargeAt)
  }

  /** Charges the wall time since the last charge plus `bytes` of output. */
  function Charged(s: TaskSlot, bytes: u64, now: u64): TaskSlot {
    match Charge(s.usage, Usage(WallSince(s, now), bytes, 0), s.budget)
    case Ok(next) => s.(usage := next, lastChargeAt := now)
    case Err(axis) => s.(phase := Done(BudgetExhausted(axis)))
  }

  function OnSlot(s: TaskSlot, e: Event): TaskSlot
    requires e.OnOneSlot()
  {
    match e
    case MarkRunning(_, now) =>
      if s.phase.Pending? then s.(phase := Running, lease := s.lease.Refreshed(now)) else s
    case Progress(_, bytes, now) =>
      if s.phase.Done? then s else Charged(s.(lease := s.lease.Refreshed(now)), bytes, now)
    case Heartbeat(_, now) =>
      if s.phase.Done? then s else s.(lease := s.lease.Refreshed(now))
    case Finished(_) =>
      if s.phase.Done? then s else s.(phase := Done(Completed))
    case Cancel(_, chat) =>
      if s.chat == chat && !s.phase.Done? then s.(phase := Cancelling) else s
    case Kill(_, chat) =>
      if s.chat == chat && !s.phase.Done? then s.(phase := Done(Killed)) else s
  }

  /** A tick's decision for one slot. A cancelling slot is not charged. */
  function Ticked(s: TaskSlot, now: u64): TaskSlot {
    match s.phase
    case Done(_) => s
    case Cancelling =>
      if s.lease.ExpiredAt(now) then s.(phase := Done(Killed)) else s
    case _ =>
      var c := Charged(s, 0, now);
      if !c.phase.Done? && c.lease.ExpiredAt(now) then c.(phase := Done(Expired)) else c
  }

  // ----- the registry -----

  function TickedSlots(slots: map<TaskId, TaskSlot>, now: u64): map<TaskId, TaskSlot> {
    map id | id in slots :: Ticked(slots[id], now)
  }

  function Ended(slots: map<TaskId, TaskSlot>): set<TaskId> {
    set id | id in slots && slots[id].phase.Done?
  }

  function Live(slots: map<TaskId, TaskSlot>): set<TaskId> {
    set id | id in slots && !slots[id].phase.Done?
  }

  function Lookup(slots: map<TaskId, TaskSlot>, id: TaskId): Option<TaskSlot> {
    if id in slots then Some(slots[id]) else None
  }

  function CancelPart(slot: Option<TaskSlot>, id: TaskId): seq<Action> {
    if slot.Some? && slot.value.phase.Cancelling? then [RequestCancel(id)] else []
  }

  predicate NeedsHardKill(d: TaskDone) {
    d.Killed? || d.BudgetExhausted?
  }

  function EndActions(id: TaskId, chat: ChatId, d: TaskDone): seq<Action> {
    (if NeedsHardKill(d) then [HardKill(id)] else []) + [SendLine(chat, id, d), Finalize(id, d)]
  }

  function EndPart(slot: Option<TaskSlot>, id: TaskId): seq<Action> {
    if slot.Some? && slot.value.phase.Done? then EndActions(id, slot.value.chat, slot.value.phase.done) else []
  }

  /** A tick first asks every cancelling worker to stop, then reports every ended task. */
  datatype Part = Cancels | Ends

  function Emit(part: Part, slots: map<TaskId, TaskSlot>, id: TaskId): seq<Action> {
    match part
    case Cancels => CancelPart(Lookup(slots, id), id)
    case Ends => EndPart(Lookup(slots, id), id)
  }

  function Collect(part: Part, slots: map<TaskId, TaskSlot>, ids: seq<TaskId>): seq<Action> {
    if ids == [] then [] else
    Collect(part, slots, ids[..|ids| - 1]) + Emit(part, slots, ids[|ids| - 1])
  }

  function TickActions(slots: map<TaskId, TaskSlot>, now: u64): seq<Action> {
    var ids := Ascending(slots.Keys);
    Collect(Cancels, slots, ids) + Collect(Ends, TickedSlots(slots, now), ids)
  }

  function AdoptedPhase(snap: TaskSnapshot): TaskPhase {
    match Charge(snap.usage, NO_USAGE, snap.budget)
    case Ok(_) => Pending
    case Err(axis) => Done(BudgetExhausted(axis))
  }

  function Step(st: RegState, e: Event): (RegState, seq<Action>) {
    match e
    case Admit(chat, budget, now) =>
      if st.running >= st.cap then (st, []) else
      var slot := NewSlot(st.nextId, chat, Pending, st.owner, budget, NO_USAGE, now);
      (st.(slots := st.slots[st.nextId := slot], running := st.running + 1, nextId := WrapInc(st.nextId)), [])
    case Tick(now) =>
      var after := TickedSlots(st.slots, now);
      (st.(slots := after - Ended(after), running := Max(st.running - |Ended(after)|, 0)),
              TickActions(st.slots, now))
    case Adopt(snap, present, now) =>
      if snap.id in st.slots || !present then (st, []) else
      var slot := NewSlot(snap.id, snap.chat, AdoptedPhase(snap), st.owner, snap.budget, snap.usage, now);
      (st.(slots := st.slots[snap.id := slot],
                  nextId := if st.nextId <= snap.id then WrapInc(snap.id) else st.nextId), [])
    case _ =>
      if e.id !in st.slots then (st, [])
      else (st.(slots := st.slots[e.id := OnSlot(st.slots[e.id], e)]), [])
  }

  /** The registry after a run of calls, with every action emitted on the way. */
  function Run(st: RegState, evs: seq<Event>): (RegState, seq<Action>) {
    Fold(Step, st, evs)
  }

  function SnapshotOf(s: TaskSlot, now: u64): TaskSnapshot {
    TaskSnapshot(s.id, s.chat, s.phase, SatSub(s.lease.expiresAt, now), s.budget, s.usage, None)
  }

  /** `snapshot_all`: the non-terminal tasks in id order. */
  function SnapshotIds(slots: map<TaskId, TaskSlot>, ids: seq<TaskId>, now: u64): seq<TaskSnapshot> {
    if ids == [] then [] else
    var front := SnapshotIds(slots, ids[..|ids| - 1], now);
    var id := ids[|ids| - 1];
    if id in slots && !slots[id].phase.Done? then front + [SnapshotOf(slots[id], now)] else front
  }

  function SnapshotAll(st: RegState, now: u64): seq<TaskSnapshot> {
    SnapshotIds(st.slots, Ascending(st.slots.Keys), now)
  }
}
