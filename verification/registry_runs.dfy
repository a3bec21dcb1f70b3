/** What holds over whole runs of the registry: how each task's story is told in the
    emitted actions, and which call, at which point of the run, brought its ending about. */
module RegistryRuns {
  import opened Foundation
  import opened Supervisor
  import opened RegistryModel

  // ----- the actions about one task -----

  function About(t: seq<Action>, id: TaskId): seq<Action> {
    if t == [] then [] else
    About(t[..|t| - 1], id) + (if t[|t| - 1].id == id then [t[|t| - 1]] else [])
  }

  lemma {:induction false} AboutAppend(a: seq<Action>, b: seq<Action>, id: TaskId)
    ensures About(a + b, id) == About(a, id) + About(b, id)
  {
    if b == [] {
      assert a + b == a;
    } else {
      assert (a + b)[..|a + b| - 1] == a + b[..|b| - 1];
      AboutAppend(a, b[..|b| - 1], id);
    }
  }

  ghost predicate OnlyAbout(t: seq<Action>, id: TaskId) {
    forall a | a in t :: a.id == id
  }

  lemma {:induction false} AboutOnly(t: seq<Action>, owner: TaskId, id: TaskId)
    requires OnlyAbout(t, owner)
    ensures About(t, id) == if id == owner then t else []
  {
    if t != [] {
      assert t == t[..|t| - 1] + [t[|t| - 1]];
      AboutOnly(t[..|t| - 1], owner, id);
    }
  }

  lemma AboutSnoc(t: seq<Action>, x: seq<Action>, owner: TaskId, id: TaskId)
    requires OnlyAbout(x, owner)
    ensures About(t + x, id) == if id == owner then About(t, id) + x else About(t, id)
  {
    hide OnlyAbout;
    AboutAppend(t, x, id);
    AboutOnly(x, owner, id);
  }

  lemma EmitOnly(part: Part, slots: map<TaskId, TaskSlot>, id: TaskId)
    ensures OnlyAbout(Emit(part, slots, id), id)
  {
  }

  lemma {:induction false} AboutCollect(part: Part, slots: map<TaskId, TaskSlot>, ids: seq<TaskId>, id: TaskId)
    requires NoRepeats(ids)
    ensures About(Collect(part, slots, ids), id) == if id in ids then Emit(part, slots, id) else []
  {
    hide Emit, NoRepeats;
    if ids != [] {
      var front, last := ids[..|ids| - 1], ids[|ids| - 1];
      LastIsOnce(ids);
      var x := Emit(part, slots, last);
      EmitOnly(part, slots, last);
      AboutCollect(part, slots, front, id);
      AboutSnoc(Collect(part, slots, front), x, last, id);
      assert id in ids <==> id in front || id == last;
      assert [] + x == x;
    }
  }

  lemma CollectsAbout(before: map<TaskId, TaskSlot>, after: map<TaskId, TaskSlot>, ids: seq<TaskId>, id: TaskId)
    requires before.Keys == after.Keys && NoRepeats(ids)
    requires id in ids <==> id in before.Keys
    ensures About(Collect(Cancels, before, ids) + Collect(Ends, after, ids), id)
            == Emit(Cancels, before, id) + Emit(Ends, after, id)
  {
    hide NoRepeats;
    AboutCollect(Cancels, before, ids, id);
    AboutCollect(Ends, after, ids, id);
    AboutAppend(Collect(Cancels, before, ids), Collect(Ends, after, ids), id);
  }

  lemma TickAbout(slots: map<TaskId, TaskSlot>, now: u64, id: TaskId)
    ensures About(TickActions(slots, now), id) == Emit(Cancels, slots, id) + Emit(Ends, TickedSlots(slots, now), id)
  {
    var after := TickedSlots(slots, now);
    assert after.Keys == slots.Keys;
    CollectsAbout(slots, after, Ascending(slots.Keys), id);
  }

  // ----- histories -----

  /** How a task entered the registry: by admission (nothing carried) or by adoption. */
  datatype Birth = Birth(chat: ChatId, budget: Budget, carried: Usage, at: u64)

  /** How many tasks entered the registry by admission and by adoption, and the highest
      adopted id. Refused calls are not counted. */
  datatype Tally = Tally(admitted: nat, adopted: nat, highest: nat)

  /** A registry with its past: the actions so far, each task's latest birth, the time of
      its last proof of life, and the tally of births. */
  datatype History = History(
    st: RegState, trace: seq<Action>, births: map<TaskId, Birth>, life: map<TaskId, u64>, tally: Tally)

  predicate Admits(st: RegState, e: Event) {
    e.Admit? && st.running < st.cap
  }

  predicate Adopts(st: RegState, e: Event) {
    e.Adopt? && e.present && e.snap.id !in st.slots
  }

  predicate ProvesLife(st: RegState, e: Event) {
    && (e.MarkRunning? || e.Progress? || e.Heartbeat?)
    && e.id in st.slots
    && if e.MarkRunning? then st.slots[e.id].phase.Pending? else !st.slots[e.id].phase.Done?
  }

  function NextBirths(h: History, e: Event): map<TaskId, Birth> {
    if Admits(h.st, e) then h.births[h.st.nextId := Birth(e.chat, e.budget, NO_USAGE, e.now)]
    else if Adopts(h.st, e) then h.births[e.snap.id := Birth(e.snap.chat, e.snap.budget, e.snap.usage, e.now)]
    else h.births
  }

  function NextLife(h: History, e: Event): map<TaskId, u64> {
    if Admits(h.st, e) then h.life[h.st.nextId := e.now]
    else if Adopts(h.st, e) then h.life[e.snap.id := e.now]
    else if ProvesLife(h.st, e) then h.life[e.id := e.now]
    else h.life
  }

  function NextTally(h: History, e: Event): Tally {
    var t := h.tally;
    if Admits(h.st, e) then t.(admitted := t.admitted + 1)
    else if Adopts(h.st, e) then t.(adopted := t.adopted + 1, highest := Max(t.highest, e.snap.id))
    else t
  }

  function Next(h: History, e: Event): History {
    var (st, actions) := Step(h.st, e);
    History(st, h.trace + actions, NextBirths(h, e), NextLife(h, e), NextTally(h, e))
  }

  function Hist(max: nat, owner: u64, evs: seq<Event>): History {
    if evs == [] then History(Fresh(max, owner), [], map[], map[], Tally(0, 0, 0))
    else Next(Hist(max, owner, evs[..|evs| - 1]), evs[|evs| - 1])
  }

  lemma {:induction false} HistIsRun(max: nat, owner: u64, evs: seq<Event>)
    ensures var h := Hist(max, owner, evs); (h.st, h.trace) == Run(Fresh(max, owner), evs)
  {
    hide Step, NextBirths, NextLife, NextTally;
    if evs != [] {
      var front := evs[..|evs| - 1];
      HistIsRun(max, owner, front);
      FoldSnoc(Step, Fresh(max, owner), front, evs[|evs| - 1]);
      assert evs == front + [evs[|evs| - 1]];
    }
  }

  /** Where the slot a task has after a step came from. */
  lemma SlotAfter(st: RegState, e: Event, id: TaskId)
    requires id in Step(st, e).0.slots
    ensures var s := Step(st, e).0.slots[id];
            if Admits(st, e) && id == st.nextId then
              s == NewSlot(id, e.chat, Pending, st.owner, e.budget, NO_USAGE, e.now)
            else if Adopts(st, e) && id == e.snap.id then
              s == NewSlot(id, e.snap.chat, AdoptedPhase(e.snap), st.owner, e.snap.budget, e.snap.usage, e.now)
            else id in st.slots && s == if e.Tick? then Ticked(st.slots[id], e.now)
                                        else if e.OnOneSlot() && e.id == id then OnSlot(st.slots[id], e)
                                        else st.slots[id]
  {
  }

  /** What every slot of a reachable registry satisfies, given its birth and last proof of life. */
  ghost predicate Fits(s: TaskSlot, id: TaskId, owner: u64, birth: Birth, life: u64) {
    && s.id == id
    && s.chat == birth.chat && s.budget == birth.budget && s.startedAt == birth.at
    && s.lease == Granted(owner, life)
    && (!s.phase.Done? ==> Within(s.usage, s.budget))
    && s.phase != Done(Cancelled)
  }

  ghost predicate SlotOk(h: History, id: TaskId) {
    && id in h.st.slots && id in h.births && id in h.life
    && Fits(h.st.slots[id], id, h.st.owner, h.births[id], h.life[id])
    && h.st.slots[id].phase != Done(Expired) // an expired task is forgotten by the tick that finds it
  }

  lemma FitsTicked(s: TaskSlot, now: u64, id: TaskId, owner: u64, birth: Birth, life: u64)
    requires Fits(s, id, owner, birth, life)
    ensures Fits(Ticked(s, now), id, owner, birth, life)
  {
  }

  lemma FitsOnSlot(s: TaskSlot, e: Event, id: TaskId, owner: u64, birth: Birth, life: u64)
    requires Fits(s, id, owner, birth, life) && e.OnOneSlot()
    ensures var proves := if e.MarkRunning? then s.phase.Pending? else (e.Progress? || e.Heartbeat?) && !s.phase.Done?;
            Fits(OnSlot(s, e), id, owner, birth, if proves then e.now else life)
  {
  }

  lemma SlotOkStep(h: History, e: Event, id: TaskId)
    requires id in h.st.slots ==> SlotOk(h, id)
    requires id in Next(h, e).st.slots
    ensures SlotOk(Next(h, e), id)
  {
    hide Ticked, TickActions;
    SlotAfter(h.st, e, id);
    if id in h.st.slots {
      var s, birth, life := h.st.slots[id], h.births[id], h.life[id];
      if e.Tick? {
        FitsTicked(s, e.now, id, h.st.owner, birth, life);
      } else if e.OnOneSlot() {
        FitsOnSlot(s, e, id, h.st.owner, birth, life);
      }
    }
  }

  ghost predicate AllOk(h: History) {
    forall id | id in h.st.slots :: SlotOk(h, id)
  }

  lemma AllOkStep(h: History, e: Event)
    requires AllOk(h)
    ensures AllOk(Next(h, e))
  {
    hide Next;
    var n := Next(h, e);
    forall id | id in n.st.slots
      ensures SlotOk(n, id)
    {
      SlotOkStep(h, e, id);
    }
  }

  lemma {:induction false} SlotsOk(max: nat, owner: u64, evs: seq<Event>)
    ensures AllOk(Hist(max, owner, evs))
  {
    hide Next, SlotOk;
    if evs != [] {
      SlotsOk(max, owner, evs[..|evs| - 1]);
      AllOkStep(Hist(max, owner, evs[..|evs| - 1]), evs[|evs| - 1]);
    }
  }

  // ----- exactly-once endings -----

  /** No id ever enters the registry a second time. */
  ghost predicate FreshIds(max: nat, owner: u64, evs: seq<Event>) {
    evs == [] ||
    (var front, e := evs[..|evs| - 1], evs[|evs| - 1];
     var h := Hist(max, owner, front);
     && FreshIds(max, owner, front)
     && (Admits(h.st, e) ==> h.st.nextId !in h.births)
     && (Adopts(h.st, e) ==> e.snap.id !in h.births))
  }

  ghost predicate AllCancels(t: seq<Action>, id: TaskId) {
    forall a | a in t :: a == RequestCancel(id)
  }

  /** `about` is a whole story: requests to stop, then the actions of one ending. */
  ghost predicate Told(about: seq<Action>, id: TaskId, chat: ChatId, d: TaskDone) {
    var end := EndActions(id, chat, d);
    && |about| >= |end|
    && AllCancels(about[..|about| - |end|], id)
    && about[|about| - |end|..] == end
  }

  /** A run so far: how the registry was made and the calls since. */
  datatype Past = Past(max: nat, owner: u64, evs: seq<Event>) {
    function Now(): History { Hist(max, owner, evs) }
    function Before(k: nat): Past requires k <= |evs| { this.(evs := evs[..k]) }
    function After(e: Event): Past { this.(evs := evs + [e]) }
  }

  /** The task is supervised, active and was launched by `chat`. */
  predicate ActiveFor(st: RegState, id: TaskId, chat: ChatId) {
    id in st.slots && !st.slots[id].phase.Done? && st.slots[id].chat == chat
  }

  /** No proof of life from the task for more than a lease. */
  predicate Stale(h: History, id: TaskId, now: u64) {
    id in h.life && now > h.life[id] + LEASE_TTL
  }

  function ChargeFor(s: TaskSlot, bytes: u64, now: u64): Result<Usage, Axis> {
    Charge(s.usage, Usage(WallSince(s, now), bytes, 0), s.budget)
  }

  /** The call `e`, made in `h`, is what ends the task as `d`. */
  predicate Decides(h: History, e: Event, id: TaskId, chat: ChatId, d: TaskDone) {
    if e.Adopt? then
      // a task may be adopted already over its budget
      && Adopts(h.st, e) && e.snap.id == id && e.snap.chat == chat
      && d.BudgetExhausted? && FirstOver(e.snap.usage, e.snap.budget, d.axis)
    else
      && ActiveFor(h.st, id, chat)
      && var s := h.st.slots[id];
      match d
      case Completed => e == Finished(id)
      case Killed => e == Kill(id, chat) || (e.Tick? && s.phase.Cancelling? && Stale(h, id, e.now))
      case Expired => e.Tick? && !s.phase.Cancelling? && Stale(h, id, e.now) && ChargeFor(s, 0, e.now).Ok?
      case Cancelled => false
      case BudgetExhausted(axis) =>
        || (e.Progress? && e.id == id && ChargeFor(s, e.bytes, e.now) == Err(axis))
        || (e.Tick? && !s.phase.Cancelling? && ChargeFor(s, 0, e.now) == Err(axis))
  }

  /** The order `e` was given while the task was active, by the chat that launched it. */
  ghost predicate Ordered(past: Past, e: Event, id: TaskId, chat: ChatId) {
    exists k | 0 <= k < |past.evs| :: past.evs[k] == e && ActiveFor(past.Before(k).Now().st, id, chat)
  }

  /** The `k`-th call ends the task as `d`; a kill no one ordered follows an ordered cancel. */
  ghost predicate CausedAt(past: Past, k: nat, id: TaskId, chat: ChatId, d: TaskDone)
    requires k < |past.evs|
  {
    && Decides(past.Before(k).Now(), past.evs[k], id, chat, d)
    && (d.Killed? && past.evs[k].Tick? ==> Ordered(past.Before(k), Cancel(id, chat), id, chat))
  }

  ghost predicate Caused(past: Past, id: TaskId, chat: ChatId, d: TaskDone) {
    exists k | 0 <= k < |past.evs| :: CausedAt(past, k, id, chat, d)
  }

  lemma BeforeAfter(past: Past, e: Event, k: nat)
    requires k <= |past.evs|
    ensures past.After(e).Before(k) == past.Before(k) && past.After(e).Before(|past.evs|) == past
  {
    assert (past.evs + [e])[..k] == past.evs[..k] && (past.evs + [e])[..|past.evs|] == past.evs;
  }

  lemma OrderedLater(past: Past, e: Event, order: Event, id: TaskId, chat: ChatId)
    requires Ordered(past, order, id, chat)
    ensures Ordered(past.After(e), order, id, chat)
  {
    hide ActiveFor, Hist;
    var k :| 0 <= k < |past.evs| && past.evs[k] == order && ActiveFor(past.Before(k).Now().st, id, chat);
    BeforeAfter(past, e, k);
    assert past.After(e).evs[k] == order;
  }

  lemma CausedLater(past: Past, e: Event, id: TaskId, chat: ChatId, d: TaskDone)
    requires Caused(past, id, chat, d)
    ensures Caused(past.After(e), id, chat, d)
  {
    hide Decides, Hist, Ordered;
    var k :| 0 <= k < |past.evs| && CausedAt(past, k, id, chat, d);
    BeforeAfter(past, e, k);
    assert CausedAt(past.After(e), k, id, chat, d);
  }

  lemma CausedNow(past: Past, e: Event, id: TaskId, chat: ChatId, d: TaskDone)
    requires Decides(past.Now(), e, id, chat, d)
    requires d.Killed? && e.Tick? ==> Ordered(past, Cancel(id, chat), id, chat)
    ensures Caused(past.After(e), id, chat, d)
  {
    hide Decides, Hist, Ordered;
    BeforeAfter(past, e, |past.evs|);
    assert CausedAt(past.After(e), |past.evs|, id, chat, d);
  }

  lemma OrderedNow(past: Past, e: Event, id: TaskId, chat: ChatId)
    requires ActiveFor(past.Now().st, id, chat)
    ensures Ordered(past.After(e), e, id, chat)
  {
    hide ActiveFor, Hist;
    BeforeAfter(past, e, |past.evs|);
    assert past.After(e).evs[|past.evs|] == e;
  }

  /** What the actions about a task say, given its slot (if supervised) and the chat it was born with. */
  ghost predicate StoryOf(about: seq<Action>, slot: Option<TaskSlot>, born: Option<ChatId>, past: Past, id: TaskId) {
    match (born, slot)
    case (None, None) => about == []
    case (None, Some(_)) => false
    case (Some(chat), Some(s)) =>
      && AllCancels(about, id)
      && s.chat == chat
      && (s.phase.Cancelling? ==> Ordered(past, Cancel(id, chat), id, chat))
      && (s.phase.Done? ==> Caused(past, id, chat, s.phase.done))
    case (Some(chat), None) =>
      exists d :: Told(about, id, chat, d) && Caused(past, id, chat, d)
  }

  function BornIn(h: History, id: TaskId): Option<ChatId> {
    if id in h.births then Some(h.births[id].chat) else None
  }

  ghost predicate Story(past: Past, id: TaskId) {
    var h := past.Now();
    StoryOf(About(h.trace, id), Lookup(h.st.slots, id), BornIn(h, id), past, id)
  }

  lemma StoryLater(about: seq<Action>, slot: Option<TaskSlot>, born: Option<ChatId>, past: Past, id: TaskId, e: Event)
    requires StoryOf(about, slot, born, past, id)
    ensures StoryOf(about, slot, born, past.After(e), id)
  {
    hide Caused, Ordered;
    if born.Some? {
      var chat := born.value;
      if slot.None? {
        var d :| Told(about, id, chat, d) && Caused(past, id, chat, d);
        CausedLater(past, e, id, chat, d);
      } else if slot.value.phase.Done? {
        CausedLater(past, e, id, chat, slot.value.phase.done);
      } else if slot.value.phase.Cancelling? {
        OrderedLater(past, e, Cancel(id, chat), id, chat);
      }
    }
  }

  /** What a tick leaves of a slot. */
  function Kept(slot: Option<TaskSlot>): Option<TaskSlot> {
    if slot.Some? && slot.value.phase.Done? then None else slot
  }

  function TickedOption(slot: Option<TaskSlot>, now: u64): Option<TaskSlot> {
    if slot.Some? then Some(Ticked(slot.value, now)) else None
  }

  /** A tick treats every task on its own. */
  lemma TickPointwise(st: RegState, now: u64, id: TaskId)
    ensures var slot := Lookup(st.slots, id);
            var after := TickedOption(slot, now);
            && Lookup(Step(st, Tick(now)).0.slots, id) == Kept(after)
            && About(Step(st, Tick(now)).1, id) == CancelPart(slot, id) + EndPart(after, id)
  {
    hide Ticked, TickActions;
    TickAbout(st.slots, now, id);
    assert Lookup(TickedSlots(st.slots, now), id) == TickedOption(Lookup(st.slots, id), now);
  }

  /** Cancel requests and then at most one whole ending. */
  lemma TickTells(about: seq<Action>, s: TaskSlot, t: TaskSlot, chat: ChatId, past: Past, id: TaskId)
    requires StoryOf(about, Some(s), Some(chat), past, id)
    requires t.chat == s.chat && (t.phase.Cancelling? ==> s.phase.Cancelling?)
    requires t.phase.Done? ==> Caused(past, id, chat, t.phase.done)
    ensures StoryOf(about + (CancelPart(Some(s), id) + EndPart(Some(t), id)), Kept(Some(t)), Some(chat), past, id)
  {
    hide Caused, Ordered;
    var asked := about + CancelPart(Some(s), id);
    assert AllCancels(asked, id);
    if t.phase.Done? {
      var end := EndActions(id, t.chat, t.phase.done);
      assert about + (CancelPart(Some(s), id) + EndPart(Some(t), id)) == asked + end;
      assert Told(asked + end, id, chat, t.phase.done);
    } else {
      assert about + (CancelPart(Some(s), id) + EndPart(Some(t), id)) == asked;
    }
  }

  /** A tick ends an active task only for the reasons `Decides` gives. */
  lemma TickDecides(h: History, now: u64, id: TaskId)
    requires id in h.st.slots && SlotOk(h, id) && !h.st.slots[id].phase.Done?
    ensures var s := h.st.slots[id];
            var t := Ticked(s, now);
            && t.chat == s.chat
            && (t.phase.Cancelling? ==> s.phase.Cancelling?)
            && (t.phase.Done? ==> Decides(h, Tick(now), id, s.chat, t.phase.done))
            && (t.phase == Done(Killed) ==> s.phase.Cancelling?)
  {
    LeaseSays(h, id, now);
  }

  lemma LeaseSays(h: History, id: TaskId, now: u64)
    requires id in h.st.slots && SlotOk(h, id)
    ensures h.st.slots[id].lease.ExpiredAt(now) <==> Stale(h, id, now)
  {
  }

  lemma TickCauses(past: Past, now: u64, id: TaskId, chat: ChatId)
    requires var h := past.Now(); id in h.st.slots && SlotOk(h, id) && Story(past, id) && BornIn(h, id) == Some(chat)
    ensures var t := Ticked(past.Now().st.slots[id], now);
            t.phase.Done? ==> Caused(past.After(Tick(now)), id, chat, t.phase.done)
  {
    hide Caused, Decides, Ordered, Hist, SlotOk, AllCancels;
    var h := past.Now();
    var s := h.st.slots[id];
    if s.phase.Done? {
      CausedLater(past, Tick(now), id, chat, s.phase.done);
    } else {
      TickDecides(h, now, id);
      if Ticked(s, now).phase.Done? {
        CausedNow(past, Tick(now), id, chat, Ticked(s, now).phase.done);
      }
    }
  }

  lemma NextTick(h: History, now: u64, id: TaskId)
    ensures var n := Next(h, Tick(now));
            var slot := Lookup(h.st.slots, id);
            var after := TickedOption(slot, now);
            && About(n.trace, id) == About(h.trace, id) + (CancelPart(slot, id) + EndPart(after, id))
            && Lookup(n.st.slots, id) == Kept(after)
            && BornIn(n, id) == BornIn(h, id)
  {
    TickPointwise(h.st, now, id);
    AboutAppend(h.trace, Step(h.st, Tick(now)).1, id);
  }

  lemma TickKeepsChat(s: TaskSlot, now: u64)
    ensures var t := Ticked(s, now); t.chat == s.chat && (t.phase.Cancelling? ==> s.phase.Cancelling?)
  {
  }

  lemma HistAfter(past: Past, e: Event)
    ensures past.After(e).Now() == Next(past.Now(), e)
  {
    hide Next;
    assert (past.evs + [e])[..|past.evs|] == past.evs;
  }

  lemma TickStory(past: Past, now: u64, id: TaskId)
    requires Story(past, id)
    ensures Story(past.After(Tick(now)), id)
  {
    hide Next, StoryOf, Hist, Ticked, CancelPart, EndPart;
    var h, later := past.Now(), past.After(Tick(now));
    var about, slot, born := About(h.trace, id), Lookup(h.st.slots, id), BornIn(h, id);
    HistAfter(past, Tick(now));
    NextTick(h, now, id);
    StoryLater(about, slot, born, past, id, Tick(now));
    SlotsOk(past.max, past.owner, past.evs);
    TickTellsAny(past, now, id);
  }

  lemma TickTellsAny(past: Past, now: u64, id: TaskId)
    requires Story(past, id) && AllOk(past.Now())
    ensures var h := past.Now();
            var slot := Lookup(h.st.slots, id);
            var after := TickedOption(slot, now);
            var about := About(h.trace, id) + (CancelPart(slot, id) + EndPart(after, id));
            StoryOf(about, Kept(after), BornIn(h, id), past.After(Tick(now)), id)
  {
    hide Hist, Caused, Ordered, Told, AllCancels, SlotOk, Ticked;
    var h := past.Now();
    var about, slot, born := About(h.trace, id), Lookup(h.st.slots, id), BornIn(h, id);
    StoryLater(about, slot, born, past, id, Tick(now));
    if slot.Some? && born.Some? {
      TickCauses(past, now, id, born.value);
      TickKeepsChat(slot.value, now);
      TickTells(about, slot.value, Ticked(slot.value, now), born.value, past.After(Tick(now)), id);
    } else {
      assert about + ([] + []) == about;
    }
  }

  /** Any other call ends an active task only for the reasons `Decides` gives, and only a
      cancel by its own chat makes it cancelling. */
  lemma QuietDecides(h: History, e: Event, id: TaskId)
    requires id in h.st.slots && e.OnOneSlot() && e.id == id && !h.st.slots[id].phase.Done?
    ensures var s, n := h.st.slots[id], OnSlot(h.st.slots[id], e);
            && n.chat == s.chat
            && (n.phase.Done? ==> Decides(h, e, id, s.chat, n.phase.done))
            && (n.phase.Cancelling? ==> s.phase.Cancelling? || e == Cancel(id, s.chat))
  {
  }

  lemma QuietCauses(past: Past, e: Event, id: TaskId, chat: ChatId)
    requires Story(past, id) && e.OnOneSlot() && e.id == id
    requires var h := past.Now(); id in h.st.slots && BornIn(h, id) == Some(chat)
    ensures var n := OnSlot(past.Now().st.slots[id], e);
            && n.chat == chat
            && (n.phase.Done? ==> Caused(past.After(e), id, chat, n.phase.done))
            && (n.phase.Cancelling? ==> Ordered(past.After(e), Cancel(id, chat), id, chat))
  {
    hide Caused, Decides, Ordered, Hist, AllCancels, OnSlot;
    var h := past.Now();
    var s := h.st.slots[id];
    if s.phase.Done? {
      DoneStays(s, e);
      CausedLater(past, e, id, chat, s.phase.done);
    } else {
      QuietDecides(h, e, id);
      if OnSlot(s, e).phase.Done? {
        CausedNow(past, e, id, chat, OnSlot(s, e).phase.done);
      } else if s.phase.Cancelling? {
        OrderedLater(past, e, Cancel(id, chat), id, chat);
      } else {
        OrderedNow(past, e, id, chat);
      }
    }
  }

  lemma DoneStays(s: TaskSlot, e: Event)
    requires s.phase.Done? && e.OnOneSlot()
    ensures OnSlot(s, e) == s
  {
  }

  lemma AdoptedOver(snap: TaskSnapshot)
    ensures AdoptedPhase(snap).Done? ==>
              && AdoptedPhase(snap).done.BudgetExhausted?
              && FirstOver(snap.usage, snap.budget, AdoptedPhase(snap).done.axis)
  {
  }

  lemma AdoptCauses(past: Past, e: Event)
    requires Adopts(past.Now().st, e)
    ensures AdoptedPhase(e.snap).Done? ==> Caused(past.After(e), e.snap.id, e.snap.chat, AdoptedPhase(e.snap).done)
    ensures !AdoptedPhase(e.snap).Cancelling?
  {
    hide Caused, Hist;
    if AdoptedPhase(e.snap).Done? {
      AdoptedOver(e.snap);
      CausedNow(past, e, e.snap.id, e.snap.chat, AdoptedPhase(e.snap).done);
    }
  }

  lemma QuietStory(past: Past, e: Event, id: TaskId)
    requires Story(past, id) && !e.Tick?
    requires Admits(past.Now().st, e) ==> past.Now().st.nextId !in past.Now().births
    requires Adopts(past.Now().st, e) ==> e.snap.id !in past.Now().births
    ensures Story(past.After(e), id)
  {
    hide Hist, Caused, Ordered, OnSlot, Told;
    var h := past.Now();
    var n := Next(h, e);
    HistAfter(past, e);
    assert n.trace == h.trace;
    StoryLater(About(h.trace, id), Lookup(h.st.slots, id), BornIn(h, id), past, id, e);
    if id in n.st.slots {
      SlotAfter(h.st, e, id);
      if Adopts(h.st, e) && id == e.snap.id {
        AdoptCauses(past, e);
      } else if id in h.st.slots && e.OnOneSlot() && e.id == id {
        QuietCauses(past, e, id, h.births[id].chat);
      }
    }
  }

  /** Over every run in which ids are not reused, each task is told at most one ending, is
      supervised exactly from its birth to that ending, is hard-killed first exactly when it
      was killed or ran out of budget, and its ending was brought about by a call that reached
      it while it was active. */
  lemma {:induction false} EveryStory(max: nat, owner: u64, evs: seq<Event>, id: TaskId)
    requires FreshIds(max, owner, evs)
    ensures Story(Past(max, owner, evs), id)
  {
    hide Next;
    if evs != [] {
      hide Story;
      var front, e := evs[..|evs| - 1], evs[|evs| - 1];
      EveryStory(max, owner, front, id);
      assert evs == front + [e];
      if e.Tick? {
        TickStory(Past(max, owner, front), e.now, id);
      } else {
        QuietStory(Past(max, owner, front), e, id);
      }
    }
  }

  lemma {:induction false} InAbout(t: seq<Action>, a: Action)
    ensures a in t <==> a in About(t, a.id)
  {
    if t != [] {
      InAbout(t[..|t| - 1], a);
      assert t == t[..|t| - 1] + [t[|t| - 1]];
    }
  }

  lemma FinalizeSplits(t: seq<Action>, id: TaskId, j: nat, d: TaskDone)
    requires j < |t| && t[j] == Finalize(id, d)
    ensures About(t, id) == About(t[..j], id) + [Finalize(id, d)] + About(t[j + 1..], id)
    ensures !AllCancels(About(t, id), id)
  {
    var before, rest := t[..j], t[j + 1..];
    assert t == before + [t[j]] + rest;
    AboutAppend(before + [t[j]], rest, id);
    AboutAppend(before, [t[j]], id);
    AboutOnly([t[j]], id, id);
    InAbout(t, t[j]);
  }

  lemma EndingIn(slot: Option<TaskSlot>, after: Option<TaskSlot>, id: TaskId, d: TaskDone)
    ensures Finalize(id, d) in CancelPart(slot, id) + EndPart(after, id)
            <==> after.Some? && after.value.phase == Done(d)
  {
    if after.Some? && after.value.phase.Done? {
      var end := EndActions(id, after.value.chat, after.value.phase.done);
      assert end[|end| - 1] == Finalize(id, after.value.phase.done);
    }
  }

  /** A tick finalizes a task as `d` exactly when it decides `d` for the task's slot. */
  lemma TickFinalizes(st: RegState, now: u64, id: TaskId, d: TaskDone)
    ensures Finalize(id, d) in Step(st, Tick(now)).1 <==> id in st.slots && Ticked(st.slots[id], now).phase == Done(d)
    ensures id in Step(st, Tick(now)).0.slots <==> id in st.slots && !Ticked(st.slots[id], now).phase.Done?
    ensures id in Step(st, Tick(now)).0.slots ==> Step(st, Tick(now)).0.slots[id] == Ticked(st.slots[id], now)
  {
    var slot := Lookup(st.slots, id);
    TickPointwise(st, now, id);
    InAbout(Step(st, Tick(now)).1, Finalize(id, d));
    EndingIn(slot, TickedOption(slot, now), id, d);
  }

  /** In the actions of a run, a task's `Finalize` comes at most once, and a `HardKill` of the
      task comes before it exactly when the task was killed or ran out of budget. */
  lemma FinalizeOnce(max: nat, owner: u64, evs: seq<Event>, id: TaskId, j: nat, d: TaskDone)
    requires FreshIds(max, owner, evs)
    ensures var h := Hist(max, owner, evs);
            j < |h.trace| && h.trace[j] == Finalize(id, d) ==>
              && id in h.births && id !in h.st.slots && Caused(Past(max, owner, evs), id, h.births[id].chat, d)
              && (HardKill(id) in h.trace[..j] <==> d.Killed? || d.BudgetExhausted?)
              && (forall a | a in h.trace[j + 1..] :: a.id != id)
              && (forall other :: Finalize(id, other) !in h.trace[..j])
  {
    hide Hist, Told, Caused, Ordered;
    var h, past := Hist(max, owner, evs), Past(max, owner, evs);
    EveryStory(max, owner, evs, id);
    if j < |h.trace| && h.trace[j] == Finalize(id, d) {
      FinalizeSplits(h.trace, id, j, d);
      var chat := h.births[id].chat;
      var told :| Told(About(h.trace, id), id, chat, told) && Caused(past, id, chat, told);
      OnceInTrace(h.trace, id, chat, told, j, d);
    }
  }

  lemma OnceInTrace(t: seq<Action>, id: TaskId, chat: ChatId, told: TaskDone, j: nat, d: TaskDone)
    requires Told(About(t, id), id, chat, told)
    requires j < |t| && t[j] == Finalize(id, d)
    ensures d == told
    ensures HardKill(id) in t[..j] <==> NeedsHardKill(d)
    ensures forall a | a in t[j + 1..] :: a.id != id
    ensures forall other :: Finalize(id, other) !in t[..j]
  {
    FinalizeSplits(t, id, j, d);
    EndingIsLast(About(t, id), About(t[..j], id), About(t[j + 1..], id), id, chat, told, d);
    InAbout(t[..j], HardKill(id));
    forall a | a in t[j + 1..] ensures a.id != id {
      InAbout(t[j + 1..], a);
    }
    forall other ensures Finalize(id, other) !in t[..j] {
      InAbout(t[..j], Finalize(id, other));
    }
  }

  lemma EndingIsLast(about: seq<Action>, p: seq<Action>, q: seq<Action>, id: TaskId, chat: ChatId, told: TaskDone,
                     d: TaskDone)
    requires Told(about, id, chat, told)
    requires about == p + [Finalize(id, d)] + q
    ensures q == [] && d == told
    ensures HardKill(id) in p <==> NeedsHardKill(d)
    ensures forall other :: Finalize(id, other) !in p
  {
    var end := EndActions(id, chat, told);
    var k := |about| - |end|;
    assert about[|p|] == Finalize(id, d);
    forall i | 0 <= i < k ensures about[i] == RequestCancel(id) {
      assert about[..k][i] in about[..k];
    }
    assert |p| >= k;
    assert about[k..][|p| - k] == end[|p| - k] == Finalize(id, d);
    assert forall i | 0 <= i < |end| - 1 :: !end[i].Finalize?;
    assert |p| == |about| - 1;
    assert p == about[..|p|];
    assert about == about[..k] + end;
    assert (about[..k] + end)[..|p|] == about[..k] + end[..|end| - 1];
    assert p == about[..k] + end[..|end| - 1];
    if NeedsHardKill(d) {
      assert end[0] == HardKill(id) && HardKill(id) in end[..|end| - 1];
    }
  }

  /** A task that has ended is never supervised again and nothing more is said about it. */
  lemma {:induction false} NeverReturns(max: nat, owner: u64, evs: seq<Event>, more: seq<Event>, id: TaskId)
    requires FreshIds(max, owner, evs + more)
    requires var h := Hist(max, owner, evs); id in h.births && id !in h.st.slots
    ensures var h, n := Hist(max, owner, evs), Hist(max, owner, evs + more);
            id in n.births && id !in n.st.slots && About(n.trace, id) == About(h.trace, id)
  {
    hide Next;
    if more == [] {
      assert evs + more == evs;
    } else {
      var front, e := more[..|more| - 1], more[|more| - 1];
      assert (evs + more)[..|evs + more| - 1] == evs + front;
      NeverReturns(max, owner, evs, front, id);
      StaysEnded(Hist(max, owner, evs + front), e, id);
    }
  }

  lemma StaysEnded(h: History, e: Event, id: TaskId)
    requires id in h.births && id !in h.st.slots
    requires Admits(h.st, e) ==> h.st.nextId !in h.births
    requires Adopts(h.st, e) ==> e.snap.id !in h.births
    ensures var n := Next(h, e); id in n.births && id !in n.st.slots && About(n.trace, id) == About(h.trace, id)
  {
    if e.Tick? {
      NextTick(h, e.now, id);
    } else {
      var n := Next(h, e);
      assert n.trace == h.trace;
      if id in n.st.slots {
        SlotAfter(h.st, e, id);
        assert false;
      }
    }
  }

  /** A terminal phase never changes: the next tick reports exactly that ending and forgets the task. */
  lemma TerminalStays(st: RegState, e: Event, id: TaskId)
    requires id in st.slots && st.slots[id].phase.Done?
    requires Admits(st, e) ==> st.nextId != id
    ensures var (n, actions) := Step(st, e);
            if e.Tick? then
              && id !in n.slots
              && About(actions, id) == EndActions(id, st.slots[id].chat, st.slots[id].phase.done)
            else id in n.slots && n.slots[id] == st.slots[id]
  {
    if e.Tick? {
      TickPointwise(st, e.now, id);
      var end := EndActions(id, st.slots[id].chat, st.slots[id].phase.done);
      assert [] + end == end;
    }
  }

  // ----- orders -----

  lemma OneStep(st: RegState, a: Event)
    ensures Run(st, [a]) == Step(st, a)
  {
    hide Step;
    FoldSnoc(Step, st, [], a);
    assert [] + [a] == [a];
    assert [] + Step(st, a).1 == Step(st, a).1;
  }

  lemma TwoSteps(st: RegState, a: Event, b: Event)
    ensures Run(st, [a, b]) == (Step(Step(st, a).0, b).0, Step(st, a).1 + Step(Step(st, a).0, b).1)
  {
    hide Step;
    OneStep(st, a);
    FoldSnoc(Step, st, [a], b);
    assert [a] + [b] == [a, b];
  }

  /** What the next tick says about an active task after an order: a finished worker's task
      completes, and the launching chat's kill and cancel take effect. */
  lemma OrdersHonoured(st: RegState, id: TaskId, now: u64)
    requires id in st.slots && !st.slots[id].phase.Done?
    ensures var chat := st.slots[id].chat;
            && About(Run(st, [Finished(id), Tick(now)]).1, id) == EndActions(id, chat, Completed)
            && About(Run(st, [Kill(id, chat), Tick(now)]).1, id) == EndActions(id, chat, Killed)
            && RequestCancel(id) in Run(st, [Cancel(id, chat), Tick(now)]).1
  {
    hide Step, Run;
    var chat := st.slots[id].chat;
    OrderThenTick(st, Finished(id), id, now);
    OrderThenTick(st, Kill(id, chat), id, now);
    OrderThenTick(st, Cancel(id, chat), id, now);
  }

  /** An order from a chat that did not launch the task changes nothing. */
  lemma ForeignOrdersIgnored(st: RegState, id: TaskId, chat: ChatId)
    requires id in st.slots ==> st.slots[id].chat != chat
    ensures Step(st, Kill(id, chat)) == (st, []) && Step(st, Cancel(id, chat)) == (st, [])
  {
    if id in st.slots {
      assert st.slots[id := st.slots[id]] == st.slots;
    }
  }

  lemma OrderThenTick(st: RegState, e: Event, id: TaskId, now: u64)
    requires id in st.slots && e.OnOneSlot() && e.id == id
    ensures var s := OnSlot(st.slots[id], e);
            var said := Run(st, [e, Tick(now)]).1;
            && (s.phase.Done? ==> About(said, id) == EndActions(id, s.chat, s.phase.done))
            && (s.phase.Cancelling? ==> RequestCancel(id) in said)
  {
    hide Step, OnSlot;
    TwoSteps(st, e, Tick(now));
    OneOrder(st, e, id, now);
    var said := Step(Step(st, e).0, Tick(now)).1;
    assert [] + said == said;
    InAbout(said, RequestCancel(id));
  }

  lemma OneOrder(st: RegState, e: Event, id: TaskId, now: u64)
    requires id in st.slots && e.OnOneSlot() && e.id == id
    ensures var s := OnSlot(st.slots[id], e);
            var told := About(Step(Step(st, e).0, Tick(now)).1, id);
            && Step(st, e).1 == []
            && (s.phase.Done? ==> told == EndActions(id, s.chat, s.phase.done))
            && (s.phase.Cancelling? ==> RequestCancel(id) in told)
  {
    hide Ticked, TickActions, TickedSlots;
    var s := OnSlot(st.slots[id], e);
    var st1 := Step(st, e).0;
    assert st1.slots[id] == s;
    TickPointwise(st1, now, id);
    if s.phase.Done? {
      DoneTicks(s, now);
      assert [] + EndActions(id, s.chat, s.phase.done) == EndActions(id, s.chat, s.phase.done);
    } else if s.phase.Cancelling? {
      assert CancelPart(Some(s), id)[0] == RequestCancel(id);
    }
  }

  lemma DoneTicks(s: TaskSlot, now: u64)
    requires s.phase.Done?
    ensures Ticked(s, now) == s
  {
  }
}
