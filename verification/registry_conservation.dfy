/** Ids, concurrency slots, wall time and leases over whole runs of the registry. */
module RegistryConservation {
  import opened Foundation
  import opened Supervisor
  import opened RegistryModel
  import opened RegistryRuns

  // ----- ids -----

  /** The id counter cannot wrap in the next `n` admissions: every id issued or adopted by then
      stays below 2^64 - 1. */
  predicate RoomFor(h: History, n: nat) {
    h.tally.highest + h.tally.admitted + n < U64_MAX
  }

  /** The id counter cannot have wrapped yet. */
  predicate Room(h: History) {
    RoomFor(h, 0)
  }

  ghost predicate IdsBelow(h: History) {
    && 1 <= h.st.nextId <= 1 + h.tally.highest + h.tally.admitted
    && (forall id | id in h.births :: id < h.st.nextId)
    && h.st.slots.Keys <= h.births.Keys
  }

  lemma IdsBelowStep(h: History, e: Event)
    requires IdsBelow(h) && Room(Next(h, e))
    ensures IdsBelow(Next(h, e))
  {
    hide Ticked, OnSlot, TickActions;
    var n := Next(h, e);
    assert n.st.slots.Keys <= n.births.Keys by {
      forall id | id in n.st.slots ensures id in n.births {
        SlotAfter(h.st, e, id);
      }
    }
  }

  lemma RoomBefore(h: History, e: Event)
    requires Room(Next(h, e))
    ensures Room(h)
  {
    hide Step;
  }

  /** While the counter has room, the next id is above every id ever seen. */
  lemma {:induction false} NextIdAbove(max: nat, owner: u64, evs: seq<Event>)
    requires Room(Hist(max, owner, evs))
    ensures IdsBelow(Hist(max, owner, evs))
  {
    hide Next;
    if evs != [] {
      var front, e := evs[..|evs| - 1], evs[|evs| - 1];
      RoomBefore(Hist(max, owner, front), e);
      NextIdAbove(max, owner, front);
      IdsBelowStep(Hist(max, owner, front), e);
    }
  }

  predicate AdoptionFree(evs: seq<Event>) {
    forall e | e in evs :: !e.Adopt?
  }

  /** With room in the counter, calls that adopt nothing reuse no id. */
  lemma {:induction false} FreshOnwards(max: nat, owner: u64, evs: seq<Event>, more: seq<Event>)
    requires FreshIds(max, owner, evs) && Room(Hist(max, owner, evs + more)) && AdoptionFree(more)
    ensures FreshIds(max, owner, evs + more)
  {
    hide Next;
    if more == [] {
      assert evs + more == evs;
    } else {
      var front, e := more[..|more| - 1], more[|more| - 1];
      assert (evs + more)[..|evs + more| - 1] == evs + front;
      assert e in more;
      RoomBefore(Hist(max, owner, evs + front), e);
      FreshOnwards(max, owner, evs, front);
      NextIdAbove(max, owner, evs + front);
    }
  }

  /** With room in the counter and no adoption, no id is ever reused. */
  lemma NoReuse(max: nat, owner: u64, evs: seq<Event>)
    requires Room(Hist(max, owner, evs)) && AdoptionFree(evs)
    ensures FreshIds(max, owner, evs)
  {
    hide Hist;
    assert [] + evs == evs;
    FreshOnwards(max, owner, [], evs);
  }

  /** A birth is never rewritten while ids are fresh. */
  lemma {:induction false} BirthsStay(max: nat, owner: u64, evs: seq<Event>, more: seq<Event>, id: TaskId)
    requires FreshIds(max, owner, evs + more) && id in Hist(max, owner, evs).births
    ensures var births := Hist(max, owner, evs + more).births;
            id in births && births[id] == Hist(max, owner, evs).births[id]
  {
    hide Step, NextLife, NextTally;
    if more == [] {
      assert evs + more == evs;
    } else {
      assert (evs + more)[..|evs + more| - 1] == evs + more[..|more| - 1];
      BirthsStay(max, owner, evs, more[..|more| - 1], id);
    }
  }

  // ----- concurrency slots -----

  /** The supervised tasks that the scheduler's count misses. */
  function Uncounted(st: RegState): int {
    |st.slots| - st.running
  }

  ghost predicate Accounted(h: History) {
    0 <= Uncounted(h.st) <= h.tally.adopted && h.st.running <= h.st.cap
  }

  lemma TickCount(st: RegState, now: u64)
    ensures var after := TickedSlots(st.slots, now);
            && |Ended(after)| <= |st.slots|
            && |Step(st, Tick(now)).0.slots| == |st.slots| - |Ended(after)|
  {
    hide Ticked, TickActions;
    var after := TickedSlots(st.slots, now);
    var kept := after - Ended(after);
    assert after.Keys == st.slots.Keys;
    assert kept.Keys == after.Keys - Ended(after);
    assert Ended(after) <= after.Keys;
    assert |after.Keys - Ended(after)| == |after.Keys| - |Ended(after)|;
    assert |kept| == |kept.Keys| && |after| == |after.Keys| && |st.slots| == |st.slots.Keys|;
  }

  lemma InsertCount(slots: map<TaskId, TaskSlot>, id: TaskId, s: TaskSlot)
    ensures |slots[id := s]| == |slots| + if id in slots then 0 else 1
  {
    assert slots[id := s].Keys == slots.Keys + {id};
    assert |slots[id := s]| == |slots[id := s].Keys| && |slots| == |slots.Keys|;
  }

  /** A tick that ends at most as many tasks as are counted leaves the uncounted ones uncounted,
      whichever tasks ended; a tick that ends more leaves the count at zero. */
  lemma TickUncounted(st: RegState, now: u64)
    requires 0 <= Uncounted(st)
    ensures var n := Step(st, Tick(now)).0;
            var ended := |st.slots| - |n.slots|;
            && 0 <= ended
            && (ended <= st.running ==> Uncounted(n) == Uncounted(st))
            && (ended > st.running ==> n.running == 0)
            && Uncounted(n) == Min(Uncounted(st), |n.slots|)
  {
    hide Ticked, TickActions, TickedSlots;
    TickCount(st, now);
  }

  /** What each call does to the uncounted tasks: an adoption adds one, a tick keeps them as far
      as tasks are left, and no other call changes their number. */
  lemma UncountedStep(st: RegState, e: Event)
    requires 0 <= Uncounted(st) && st.running <= st.cap
    requires Admits(st, e) ==> st.nextId !in st.slots
    ensures var n := Step(st, e).0;
            && Uncounted(n) == (if Adopts(st, e) then Uncounted(st) + 1
                                else if e.Tick? then Min(Uncounted(st), |n.slots|)
                                else Uncounted(st))
            && n.running <= n.cap == st.cap
  {
    hide Ticked, OnSlot, TickActions, TickedSlots;
    var n := Step(st, e).0;
    if Admits(st, e) {
      InsertCount(st.slots, st.nextId, n.slots[st.nextId]);
    } else if Adopts(st, e) {
      InsertCount(st.slots, e.snap.id, n.slots[e.snap.id]);
    } else if e.Tick? {
      TickUncounted(st, e.now);
    } else if e.OnOneSlot() && e.id in st.slots {
      InsertCount(st.slots, e.id, n.slots[e.id]);
    }
  }

  /** In every reachable registry the scheduler counts at most the supervised tasks, misses
      at most as many as were adopted, and never passes its cap. */
  lemma {:induction false} SlotAccounting(max: nat, owner: u64, evs: seq<Event>)
    requires Room(Hist(max, owner, evs))
    ensures var h := Hist(max, owner, evs); Accounted(h) && h.st.cap == Max(max, 1)
  {
    hide Step, NextBirths, NextLife;
    if evs != [] {
      var front, e := evs[..|evs| - 1], evs[|evs| - 1];
      RoomBefore(Hist(max, owner, front), e);
      SlotAccounting(max, owner, front);
      NextIdAbove(max, owner, front);
      UncountedStep(Hist(max, owner, front).st, e);
    }
  }

  /** An exact count survives an admission exactly when the issued id is not already live. */
  lemma CountSurvivesAdmit(st: RegState, chat: ChatId, b: Budget, now: u64)
    requires st.running == |st.slots| < st.cap
    ensures var n := Step(st, Admit(chat, b, now)).0; n.running == |n.slots| <==> st.nextId !in st.slots
  {
    var n := Step(st, Admit(chat, b, now)).0;
    InsertCount(st.slots, st.nextId, n.slots[st.nextId]);
  }

  // Until the next adoption the cap holds exactly when nothing is uncounted now.

  /** An exact count stays exact, and the cap with it, until the next adoption. */
  lemma {:induction false} CountStaysExact(max: nat, owner: u64, evs: seq<Event>, more: seq<Event>)
    requires Room(Hist(max, owner, evs + more)) && AdoptionFree(more)
    requires Uncounted(Hist(max, owner, evs).st) == 0
    ensures var st := Hist(max, owner, evs + more).st; st.running == |st.slots| <= st.cap
  {
    hide Step, NextBirths, NextLife, NextTally;
    if more == [] {
      assert evs + more == evs;
      SlotAccounting(max, owner, evs);
    } else {
      var front, e := more[..|more| - 1], more[|more| - 1];
      var before := Hist(max, owner, evs + front);
      assert (evs + more)[..|evs + more| - 1] == evs + front;
      assert e in more;
      RoomBefore(before, e);
      CountStaysExact(max, owner, evs, front);
      NextIdAbove(max, owner, evs + front);
      UncountedStep(before.st, e);
    }
  }

  /** Without adoption the scheduler's count is exactly the number of supervised tasks. */
  lemma ExactAccounting(max: nat, owner: u64, evs: seq<Event>)
    requires Room(Hist(max, owner, evs)) && AdoptionFree(evs)
    ensures var st := Hist(max, owner, evs).st; st.running == |st.slots| <= Max(max, 1)
  {
    assert [] + evs == evs;
    CountStaysExact(max, owner, [], evs);
    SlotAccounting(max, owner, evs);
  }

  predicate Admissions(evs: seq<Event>) {
    forall e | e in evs :: e.Admit?
  }

  lemma {:induction false} AdmissionsTally(max: nat, owner: u64, evs: seq<Event>, more: seq<Event>)
    requires Admissions(more)
    ensures var t, n := Hist(max, owner, evs).tally, Hist(max, owner, evs + more).tally;
            n.highest == t.highest && n.admitted <= t.admitted + |more|
  {
    hide Step, NextBirths, NextLife;
    if more == [] {
      assert evs + more == evs;
    } else {
      var front, e := more[..|more| - 1], more[|more| - 1];
      assert (evs + more)[..|evs + more| - 1] == evs + front;
      assert e in more;
      AdmissionsTally(max, owner, evs, front);
    }
  }

  lemma LiveInsert(st: RegState, chat: ChatId, b: Budget, now: u64)
    requires st.nextId !in st.slots && st.running < st.cap
    ensures var n := Step(st, Admit(chat, b, now)).0;
            |n.slots| == |st.slots| + 1 && |Live(n.slots)| == |Live(st.slots)| + 1
  {
    var n := Step(st, Admit(chat, b, now)).0;
    InsertCount(st.slots, st.nextId, n.slots[st.nextId]);
    assert Live(n.slots) == Live(st.slots) + {st.nextId};
  }

  /** However many admissions are asked for, exactly the free slots are granted, each adding one
      active task on top of whatever is supervised, counted or not. */
  lemma {:induction false} AdmissionsFill(max: nat, owner: u64, evs: seq<Event>, more: seq<Event>)
    requires Room(Hist(max, owner, evs + more)) && Admissions(more)
    ensures var st, n := Hist(max, owner, evs).st, Hist(max, owner, evs + more).st;
            var granted := Min(|more|, st.cap - st.running);
            && n.running == st.running + granted && n.cap == st.cap
            && |n.slots| == |st.slots| + granted
            && |Live(n.slots)| == |Live(st.slots)| + granted
  {
    hide Next, Live;
    if more == [] {
      assert evs + more == evs;
      SlotAccounting(max, owner, evs);
    } else {
      var front, e := more[..|more| - 1], more[|more| - 1];
      var before := Hist(max, owner, evs + front);
      assert (evs + more)[..|evs + more| - 1] == evs + front;
      assert e in more;
      RoomBefore(before, e);
      AdmissionsFill(max, owner, evs, front);
      NextIdAbove(max, owner, evs + front);
      SlotAccounting(max, owner, evs + front);
      AdmitStep(before, e);
    }
  }

  lemma AdmitStep(h: History, e: Event)
    requires e.Admit? && h.st.nextId !in h.st.slots
    ensures var n := Next(h, e).st;
            var granted := if h.st.running < h.st.cap then 1 else 0;
            && n.running == h.st.running + granted && n.cap == h.st.cap
            && |n.slots| == |h.st.slots| + granted
            && |Live(n.slots)| == |Live(h.st.slots)| + granted
  {
    hide Live;
    if h.st.running < h.st.cap {
      LiveInsert(h.st, e.chat, e.budget, e.now);
    }
  }

  /** Whatever calls come next, short of an adoption, at most `cap` tasks are supervised. */
  ghost predicate CapHoldsFrom(max: nat, owner: u64, evs: seq<Event>) {
    forall more | AdoptionFree(more) && Room(Hist(max, owner, evs + more)) ::
      |Hist(max, owner, evs + more).st.slots| <= Max(max, 1)
  }

  /** Whatever admissions come next, at most `cap` tasks are active. */
  ghost predicate CapHoldsAdmitting(max: nat, owner: u64, evs: seq<Event>) {
    forall more | Admissions(more) && Room(Hist(max, owner, evs + more)) ::
      |Live(Hist(max, owner, evs + more).st.slots)| <= Max(max, 1)
  }

  function FillUp(n: nat): seq<Event> {
    seq(n, _ => Admit(0, Budget(0, 0, 0), 0))
  }

  lemma FillsUp(max: nat, owner: u64, evs: seq<Event>)
    requires RoomFor(Hist(max, owner, evs), Max(max, 1))
    ensures var st := Hist(max, owner, evs).st;
            0 <= st.cap - st.running && st.cap == Max(max, 1)
    ensures var st := Hist(max, owner, evs).st;
            var more := FillUp(st.cap - st.running);
            && Admissions(more) && AdoptionFree(more)
            && Room(Hist(max, owner, evs + more))
            && var n := Hist(max, owner, evs + more).st;
            && |n.slots| == Uncounted(st) + st.cap
            && |Live(n.slots)| == |Live(st.slots)| + st.cap - st.running
  {
    hide Hist, Live;
    SlotAccounting(max, owner, evs);
    var st := Hist(max, owner, evs).st;
    var more := FillUp(st.cap - st.running);
    AdmissionsTally(max, owner, evs, more);
    AdmissionsFill(max, owner, evs, more);
  }

  lemma HoldsWhileExact(max: nat, owner: u64, evs: seq<Event>)
    requires Uncounted(Hist(max, owner, evs).st) == 0
    ensures CapHoldsFrom(max, owner, evs)
  {
    hide Hist, Room;
    forall more | AdoptionFree(more) && Room(Hist(max, owner, evs + more))
      ensures |Hist(max, owner, evs + more).st.slots| <= Max(max, 1)
    {
      CountStaysExact(max, owner, evs, more);
      SlotAccounting(max, owner, evs + more);
    }
  }

  lemma HoldsWhileFew(max: nat, owner: u64, evs: seq<Event>)
    requires var st := Hist(max, owner, evs).st; st.cap == Max(max, 1) && |Live(st.slots)| <= st.running
    ensures CapHoldsAdmitting(max, owner, evs)
  {
    hide Hist, Room, Live;
    forall more | Admissions(more) && Room(Hist(max, owner, evs + more))
      ensures |Live(Hist(max, owner, evs + more).st.slots)| <= Max(max, 1)
    {
      AdmissionsFill(max, owner, evs, more);
    }
  }

  lemma Exceeds(max: nat, owner: u64, evs: seq<Event>, more: seq<Event>)
    requires Admissions(more) && AdoptionFree(more) && Room(Hist(max, owner, evs + more))
    ensures |Hist(max, owner, evs + more).st.slots| > Max(max, 1) ==> !CapHoldsFrom(max, owner, evs)
    ensures |Live(Hist(max, owner, evs + more).st.slots)| > Max(max, 1) ==> !CapHoldsAdmitting(max, owner, evs)
  {
    hide Hist, Room, Live, Admissions, AdoptionFree;
  }

  /** The cap on supervised tasks holds from here on exactly when the scheduler's count is exact
      here. Under admissions alone the cap on active tasks holds exactly when they are no more
      than are counted; `ActiveCapIff` gives the condition under every call. */
  lemma CapHoldsIff(max: nat, owner: u64, evs: seq<Event>)
    requires RoomFor(Hist(max, owner, evs), Max(max, 1))
    ensures var st := Hist(max, owner, evs).st;
            && (CapHoldsFrom(max, owner, evs) <==> st.running == |st.slots|)
            && (CapHoldsAdmitting(max, owner, evs) <==> |Live(st.slots)| <= st.running)
  {
    hide Hist, Live, CapHoldsFrom, CapHoldsAdmitting, Admissions, AdoptionFree, FillUp;
    var st := Hist(max, owner, evs).st;
    SlotAccounting(max, owner, evs);
    FillsUp(max, owner, evs);
    Exceeds(max, owner, evs, FillUp(st.cap - st.running));
    if Uncounted(st) == 0 {
      HoldsWhileExact(max, owner, evs);
    }
    if |Live(st.slots)| <= st.running {
      HoldsWhileFew(max, owner, evs);
    }
  }

  // ----- the cap on active tasks -----

  /** Whatever calls come next, short of an adoption, at most `cap` tasks are active. */
  ghost predicate ActiveCapHolds(max: nat, owner: u64, evs: seq<Event>) {
    forall more | AdoptionFree(more) && Room(Hist(max, owner, evs + more)) ::
      |Live(Hist(max, owner, evs + more).st.slots)| <= Max(max, 1)
  }

  /** Every supervised task is counted, or every slot is taken and no task is active. */
  predicate CapSafe(st: RegState) {
    st.running == |st.slots| || (st.running == st.cap && Live(st.slots) == {})
  }

  lemma LiveAtMost(slots: map<TaskId, TaskSlot>)
    ensures |Live(slots)| <= |slots|
  {
    assert Live(slots) <= slots.Keys;
    Subset(Live(slots), slots.Keys);
    assert |slots| == |slots.Keys|;
  }

  lemma Subset<T>(a: set<T>, b: set<T>)
    requires a <= b
    ensures |a| <= |b|
  {
    assert b == a + (b - a);
  }

  /** A tick over tasks that have all ended leaves none. */
  lemma TickEmpties(st: RegState, now: u64)
    requires Live(st.slots) == {}
    ensures Step(st, Tick(now)).0.slots == map[]
  {
    hide Step, Ticked;
    var n := Step(st, Tick(now)).0;
    forall id ensures id !in n.slots {
      TickFinalizes(st, now, id, Expired);
      if id in st.slots {
        assert id !in Live(st.slots);
        DoneTicks(st.slots[id], now);
      }
    }
    assert n.slots.Keys == {};
  }

  lemma EndedStayEnded(st: RegState, e: Event)
    requires Live(st.slots) == {} && e.OnOneSlot()
    ensures Live(Step(st, e).0.slots) == {}
  {
    hide OnSlot, TickActions;
    var n := Step(st, e).0;
    forall id | id in n.slots ensures n.slots[id].phase.Done? {
      SlotAfter(st, e, id);
      assert id !in Live(st.slots);
      if e.id == id {
        DoneStays(st.slots[id], e);
      }
    }
  }

  lemma CapSafeStep(st: RegState, e: Event)
    requires CapSafe(st) && 0 <= Uncounted(st) && st.running <= st.cap && !e.Adopt?
    requires Admits(st, e) ==> st.nextId !in st.slots
    ensures CapSafe(Step(st, e).0)
  {
    hide Live;
    UncountedStep(st, e);
    if st.running != |st.slots| {
      if e.Tick? {
        TickEmpties(st, e.now);
        assert |Step(st, e).0.slots| == 0;
      } else if e.OnOneSlot() {
        EndedStayEnded(st, e);
      }
    }
  }

  lemma {:induction false} CapSafeOnwards(max: nat, owner: u64, evs: seq<Event>, more: seq<Event>)
    requires Room(Hist(max, owner, evs + more)) && AdoptionFree(more)
    requires CapSafe(Hist(max, owner, evs).st)
    ensures CapSafe(Hist(max, owner, evs + more).st)
  {
    hide Step, NextBirths, NextLife, NextTally, CapSafe;
    if more == [] {
      assert evs + more == evs;
    } else {
      var front, e := more[..|more| - 1], more[|more| - 1];
      var before := Hist(max, owner, evs + front);
      assert (evs + more)[..|evs + more| - 1] == evs + front;
      assert e in more;
      RoomBefore(before, e);
      CapSafeOnwards(max, owner, evs, front);
      NextIdAbove(max, owner, evs + front);
      SlotAccounting(max, owner, evs + front);
      CapSafeStep(before.st, e);
    }
  }

  lemma HoldsWhileSafe(max: nat, owner: u64, evs: seq<Event>)
    requires CapSafe(Hist(max, owner, evs).st)
    ensures ActiveCapHolds(max, owner, evs)
  {
    hide Hist, Room, Live;
    forall more | AdoptionFree(more) && Room(Hist(max, owner, evs + more))
      ensures |Live(Hist(max, owner, evs + more).st.slots)| <= Max(max, 1)
    {
      CapSafeOnwards(max, owner, evs, more);
      SlotAccounting(max, owner, evs + more);
      LiveAtMost(Hist(max, owner, evs + more).st.slots);
    }
  }

  lemma StaysAtZero(s: TaskSlot)
    requires !s.phase.Done? && Within(s.usage, s.budget)
    ensures !Ticked(s, 0).phase.Done?
  {
  }

  /** A tick at time zero ends no active task: it forgets exactly the ended ones. */
  lemma TickAtZero(h: History)
    requires AllOk(h)
    ensures var n := Step(h.st, Tick(0)).0;
            n.slots.Keys == Live(h.st.slots) && Live(n.slots) == n.slots.Keys
  {
    hide Step, Ticked;
    var n := Step(h.st, Tick(0)).0;
    forall id ensures id in n.slots <==> id in Live(h.st.slots)
      ensures id in n.slots ==> !n.slots[id].phase.Done?
    {
      TickFinalizes(h.st, 0, id, Expired);
      if id in h.st.slots {
        assert SlotOk(h, id);
        if h.st.slots[id].phase.Done? {
          DoneTicks(h.st.slots[id], 0);
        } else {
          StaysAtZero(h.st.slots[id]);
        }
      }
    }
  }

  /** Some task is uncounted, and every supervised task is active. */
  ghost predicate Exposed(st: RegState) {
    0 < Uncounted(st) && |Live(st.slots)| == |st.slots|
  }

  lemma TickExposes(h: History)
    requires AllOk(h) && 0 < Uncounted(h.st) && Live(h.st.slots) != {}
    ensures Exposed(Next(h, Tick(0)).st) && Next(h, Tick(0)).tally == h.tally
  {
    hide Step, Live, NextBirths, NextLife;
    TickAtZero(h);
    TickUncounted(h.st, 0);
    var n := Step(h.st, Tick(0)).0;
    assert |n.slots| == |n.slots.Keys| > 0;
  }

  /** At most one admission makes some task active, if none is. */
  lemma OneAdmitted(max: nat, owner: u64, evs: seq<Event>) returns (more: seq<Event>)
    requires RoomFor(Hist(max, owner, evs), Max(max, 1) + 1) && !CapSafe(Hist(max, owner, evs).st)
    ensures AdoptionFree(more)
    ensures var h := Hist(max, owner, evs + more);
            RoomFor(h, Max(max, 1)) && 0 < Uncounted(h.st) && Live(h.st.slots) != {}
  {
    hide Hist, Live;
    SlotAccounting(max, owner, evs);
    var st := Hist(max, owner, evs).st;
    more := FillUp(if st.running < st.cap then 1 else 0);
    AdmissionsTally(max, owner, evs, more);
    AdmissionsFill(max, owner, evs, more);
    NonEmpty(Live(st.slots));
    NonEmpty(Live(Hist(max, owner, evs + more).st.slots));
  }

  lemma NonEmpty<T>(s: set<T>)
    ensures s != {} <==> |s| > 0
  {
  }

  lemma MoreActive(max: nat, owner: u64, evs: seq<Event>, more: seq<Event>)
    requires AdoptionFree(more) && Room(Hist(max, owner, evs + more))
    requires |Live(Hist(max, owner, evs + more).st.slots)| > Max(max, 1)
    ensures !ActiveCapHolds(max, owner, evs)
  {
    hide Hist, Room, Live, AdoptionFree;
  }

  lemma ExceededUnlessSafe(max: nat, owner: u64, evs: seq<Event>)
    requires RoomFor(Hist(max, owner, evs), Max(max, 1) + 1) && !CapSafe(Hist(max, owner, evs).st)
    ensures !ActiveCapHolds(max, owner, evs)
  {
    hide Hist, Live, ActiveCapHolds, CapSafe, FillUp, Next;
    var first := OneAdmitted(max, owner, evs);
    var past := Past(max, owner, evs + first);
    SlotsOk(max, owner, past.evs);
    TickExposes(past.Now());
    HistAfter(past, Tick(0));
    var ticked := past.evs + [Tick(0)];
    FillsUp(max, owner, ticked);
    var st := Hist(max, owner, ticked).st;
    var last := FillUp(st.cap - st.running);
    var more := first + [Tick(0)] + last;
    assert evs + more == ticked + last;
    MoreActive(max, owner, evs, more);
  }

  /** At most `cap` tasks are active through every continuation without adoptions exactly when
      every supervised task is counted now, or every slot is taken and no task is active. */
  lemma ActiveCapIff(max: nat, owner: u64, evs: seq<Event>)
    requires RoomFor(Hist(max, owner, evs), Max(max, 1) + 1)
    ensures ActiveCapHolds(max, owner, evs) <==> CapSafe(Hist(max, owner, evs).st)
  {
    hide Hist, ActiveCapHolds, CapSafe;
    if CapSafe(Hist(max, owner, evs).st) {
      HoldsWhileSafe(max, owner, evs);
    } else {
      ExceededUnlessSafe(max, owner, evs);
    }
  }

  // Two failures under a cap of one: adopt task 7 and admit task 8; then let 7 finish and be
  // forgotten, and admit task 9.

  const SMALL := Budget(9, 9, 9)

  function Seven(): Event {
    Adopt(TaskSnapshot(7, 1, Pending, 0, SMALL, NO_USAGE, None), true, 0)
  }

  function AtStart(id: TaskId): TaskSlot {
    NewSlot(id, 1, Pending, 1, SMALL, NO_USAGE, 0)
  }

  function Both(): Past {
    Past(1, 1, []).After(Seven()).After(Admit(1, SMALL, 0))
  }

  function SevenGone(): Past {
    Both().After(Finished(7)).After(Tick(0))
  }

  /** Adoption bypasses the cap: one adopted task and one admitted one under a cap of one. */
  lemma AdoptionBypassesCap()
    ensures var h := Both().Now();
            && h.st == RegState(map[7 := AtStart(7), 8 := AtStart(8)], 1, 1, 1, 9)
            && h.tally == Tally(1, 1, 7)
            && |h.st.slots| == 2
  {
    var start := Past(1, 1, []);
    HistAfter(start, Seven());
    HistAfter(start.After(Seven()), Admit(1, SMALL, 0));
    assert Both().Now().st.slots == map[7 := AtStart(7), 8 := AtStart(8)];
  }

  lemma SevenFinishes()
    ensures var h := Both().After(Finished(7)).Now();
            && h.st == RegState(map[7 := AtStart(7).(phase := Done(Completed)), 8 := AtStart(8)], 1, 1, 1, 9)
            && h.tally == Tally(1, 1, 7)
  {
    hide Hist, Both;
    AdoptionBypassesCap();
    HistAfter(Both(), Finished(7));
    var s := OnSlot(AtStart(7), Finished(7));
    assert map[7 := AtStart(7), 8 := AtStart(8)][7 := s] == map[7 := s, 8 := AtStart(8)];
  }

  /** With both tasks finished and not yet forgotten, one is still uncounted, and yet no
      continuation without adoptions ever has two active tasks. */
  lemma HarmlessUndercount()
    ensures var past := Both().After(Finished(7)).After(Finished(8));
            && Uncounted(past.Now().st) == 1
            && ActiveCapHolds(past.max, past.owner, past.evs)
  {
    hide Hist, Both, ActiveCapHolds;
    var past := Both().After(Finished(7));
    SevenFinishes();
    HistAfter(past, Finished(8));
    var seven, eight := AtStart(7).(phase := Done(Completed)), OnSlot(AtStart(8), Finished(8));
    var slots := past.After(Finished(8)).Now().st.slots;
    assert slots == map[7 := seven, 8 := eight];
    assert |slots| == 2;
    var last := past.After(Finished(8));
    assert last.max == 1 && last.owner == 1 by { BothStart(); }
    HoldsWhileSafe(last.max, last.owner, last.evs);
  }

  lemma BothStart()
    ensures Both().max == 1 && Both().owner == 1
  {
  }

  lemma SevenLeaves()
    ensures var h := SevenGone().Now();
            && h.st == RegState(map[8 := AtStart(8)], 0, 1, 1, 9)
            && h.tally == Tally(1, 1, 7)
  {
    hide Hist, TickActions, Both, AtStart, Ticked;
    var finished := Both().After(Finished(7));
    SevenFinishes();
    HistAfter(finished, Tick(0));
    NothingToCharge();
    var seven := AtStart(7).(phase := Done(Completed));
    var slots := map[7 := seven, 8 := AtStart(8)];
    assert TickedSlots(slots, 0) == slots;
    assert Ended(slots) == {7};
    assert slots - {7} == map[8 := AtStart(8)];
  }

  lemma NothingToCharge()
    ensures Ticked(AtStart(8), 0) == AtStart(8) && !AtStart(8).phase.Done?
    ensures var seven := AtStart(7).(phase := Done(Completed)); Ticked(seven, 0) == seven
  {
  }

  /** The undercount outlives the adopted task: when it is gone two admitted tasks are supervised
      under a cap of one, and the scheduler counts one. */
  lemma UndercountPersists()
    ensures var h := SevenGone().After(Admit(1, SMALL, 0)).Now();
            && h.st == RegState(map[8 := AtStart(8), 9 := AtStart(9)], 1, 1, 1, 10)
            && h.tally == Tally(2, 1, 7)
            && |h.st.slots| == 2
  {
    hide Hist;
    SevenLeaves();
    HistAfter(SevenGone(), Admit(1, SMALL, 0));
    assert SevenGone().After(Admit(1, SMALL, 0)).Now().st.slots == map[8 := AtStart(8), 9 := AtStart(9)];
  }

  // ----- wall time -----

  /** The latest time passed to the registry. */
  function Clock(evs: seq<Event>): u64 {
    if evs == [] then 0 else
    var e := evs[|evs| - 1];
    if e.Timed() then e.now else Clock(evs[..|evs| - 1])
  }

  predicate Monotone(evs: seq<Event>) {
    evs == [] ||
    (var front, e := evs[..|evs| - 1], evs[|evs| - 1];
     Monotone(front) && (e.Timed() ==> Clock(front) <= e.now))
  }

  /** The wall time a task owes at `t`: what it carried plus its age, saturated. */
  function WallDue(birth: Birth, t: u64): int {
    Min(U64_MAX, birth.carried.wall + t - birth.at)
  }

  ghost predicate WallOk(s: TaskSlot, birth: Birth, clock: u64) {
    s.startedAt == birth.at <= s.lastChargeAt <= clock && s.usage.wall == WallDue(birth, s.lastChargeAt)
  }

  lemma WallTicked(s: TaskSlot, birth: Birth, clock: u64, now: u64)
    requires WallOk(s, birth, clock) && clock <= now
    ensures WallOk(Ticked(s, now), birth, now)
  {
  }

  lemma WallOnSlot(s: TaskSlot, birth: Birth, clock: u64, e: Event)
    requires WallOk(s, birth, clock) && e.OnOneSlot() && (e.Timed() ==> clock <= e.now)
    ensures WallOk(OnSlot(s, e), birth, if e.Timed() then e.now else clock)
  {
  }

  ghost predicate AllWall(h: History, clock: u64) {
    forall id | id in h.st.slots :: id in h.births && WallOk(h.st.slots[id], h.births[id], clock)
  }

  lemma AllWallStep(h: History, clock: u64, e: Event)
    requires AllWall(h, clock) && (e.Timed() ==> clock <= e.now)
    ensures AllWall(Next(h, e), if e.Timed() then e.now else clock)
  {
    hide Ticked, OnSlot, TickActions;
    var n, clock' := Next(h, e), if e.Timed() then e.now else clock;
    forall id | id in n.st.slots
      ensures id in n.births && WallOk(n.st.slots[id], n.births[id], clock')
    {
      SlotAfter(h.st, e, id);
      if id in h.st.slots {
        if e.Tick? {
          WallTicked(h.st.slots[id], h.births[id], clock, e.now);
        } else if e.OnOneSlot() {
          WallOnSlot(h.st.slots[id], h.births[id], clock, e);
        }
      }
    }
  }

  /** Wall time is conserved: under a clock that never goes back, every supervised task has
      been charged exactly its age since birth on top of what it carried, once, up to its
      last charge. */
  lemma {:induction false} WallConserved(max: nat, owner: u64, evs: seq<Event>)
    requires Monotone(evs)
    ensures AllWall(Hist(max, owner, evs), Clock(evs))
  {
    hide Next, WallOk;
    if evs != [] {
      WallConserved(max, owner, evs[..|evs| - 1]);
      AllWallStep(Hist(max, owner, evs[..|evs| - 1]), Clock(evs[..|evs| - 1]), evs[|evs| - 1]);
    }
  }

  /** A tick ends a pending or running task on its wall budget exactly when its age has passed
      it; one that survives has been charged up to the tick and is within its budget. */
  lemma WallEnforced(max: nat, owner: u64, evs: seq<Event>, now: u64, id: TaskId)
    requires Monotone(evs) && Clock(evs) <= now
    requires var st := Hist(max, owner, evs).st;
             id in st.slots && (st.slots[id].phase.Pending? || st.slots[id].phase.Running?)
    ensures var h := Hist(max, owner, evs);
            var (n, actions) := Step(h.st, Tick(now));
            && id in h.births
            && var due := WallDue(h.births[id], now);
            && (Finalize(id, BudgetExhausted(Wall)) in actions <==> due > h.births[id].budget.maxWall)
            && (id in n.slots ==>
                  n.slots[id].lastChargeAt == now && n.slots[id].usage.wall == due <= h.births[id].budget.maxWall)
  {
    var h := Hist(max, owner, evs);
    WallConserved(max, owner, evs);
    SlotsOk(max, owner, evs);
    assert SlotOk(h, id);
    WallDecides(h.st.slots[id], h.births[id], now);
    TickFinalizes(h.st, now, id, BudgetExhausted(Wall));
  }

  lemma WallDecides(s: TaskSlot, birth: Birth, now: u64)
    requires s.phase.Pending? || s.phase.Running?
    requires WallOk(s, birth, now) && s.budget == birth.budget && Within(s.usage, s.budget)
    ensures var t := Ticked(s, now);
            && (t.phase == Done(BudgetExhausted(Wall)) <==> WallDue(birth, now) > birth.budget.maxWall)
            && (!t.phase.Done? ==> t.lastChargeAt == now && t.usage.wall == WallDue(birth, now) <= birth.budget.maxWall)
            && (t.phase.Done? ==> t.phase.done.Expired? || t.phase == Done(BudgetExhausted(Wall)))
  {
  }

  // Under a clock that may go back.

  /** By how much a charge at `now` steps back. */
  function BackStep(s: TaskSlot, now: u64): u64 {
    SatSub(s.lastChargeAt, now)
  }

  /** The call charges the slot, and the charge is accepted. */
  predicate ChargesSlot(s: TaskSlot, id: TaskId, e: Event) {
    if e.Tick? then (s.phase.Pending? || s.phase.Running?) && ChargeFor(s, 0, e.now).Ok?
    else e.Progress? && e.id == id && !s.phase.Done? && ChargeFor(s, e.bytes, e.now).Ok?
  }

  function BackNext(st: RegState, e: Event, id: TaskId, before: nat): nat {
    if (Admits(st, e) && id == st.nextId) || (Adopts(st, e) && id == e.snap.id) then 0
    else if id in st.slots && ChargesSlot(st.slots[id], id, e) then before + BackStep(st.slots[id], e.now)
    else before
  }

  /** The backward steps of the charges accepted for a task since its latest birth, added up. */
  ghost function SteppedBack(max: nat, owner: u64, evs: seq<Event>, id: TaskId): nat {
    if evs == [] then 0 else
    var front, e := evs[..|evs| - 1], evs[|evs| - 1];
    BackNext(Hist(max, owner, front).st, e, id, SteppedBack(max, owner, front, id))
  }

  ghost predicate WallWith(s: TaskSlot, birth: Birth, back: nat) {
    && 0 <= birth.carried.wall + s.lastChargeAt - birth.at + back
    && s.usage.wall == Min(U64_MAX, birth.carried.wall + s.lastChargeAt - birth.at + back)
  }

  lemma BackTicked(s: TaskSlot, birth: Birth, back: nat, id: TaskId, now: u64)
    requires WallWith(s, birth, back)
    ensures WallWith(Ticked(s, now), birth, if ChargesSlot(s, id, Tick(now)) then back + BackStep(s, now) else back)
  {
  }

  lemma BackOnSlot(s: TaskSlot, birth: Birth, back: nat, id: TaskId, e: Event)
    requires WallWith(s, birth, back) && e.OnOneSlot() && e.id == id
    ensures WallWith(OnSlot(s, e), birth, if ChargesSlot(s, id, e) then back + BackStep(s, e.now) else back)
  {
  }

  lemma BackStepLaw(h: History, e: Event, id: TaskId, back: nat)
    requires id in h.st.slots ==> id in h.births && WallWith(h.st.slots[id], h.births[id], back)
    ensures var n := Next(h, e);
            id in n.st.slots ==>
              id in n.births && WallWith(n.st.slots[id], n.births[id], BackNext(h.st, e, id, back))
  {
    hide Ticked, OnSlot, TickActions, WallWith;
    var n := Next(h, e);
    if id in n.st.slots {
      SlotAfter(h.st, e, id);
      if (Admits(h.st, e) && id == h.st.nextId) || (Adopts(h.st, e) && id == e.snap.id) {
        BornCharged(n.st.slots[id], n.births[id]);
      } else if e.Tick? {
        BackTicked(h.st.slots[id], h.births[id], back, id, e.now);
      } else if e.OnOneSlot() && e.id == id {
        BackOnSlot(h.st.slots[id], h.births[id], back, id, e);
      }
    }
  }

  lemma BornCharged(s: TaskSlot, birth: Birth)
    requires s.usage == birth.carried && s.lastChargeAt == birth.at
    ensures WallWith(s, birth, 0)
  {
  }

  /** Under any clock, a supervised task has been charged what it carried, plus its age up to its
      last charge, plus every step back at which it was charged. */
  lemma {:induction false} WallUnderAnyClock(max: nat, owner: u64, evs: seq<Event>, id: TaskId)
    ensures var h := Hist(max, owner, evs);
            id in h.st.slots ==>
              id in h.births && WallWith(h.st.slots[id], h.births[id], SteppedBack(max, owner, evs, id))
  {
    hide Next, WallWith, BackNext;
    if evs != [] {
      var front, e := evs[..|evs| - 1], evs[|evs| - 1];
      WallUnderAnyClock(max, owner, front, id);
      BackStepLaw(Hist(max, owner, front), e, id, SteppedBack(max, owner, front, id));
    }
  }

  /** Wall time is conserved for a task exactly when it was never charged at a step back, or the
      saturated total hides it. */
  lemma ConservedIff(max: nat, owner: u64, evs: seq<Event>, id: TaskId)
    requires id in Hist(max, owner, evs).st.slots
    ensures var h := Hist(max, owner, evs);
            && id in h.births
            && var s, birth := h.st.slots[id], h.births[id];
            && (s.usage.wall == WallDue(birth, s.lastChargeAt)
                <==> || SteppedBack(max, owner, evs, id) == 0
                     || birth.carried.wall + s.lastChargeAt - birth.at >= U64_MAX)
  {
    hide Hist, SteppedBack;
    WallUnderAnyClock(max, owner, evs, id);
  }

  /** A charge at an earlier time than the last one breaks conservation, unless the saturated
      total hides it. */
  lemma BackwardsClock(s: TaskSlot, birth: Birth, bytes: u64, now: u64)
    requires WallOk(s, birth, s.lastChargeAt)
    requires !s.phase.Done? && !Charged(s, bytes, now).phase.Done?
    ensures Charged(s, bytes, now).usage.wall == WallDue(birth, now)
            <==> s.lastChargeAt <= now || birth.carried.wall + now - birth.at >= U64_MAX
  {
  }

  /** A clock that steps back by `d` and forth again charges a task `d` for no time at all. */
  lemma BackAndForthOvercharges(s: TaskSlot, d: nat)
    requires s.phase.Pending? || s.phase.Running?
    requires d <= s.lastChargeAt && !s.lease.ExpiredAt(s.lastChargeAt)
    requires Within(s.usage, s.budget) && s.usage.wall + d <= s.budget.maxWall
    ensures Ticked(Ticked(s, s.lastChargeAt - d), s.lastChargeAt) == s.(usage := s.usage.(wall := s.usage.wall + d))
  {
    assert Ticked(s, s.lastChargeAt - d) == s.(lastChargeAt := s.lastChargeAt - d);
  }

  // ----- output -----

  /** The bytes a task has streamed while active since its latest birth. */
  ghost function Streamed(max: nat, owner: u64, evs: seq<Event>, id: TaskId): nat {
    if evs == [] then 0 else
    var front, e := evs[..|evs| - 1], evs[|evs| - 1];
    var st := Hist(max, owner, front).st;
    StreamedNext(st, e, id, Streamed(max, owner, front, id))
  }

  function StreamedNext(st: RegState, e: Event, id: TaskId, before: nat): nat {
    if (Admits(st, e) && id == st.nextId) || (Adopts(st, e) && id == e.snap.id) then 0
    else if e.Progress? && e.id == id && id in st.slots && !st.slots[id].phase.Done? then before + e.bytes
    else before
  }

  function OutputDue(birth: Birth, streamed: nat): int {
    Min(U64_MAX, birth.carried.output + streamed)
  }

  ghost predicate OutputOk(h: History, id: TaskId, streamed: nat) {
    id in h.st.slots ==>
      && id in h.births
      && (!h.st.slots[id].phase.Done? ==> h.st.slots[id].usage.output == OutputDue(h.births[id], streamed))
  }

  lemma OutputStep(h: History, e: Event, id: TaskId, streamed: nat)
    requires OutputOk(h, id, streamed)
    ensures OutputOk(Next(h, e), id, StreamedNext(h.st, e, id, streamed))
  {
    hide TickActions;
    if id in Next(h, e).st.slots {
      SlotAfter(h.st, e, id);
    }
  }

  /** Output is conserved: every active task has been charged exactly the bytes it streamed since
      its birth on top of what it carried, saturated. */
  lemma {:induction false} OutputConserved(max: nat, owner: u64, evs: seq<Event>, id: TaskId)
    ensures OutputOk(Hist(max, owner, evs), id, Streamed(max, owner, evs, id))
  {
    hide Next, StreamedNext;
    if evs != [] {
      OutputConserved(max, owner, evs[..|evs| - 1], id);
      OutputStep(Hist(max, owner, evs[..|evs| - 1]), evs[|evs| - 1], id, Streamed(max, owner, evs[..|evs| - 1], id));
    }
  }

  /** Progress ends an active task on the output axis exactly when its wall charge still holds and
      what it streamed has passed the output budget; otherwise it stays within both. */
  lemma OutputEnforced(max: nat, owner: u64, evs: seq<Event>, id: TaskId, bytes: u64, now: u64)
    requires var st := Hist(max, owner, evs).st; id in st.slots && !st.slots[id].phase.Done?
    ensures var h := Hist(max, owner, evs);
            var s, n := h.st.slots[id], Step(h.st, Progress(id, bytes, now)).0;
            && id in h.births && id in n.slots
            && var due := OutputDue(h.births[id], Streamed(max, owner, evs, id) + bytes);
            && var wall := SatAdd(s.usage.wall, WallSince(s, now));
            && (n.slots[id].phase == Done(BudgetExhausted(Output)) <==>
                  wall <= s.budget.maxWall && due > s.budget.maxOutput)
            && (n.slots[id].phase == Done(BudgetExhausted(Wall)) <==> wall > s.budget.maxWall)
            && (!n.slots[id].phase.Done? ==> n.slots[id].usage.output == due <= s.budget.maxOutput
                                             && n.slots[id].usage.wall == wall <= s.budget.maxWall)
  {
    hide Hist, Streamed;
    var h := Hist(max, owner, evs);
    OutputConserved(max, owner, evs, id);
    SlotsOk(max, owner, evs);
    assert SlotOk(h, id);
    OutputDecides(h.st.slots[id], h.births[id], Streamed(max, owner, evs, id), Progress(id, bytes, now));
  }

  lemma OutputDecides(s: TaskSlot, birth: Birth, streamed: nat, e: Event)
    requires e.Progress? && !s.phase.Done? && Within(s.usage, s.budget) && s.usage.output == OutputDue(birth, streamed)
    ensures var n := OnSlot(s, e);
            var due := OutputDue(birth, streamed + e.bytes);
            var wall := SatAdd(s.usage.wall, WallSince(s, e.now));
            && (n.phase == Done(BudgetExhausted(Output)) <==> wall <= s.budget.maxWall && due > s.budget.maxOutput)
            && (n.phase == Done(BudgetExhausted(Wall)) <==> wall > s.budget.maxWall)
            && (!n.phase.Done? ==>
                  n.usage.output == due <= s.budget.maxOutput && n.usage.wall == wall <= s.budget.maxWall)
  {
  }

  // ----- leases -----

  /** A lease runs out exactly one TTL after the last proof of life, whatever saturates. */
  lemma LeaseExact(max: nat, owner: u64, evs: seq<Event>, now: u64, id: TaskId)
    requires id in Hist(max, owner, evs).st.slots
    ensures var h := Hist(max, owner, evs);
            && id in h.life
            && (h.st.slots[id].lease.ExpiredAt(now) <==> now - h.life[id] > 60_000)
            && h.st.slots[id].lease.owner == owner
  {
    SlotsOk(max, owner, evs);
    assert SlotOk(Hist(max, owner, evs), id);
    OwnerStays(max, owner, evs);
  }

  lemma {:induction false} OwnerStays(max: nat, owner: u64, evs: seq<Event>)
    ensures Hist(max, owner, evs).st.owner == owner
  {
    hide TickActions, TickedSlots;
    if evs != [] {
      OwnerStays(max, owner, evs[..|evs| - 1]);
    }
  }

  /** How a tick ends a stale task: as it had already ended, killed if it was being cancelled,
      out of budget if it cannot pay for the time since its last charge, otherwise expired. */
  function StaleEnding(s: TaskSlot, now: u64): TaskDone {
    match s.phase
    case Done(d) => d
    case Cancelling => Killed
    case _ =>
      match ChargeFor(s, 0, now)
      case Err(axis) => BudgetExhausted(axis)
      case Ok(_) => Expired
  }

  /** A task with no proof of life within the TTL is reclaimed by the tick that sees it. */
  lemma StaleIsReclaimed(max: nat, owner: u64, evs: seq<Event>, now: u64, id: TaskId)
    requires var h := Hist(max, owner, evs); id in h.st.slots && Stale(h, id, now)
    ensures var st := Hist(max, owner, evs).st;
            var (n, actions) := Step(st, Tick(now));
            id !in n.slots && Finalize(id, StaleEnding(st.slots[id], now)) in actions
  {
    hide Hist, Step, Ticked, StaleEnding;
    var h := Hist(max, owner, evs);
    LeaseExact(max, owner, evs, now, id);
    StaleTicks(h.st.slots[id], now);
    TickFinalizes(h.st, now, id, StaleEnding(h.st.slots[id], now));
  }

  lemma StaleTicks(s: TaskSlot, now: u64)
    requires s.lease.ExpiredAt(now)
    ensures Ticked(s, now).phase == Done(StaleEnding(s, now))
  {
  }

  /** At every tick of the run, the task (while active) has given proof of life within the TTL. */
  ghost predicate KeptAlive(max: nat, owner: u64, evs: seq<Event>, id: TaskId) {
    evs == [] ||
    (var front, e := evs[..|evs| - 1], evs[|evs| - 1];
     KeptAlive(max, owner, front, id) && (e.Tick? ==> AliveAt(Hist(max, owner, front), id, e.now)))
  }

  ghost predicate AliveAt(h: History, id: TaskId, now: u64) {
    id in h.st.slots && !h.st.slots[id].phase.Done? ==> id in h.life && now <= h.life[id] + LEASE_TTL
  }

  lemma {:induction false} AliveThroughout(max: nat, owner: u64, evs: seq<Event>, id: TaskId, k: nat)
    requires KeptAlive(max, owner, evs, id) && k < |evs| && evs[k].Tick?
    ensures AliveAt(Hist(max, owner, evs[..k]), id, evs[k].now)
  {
    hide Hist, AliveAt;
    if k < |evs| - 1 {
      AliveThroughout(max, owner, evs[..|evs| - 1], id, k);
      assert evs[..|evs| - 1][..k] == evs[..k];
    }
  }

  lemma AliveCauses(past: Past, id: TaskId, chat: ChatId, d: TaskDone)
    requires KeptAlive(past.max, past.owner, past.evs, id) && Caused(past, id, chat, d)
    ensures !d.Expired? && !d.Cancelled?
    ensures d.Killed? ==> Ordered(past, Kill(id, chat), id, chat)
  {
    hide Hist, KeptAlive, ChargeFor;
    var k :| 0 <= k < |past.evs| && CausedAt(past, k, id, chat, d);
    assert past.Before(k).Now() == Hist(past.max, past.owner, past.evs[..k]);
    if past.evs[k].Tick? {
      AliveThroughout(past.max, past.owner, past.evs, id, k);
    }
  }

  /** The task was killed only by an order its own chat gave while it was active, and it never
      ended expired or cancelled. */
  ghost predicate OnlyOrderedKills(past: Past, id: TaskId) {
    var h := past.Now();
    && (Finalize(id, Killed) in h.trace ==>
          id in h.births && Ordered(past, Kill(id, h.births[id].chat), id, h.births[id].chat))
    && Finalize(id, Expired) !in h.trace
    && Finalize(id, Cancelled) !in h.trace
  }

  lemma EndingCaused(past: Past, id: TaskId, d: TaskDone)
    requires FreshIds(past.max, past.owner, past.evs) && Finalize(id, d) in past.Now().trace
    ensures id in past.Now().births && Caused(past, id, past.Now().births[id].chat, d)
  {
    hide Hist, Caused, FreshIds;
    var h := past.Now();
    var j :| 0 <= j < |h.trace| && h.trace[j] == Finalize(id, d);
    FinalizeOnce(past.max, past.owner, past.evs, id, j, d);
  }

  /** A task kept alive never ends as expired, and ends as killed only when its own chat ordered
      that while the task was active. */
  lemma KeptAliveEndings(max: nat, owner: u64, evs: seq<Event>, id: TaskId)
    requires FreshIds(max, owner, evs) && KeptAlive(max, owner, evs, id)
    ensures OnlyOrderedKills(Past(max, owner, evs), id)
  {
    hide Hist, FreshIds, KeptAlive, Caused, Ordered;
    var past := Past(max, owner, evs);
    forall d: TaskDone | Finalize(id, d) in past.Now().trace
      ensures !d.Expired? && !d.Cancelled?
      ensures id in past.Now().births
      ensures d.Killed? ==> Ordered(past, Kill(id, past.Now().births[id].chat), id, past.Now().births[id].chat)
    {
      EndingCaused(past, id, d);
      AliveCauses(past, id, past.Now().births[id].chat, d);
    }
  }

  // ----- endings that never come -----

  /** No call ever ends a task as cancelled: whatever the run, none is ever finalized so. */
  lemma {:induction false} NeverCancelled(max: nat, owner: u64, evs: seq<Event>, id: TaskId)
    ensures var h := Hist(max, owner, evs);
            && Finalize(id, Cancelled) !in h.trace
            && (id in h.st.slots ==> h.st.slots[id].phase != Done(Cancelled))
  {
    hide Step, NextBirths, NextLife, NextTally;
    SlotsOk(max, owner, evs);
    if id in Hist(max, owner, evs).st.slots {
      assert SlotOk(Hist(max, owner, evs), id);
    }
    if evs != [] {
      var front, e := evs[..|evs| - 1], evs[|evs| - 1];
      NeverCancelled(max, owner, front, id);
      NoneCancelled(Hist(max, owner, front), e, id);
    }
  }

  lemma NoneCancelled(h: History, e: Event, id: TaskId)
    requires id in h.st.slots ==> h.st.slots[id].phase != Done(Cancelled)
    ensures Finalize(id, Cancelled) !in Step(h.st, e).1
  {
    hide Step, Ticked;
    if e.Tick? {
      TickFinalizes(h.st, e.now, id, Cancelled);
      if id in h.st.slots {
        TickCancelsNone(h.st.slots[id], e.now);
      }
    } else {
      OnlyTicksSpeak(h.st, e);
    }
  }

  lemma TickCancelsNone(s: TaskSlot, now: u64)
    requires s.phase != Done(Cancelled)
    ensures Ticked(s, now).phase != Done(Cancelled)
  {
  }

  lemma OnlyTicksSpeak(st: RegState, e: Event)
    requires !e.Tick?
    ensures Step(st, e).1 == []
  {
  }

  // ----- the token axis -----

  ghost predicate NoTokens(s: TaskSlot) {
    s.usage.tokens == 0 && s.phase != Done(BudgetExhausted(Tokens))
  }

  ghost predicate NoTokenEndings(h: History) {
    && (forall id | id in h.st.slots :: NoTokens(h.st.slots[id]))
    && (forall id :: Finalize(id, BudgetExhausted(Tokens)) !in h.trace)
  }

  lemma NoTokensStep(h: History, e: Event)
    requires NoTokenEndings(h) && !e.Adopt?
    ensures NoTokenEndings(Next(h, e))
  {
    hide TickActions, TickedSlots, Ended;
    var n := Next(h, e);
    forall id | id in n.st.slots ensures NoTokens(n.st.slots[id]) {
      SlotAfter(h.st, e, id);
    }
    forall id ensures Finalize(id, BudgetExhausted(Tokens)) !in n.trace {
      assert n.trace == h.trace + Step(h.st, e).1;
      if e.Tick? {
        TickFinalizes(h.st, e.now, id, BudgetExhausted(Tokens));
      }
    }
  }

  /** The registry charges no tokens, so without adoption no task ends on the token axis. */
  lemma {:induction false} NeverOutOfTokens(max: nat, owner: u64, evs: seq<Event>)
    requires forall e | e in evs :: !e.Adopt?
    ensures NoTokenEndings(Hist(max, owner, evs))
  {
    hide Next;
    if evs != [] {
      NeverOutOfTokens(max, owner, evs[..|evs| - 1]);
      NoTokensStep(Hist(max, owner, evs[..|evs| - 1]), evs[|evs| - 1]);
    }
  }
}
