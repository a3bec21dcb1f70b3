/** A restart: dump the live tasks, read the dump back, adopt each into a fresh registry. */
module Recovery {
  import opened Foundation
  import opened Supervisor
  import opened RegistryModel
  import opened RegistryRuns
  import opened RegistryConservation
  import opened SnapshotCodec

  function LiveAmong(slots: map<TaskId, TaskSlot>, ids: seq<TaskId>): set<TaskId> {
    set id | id in ids && id in slots && !slots[id].phase.Done?
  }

  // ----- what is dumped -----

  ghost predicate Keyed(slots: map<TaskId, TaskSlot>) {
    forall id | id in slots :: slots[id].id == id
  }

  /** `snaps` is the dump of exactly the tasks in `ids`, in id order. */
  ghost predicate DumpOf(snaps: seq<TaskSnapshot>, slots: map<TaskId, TaskSlot>, ids: set<TaskId>, now: u64) {
    && |snaps| == |ids|
    && (forall i, j | 0 <= i < j < |snaps| :: snaps[i].id < snaps[j].id)
    && (forall s | s in snaps :: s.id in ids && s.id in slots && s == SnapshotOf(slots[s.id], now))
    && (forall id | id in ids :: id in slots && SnapshotOf(slots[id], now) in snaps)
  }

  lemma DumpSnoc(snaps: seq<TaskSnapshot>, slots: map<TaskId, TaskSlot>, ids: set<TaskId>, id: TaskId, now: u64)
    requires DumpOf(snaps, slots, ids, now)
    requires id in slots && slots[id].id == id && forall x | x in ids :: x < id
    ensures DumpOf(snaps + [SnapshotOf(slots[id], now)], slots, ids + {id}, now)
  {
    var s := SnapshotOf(slots[id], now);
    var longer := snaps + [s];
    forall i, j | 0 <= i < j < |longer| ensures longer[i].id < longer[j].id {
      if j == |snaps| {
        assert snaps[i] in snaps;
      }
    }
    forall x | x in ids + {id} ensures x in slots && SnapshotOf(slots[x], now) in longer {
      assert x == id ==> longer[|snaps|] == SnapshotOf(slots[x], now);
    }
  }

  lemma KeyedAt(slots: map<TaskId, TaskSlot>, id: TaskId)
    requires Keyed(slots) && id in slots
    ensures slots[id].id == id
  {
  }

  lemma LiveSnoc(slots: map<TaskId, TaskSlot>, ids: seq<TaskId>)
    requires ids != [] && forall i, j | 0 <= i < j < |ids| :: ids[i] < ids[j]
    ensures var front, last := ids[..|ids| - 1], ids[|ids| - 1];
            && (forall x | x in LiveAmong(slots, front) :: x < last)
            && LiveAmong(slots, ids)
               == LiveAmong(slots, front) + (if last in slots && !slots[last].phase.Done? then {last} else {})
  {
    assert ids == ids[..|ids| - 1] + [ids[|ids| - 1]];
  }

  lemma {:induction false} DumpsLive(slots: map<TaskId, TaskSlot>, ids: seq<TaskId>, now: u64)
    requires Keyed(slots)
    requires forall i, j | 0 <= i < j < |ids| :: ids[i] < ids[j]
    ensures DumpOf(SnapshotIds(slots, ids, now), slots, LiveAmong(slots, ids), now)
  {
    hide SnapshotOf;
    if ids != [] {
      hide DumpOf;
      var front, last := ids[..|ids| - 1], ids[|ids| - 1];
      DumpsLive(slots, front, now);
      var before := LiveAmong(slots, front);
      LiveSnoc(slots, ids);
      hide LiveAmong, Keyed;
      if last in slots && !slots[last].phase.Done? {
        assert slots[last].id == last by { KeyedAt(slots, last); }
        DumpSnoc(SnapshotIds(slots, front, now), slots, before, last, now);
      }
    }
  }

  lemma DumpsAll(st: RegState, now: u64)
    requires Keyed(st.slots)
    ensures DumpOf(SnapshotAll(st, now), st.slots, Live(st.slots), now)
  {
    var ids := Ascending(st.slots.Keys);
    DumpsLive(st.slots, ids, now);
    assert Live(st.slots) == LiveAmong(st.slots, ids);
  }

  /** The dump of any reachable registry at any time: one snapshot for each task that has not ended
      and no other, with its chat, phase, budget and usage, no path, and what is left of the 60 s
      from its last proof of life, as far as 64 bits go. */
  lemma DumpExact(max: nat, owner: u64, evs: seq<Event>, now: u64, id: TaskId)
    ensures var h := Hist(max, owner, evs);
            var snaps := SnapshotAll(h.st, now);
            && NoRepeats(snaps)
            && ((exists s | s in snaps :: s.id == id) <==> id in h.st.slots && !h.st.slots[id].phase.Done?)
            && (forall s | s in snaps && s.id == id ::
                  && id in h.st.slots && id in h.life
                  && s.chat == h.st.slots[id].chat && s.phase == h.st.slots[id].phase
                  && s.budget == h.st.slots[id].budget && s.usage == h.st.slots[id].usage
                  && s.worktree == None
                  && s.leaseRemaining == Max(0, Min(U64_MAX, h.life[id] as int + 60_000) - now))
  {
    hide Hist, SnapshotAll;
    var h := Hist(max, owner, evs);
    var snaps := SnapshotAll(h.st, now);
    SlotsOk(max, owner, evs);
    forall k | k in h.st.slots ensures SlotOk(h, k) {
    }
    DumpsAll(h.st, now);
    if id in Live(h.st.slots) {
      assert SnapshotOf(h.st.slots[id], now) in snaps && SlotOk(h, id);
    }
  }

  // ----- what is adopted -----

  function Adoptions(snaps: seq<TaskSnapshot>, now: u64): seq<Event> {
    seq(|snaps|, i requires 0 <= i < |snaps| => Adopt(snaps[i], true, now))
  }

  /** A registry holding exactly the tasks of `snaps`, each pending under a fresh lease. */
  ghost predicate Recovered(st: RegState, snaps: seq<TaskSnapshot>, now: u64) {
    && st.running == 0
    && (forall id | id in st.slots :: exists s | s in snaps :: s.id == id)
    && (forall s | s in snaps ::
          && s.id in st.slots
          && st.slots[s.id] == NewSlot(s.id, s.chat, Pending, st.owner, s.budget, s.usage, now)
          && s.id < st.nextId)
  }

  lemma AdoptOne(st: RegState, snaps: seq<TaskSnapshot>, s: TaskSnapshot, now: u64)
    requires Recovered(st, snaps, now)
    requires forall x | x in snaps :: x.id != s.id
    requires Within(s.usage, s.budget) && s.id < U64_MAX
    ensures var n := Step(st, Adopt(s, true, now)).0;
            Recovered(n, snaps + [s], now) && n.owner == st.owner && n.cap == st.cap
  {
    var n := Step(st, Adopt(s, true, now)).0;
    var slot := NewSlot(s.id, s.chat, Pending, st.owner, s.budget, s.usage, now);
    AdoptsPending(st, snaps, s, now);
    hide Step;
    var longer := snaps + [s];
    assert longer[|snaps|] == s;
    forall id | id in n.slots ensures exists x | x in longer :: x.id == id {
      if id == s.id {
        assert s in longer;
      } else {
        var x :| x in snaps && x.id == id;
        assert x in longer;
      }
    }
  }

  lemma AdoptsPending(st: RegState, snaps: seq<TaskSnapshot>, s: TaskSnapshot, now: u64)
    requires Recovered(st, snaps, now)
    requires forall x | x in snaps :: x.id != s.id
    requires Within(s.usage, s.budget) && s.id < U64_MAX
    ensures Step(st, Adopt(s, true, now)).0
            == st.(slots := st.slots[s.id := NewSlot(s.id, s.chat, Pending, st.owner, s.budget, s.usage, now)],
                   nextId := Max(st.nextId, s.id + 1))
  {
  }

  lemma LastIsNew(snaps: seq<TaskSnapshot>)
    requires snaps != [] && forall i, j | 0 <= i < j < |snaps| :: snaps[i].id < snaps[j].id
    ensures forall x | x in snaps[..|snaps| - 1] :: x.id != snaps[|snaps| - 1].id
  {
  }

  lemma {:induction false} AdoptsAll(max: nat, owner: u64, snaps: seq<TaskSnapshot>, now: u64)
    requires forall i, j | 0 <= i < j < |snaps| :: snaps[i].id < snaps[j].id
    requires forall s | s in snaps :: Within(s.usage, s.budget) && s.id < U64_MAX
    ensures var h := Hist(max, owner, Adoptions(snaps, now));
            Recovered(h.st, snaps, now) && h.st.owner == owner && h.st.cap == Max(max, 1)
  {
    hide Step, NextBirths, NextLife;
    if snaps != [] {
      hide Recovered, Within;
      var front, last := snaps[..|snaps| - 1], snaps[|snaps| - 1];
      var evs := Adoptions(snaps, now);
      assert evs[..|evs| - 1] == Adoptions(front, now);
      assert evs[|evs| - 1] == Adopt(last, true, now);
      AdoptsAll(max, owner, front, now);
      LastIsNew(snaps);
      AdoptOne(Hist(max, owner, Adoptions(front, now)).st, front, last, now);
      assert snaps == front + [last];
    }
  }

  // ----- the whole restart -----

  /** From any reachable registry with at most 4096 live tasks: dump it at `dumpedAt`, decode the
      bytes, and adopt every snapshot into a fresh registry of another owner. The same tasks are
      supervised, each pending under a fresh lease of the new owner with its chat, budget and
      usage kept; no slot is counted as running; the id counter is above every adopted id. */
  lemma RestartPreserves(max: nat, owner: u64, evs: seq<Event>, dumpedAt: u64,
                         max': nat, owner': u64, now: u64, lossy: seq<byte> -> seq<byte>)
    requires Room(Hist(max, owner, evs))
    requires |Live(Hist(max, owner, evs).st.slots)| <= MAX_SNAPSHOTS
    ensures var was := Hist(max, owner, evs).st;
            var decoded := Decode(Encode(SnapshotAll(was, dumpedAt)), lossy);
            && decoded.Ok?
            && var st := Hist(max', owner', Adoptions(decoded.value, now)).st;
            && st.slots.Keys == Live(was.slots)
            && (forall id | id in Live(was.slots) ::
                  && id < st.nextId
                  && st.slots[id] == NewSlot(id, was.slots[id].chat, Pending, owner', was.slots[id].budget,
                                             was.slots[id].usage, now))
            && st.running == 0
  {
    hide Hist, Decode, Encode, SnapshotAll, Adoptions, Within;
    var was := Hist(max, owner, evs).st;
    var snaps := SnapshotAll(was, dumpedAt);
    DumpReadable(max, owner, evs, dumpedAt, lossy);
    AdoptsAll(max', owner', snaps, now);
    var st := Hist(max', owner', Adoptions(snaps, now)).st;
    assert st.slots.Keys == Live(was.slots);
    forall id | id in Live(was.slots)
      ensures id < st.nextId && st.slots[id] == NewSlot(id, was.slots[id].chat, Pending, owner', was.slots[id].budget,
                                                        was.slots[id].usage, now)
    {
      assert SnapshotOf(was.slots[id], dumpedAt) in snaps;
    }
  }

  /** The dump of a reachable registry decodes to itself and can be adopted whole. */
  lemma DumpReadable(max: nat, owner: u64, evs: seq<Event>, dumpedAt: u64, lossy: seq<byte> -> seq<byte>)
    requires Room(Hist(max, owner, evs))
    requires |Live(Hist(max, owner, evs).st.slots)| <= MAX_SNAPSHOTS
    ensures var was := Hist(max, owner, evs).st;
            var snaps := SnapshotAll(was, dumpedAt);
            && Decode(Encode(snaps), lossy) == Ok(snaps)
            && DumpOf(snaps, was.slots, Live(was.slots), dumpedAt)
            && Keyed(was.slots)
            && (forall s | s in snaps :: Within(s.usage, s.budget) && s.id < U64_MAX)
  {
    hide Hist, Decode, Encode, SnapshotAll;
    var h := Hist(max, owner, evs);
    var snaps := SnapshotAll(h.st, dumpedAt);
    SlotsOk(max, owner, evs);
    NextIdAbove(max, owner, evs);
    forall id | id in h.st.slots ensures SlotOk(h, id) && id < U64_MAX {
    }
    DumpsAll(h.st, dumpedAt);
    RoundTrip(snaps, [], lossy);
    assert Encode(snaps) + [] == Encode(snaps);
    forall s | s in snaps ensures Within(s.usage, s.budget) && s.id < U64_MAX {
      assert SlotOk(h, s.id);
    }
  }

  // ----- the run after a restart -----

  /** Every birth is the adoption of one of `snaps` at `now`. */
  ghost predicate BornFrom(births: map<TaskId, Birth>, snaps: seq<TaskSnapshot>, now: u64) {
    forall id | id in births :: exists s | s in snaps ::
      s.id == id && births[id] == Birth(s.chat, s.budget, s.usage, now)
  }

  lemma BornSnoc(h: History, snaps: seq<TaskSnapshot>, last: TaskSnapshot, now: u64)
    requires BornFrom(h.births, snaps, now)
    ensures BornFrom(Next(h, Adopt(last, true, now)).births, snaps + [last], now)
  {
    hide Step, NextLife, NextTally;
    var births := NextBirths(h, Adopt(last, true, now));
    var longer := snaps + [last];
    assert longer[|snaps|] == last;
    forall id | id in births
      ensures exists s | s in longer :: s.id == id && births[id] == Birth(s.chat, s.budget, s.usage, now)
    {
      if id == last.id && last.id !in h.st.slots {
        assert last in longer;
      } else {
        var s :| s in snaps && s.id == id && births[id] == Birth(s.chat, s.budget, s.usage, now);
        assert s in longer;
      }
    }
  }

  lemma NotBorn(births: map<TaskId, Birth>, snaps: seq<TaskSnapshot>, now: u64, id: TaskId)
    requires BornFrom(births, snaps, now) && forall x | x in snaps :: x.id != id
    ensures id !in births
  {
  }

  lemma {:induction false} FreshAdoptions(max: nat, owner: u64, snaps: seq<TaskSnapshot>, now: u64)
    requires forall i, j | 0 <= i < j < |snaps| :: snaps[i].id < snaps[j].id
    ensures FreshIds(max, owner, Adoptions(snaps, now))
    ensures BornFrom(Hist(max, owner, Adoptions(snaps, now)).births, snaps, now)
  {
    hide Next;
    if snaps != [] {
      hide BornFrom;
      var front, last := snaps[..|snaps| - 1], snaps[|snaps| - 1];
      var evs := Adoptions(snaps, now);
      assert evs[..|evs| - 1] == Adoptions(front, now) && evs[|evs| - 1] == Adopt(last, true, now);
      var h := Hist(max, owner, Adoptions(front, now));
      FreshAdoptions(max, owner, front, now);
      LastIsNew(snaps);
      NotBorn(h.births, front, now, last.id);
      BornSnoc(h, front, last, now);
      assert snaps == front + [last];
    }
  }

  /** After a restart every task, adopted or new, again has its story told exactly once. */
  lemma StoriesAfterRestart(max: nat, owner: u64, snaps: seq<TaskSnapshot>, now: u64, more: seq<Event>, id: TaskId)
    requires forall i, j | 0 <= i < j < |snaps| :: snaps[i].id < snaps[j].id
    requires AdoptionFree(more) && Room(Hist(max, owner, Adoptions(snaps, now) + more))
    ensures Story(Past(max, owner, Adoptions(snaps, now) + more), id)
  {
    hide Hist, Story, Adoptions, FreshIds;
    FreshAdoptions(max, owner, snaps, now);
    FreshOnwards(max, owner, Adoptions(snaps, now), more);
    EveryStory(max, owner, Adoptions(snaps, now) + more, id);
  }

  lemma BirthOfDumped(births: map<TaskId, Birth>, snaps: seq<TaskSnapshot>, slots: map<TaskId, TaskSlot>, dumpedAt: u64,
                      now: u64, id: TaskId)
    requires BornFrom(births, snaps, now) && DumpOf(snaps, slots, Live(slots), dumpedAt) && id in births && Keyed(slots)
    ensures id in slots && births[id] == Birth(slots[id].chat, slots[id].budget, slots[id].usage, now)
  {
    var s :| s in snaps && s.id == id && births[id] == Birth(s.chat, s.budget, s.usage, now);
    assert s == SnapshotOf(slots[s.id], dumpedAt);
  }

  /** What an adopted task has been charged in its second life: exactly its age since the
      adoption, and while it is active exactly what it streamed since, each on top of what it
      had used before the restart. */
  ghost predicate ChargedOnTop(past: Past, id: TaskId, before: Usage, now: u64) {
    var st := past.Now().st;
    id in st.slots ==>
      var s := st.slots[id];
      && now <= s.lastChargeAt
      && s.usage.wall == Min(U64_MAX, before.wall + s.lastChargeAt - now)
      && (!s.phase.Done? ==>
            s.usage.output == Min(U64_MAX, before.output + Streamed(past.max, past.owner, past.evs, id)))
  }

  /** From any reachable registry with at most 4096 live tasks, through dump, decode, adoption and
      any further run without adoptions under a clock that never goes back: every adopted task
      keeps its chat and budget, is charged on top of what it had used, and has its story told
      exactly once. */
  lemma SecondLife(max: nat, owner: u64, evs: seq<Event>, dumpedAt: u64, max': nat, owner': u64, now: u64,
                   more: seq<Event>, lossy: seq<byte> -> seq<byte>, id: TaskId)
    requires Room(Hist(max, owner, evs)) && AdoptionFree(more)
    requires var was := Hist(max, owner, evs).st; |Live(was.slots)| <= MAX_SNAPSHOTS && id in Live(was.slots)
    ensures var was := Hist(max, owner, evs).st;
            var decoded := Decode(Encode(SnapshotAll(was, dumpedAt)), lossy);
            && decoded.Ok?
            && var past := Past(max', owner', Adoptions(decoded.value, now) + more);
            && (Room(past.Now()) && Monotone(past.evs) ==>
                  && id in past.Now().births
                  && past.Now().births[id] == Birth(was.slots[id].chat, was.slots[id].budget, was.slots[id].usage, now)
                  && ChargedOnTop(past, id, was.slots[id].usage, now)
                  && Story(past, id))
  {
    hide Hist, Decode, Encode, SnapshotAll, Adoptions, Story, DumpOf, Within, Live, Room, Monotone, ChargedOnTop;
    var was := Hist(max, owner, evs).st;
    var snaps := SnapshotAll(was, dumpedAt);
    DumpReadable(max, owner, evs, dumpedAt, lossy);
    RestartPreserves(max, owner, evs, dumpedAt, max', owner', now, lossy);
    DumpAscends(snaps, was.slots, Live(was.slots), dumpedAt);
    var past := Past(max', owner', Adoptions(snaps, now) + more);
    if Room(past.Now()) && Monotone(past.evs) {
      StoriesAfterRestart(max', owner', snaps, now, more, id);
      CarriedOver(max', owner', snaps, now, more, id, was.slots, dumpedAt);
      ChargedAfter(past, id, was.slots[id].usage, now);
    }
  }

  lemma DumpAscends(snaps: seq<TaskSnapshot>, slots: map<TaskId, TaskSlot>, ids: set<TaskId>, now: u64)
    requires DumpOf(snaps, slots, ids, now)
    ensures forall i, j | 0 <= i < j < |snaps| :: snaps[i].id < snaps[j].id
  {
  }

  lemma CarriedOver(max: nat, owner: u64, snaps: seq<TaskSnapshot>, now: u64, more: seq<Event>, id: TaskId,
                    slots: map<TaskId, TaskSlot>, dumpedAt: u64)
    requires forall i, j | 0 <= i < j < |snaps| :: snaps[i].id < snaps[j].id
    requires AdoptionFree(more) && Room(Hist(max, owner, Adoptions(snaps, now) + more))
    requires DumpOf(snaps, slots, Live(slots), dumpedAt) && Keyed(slots)
    requires id in Hist(max, owner, Adoptions(snaps, now)).st.slots
    ensures var births := Hist(max, owner, Adoptions(snaps, now) + more).births;
            id in slots && id in births && births[id] == Birth(slots[id].chat, slots[id].budget, slots[id].usage, now)
  {
    hide Hist, Adoptions, DumpOf, Keyed, Live, FreshIds, BornFrom, AdoptionFree, Room;
    var adoptions := Adoptions(snaps, now);
    FreshAdoptions(max, owner, snaps, now);
    FreshOnwards(max, owner, adoptions, more);
    SlotsOk(max, owner, adoptions);
    assert SlotOk(Hist(max, owner, adoptions), id);
    BirthOfDumped(Hist(max, owner, adoptions).births, snaps, slots, dumpedAt, now, id);
    BirthsStay(max, owner, adoptions, more, id);
  }

  lemma ChargedAfter(past: Past, id: TaskId, before: Usage, now: u64)
    requires Monotone(past.evs)
    requires id in past.Now().births && past.Now().births[id].carried == before && past.Now().births[id].at == now
    ensures ChargedOnTop(past, id, before, now)
  {
    hide Hist, Monotone, Streamed;
    WallConserved(past.max, past.owner, past.evs);
    OutputConserved(past.max, past.owner, past.evs, id);
  }
}
