/** The fan-out coordinator: proposers race at one goal and the verifier picks the winner.
    What the executor does at each attempt (answer, fail or panic) is an arbitrary input. */
module Fanout {
  import opened Foundation
  import opened Supervisor
  import Text

  type AgentId = u64

  datatype AgentSpec = AgentSpec(role: nat, budget: Budget)

  const MAX_SUMMARY := 8 * 1024

  datatype Reply = Replied(verified: bool, claimed: bool, used: Usage, summary: string) | Failed | Panicked

  datatype Kind = PatchProposal | TestResult

  /** Addressed to the supervisor; there is no other destination. */
  datatype Message = Message(from: AgentId, role: nat, kind: Kind, payload: string)

  datatype Refusal = UnknownAgent | Concurrency | OverBudget(axis: Axis) | ExecFailed

  datatype Outcome = Outcome(agent: AgentId, role: nat, accepted: bool, claimed: bool, summary: string, usage: Usage)

  /** How one attempt ended; `Unwound` is a panic passing through. */
  datatype Ran = Done(outcome: Outcome) | Refused(why: Refusal) | Unwound {
    predicate Accepted() { Done? && outcome.accepted }
  }

  class Blackboard {
    var messages: seq<Message>

    constructor ()
      ensures messages == []
    {
      messages := [];
    }

    method Post(m: Message)
      modifies this
      ensures messages == old(messages) + [m]
    {
      messages := messages + [m];
    }
  }

  type Usages = map<AgentId, Usage>

  function UsageOf(usages: Usages, agent: AgentId): Usage {
    if agent in usages then usages[agent] else NO_USAGE
  }

  /** The outcome of one attempt by `agent` with `usage` spent so far; `free` says whether the
      scheduler has a slot. */
  function Attempt(specs: map<AgentId, AgentSpec>, free: bool, agent: AgentId, reply: Reply, usage: Usage): Ran {
    if agent !in specs then Refused(UnknownAgent)
    else if !free then Refused(Concurrency)
    else match reply
      case Panicked => Unwound
      case Failed => Refused(ExecFailed)
      case Replied(verified, claimed, used, summary) =>
        match Charge(usage, used, specs[agent].budget)
        case Err(axis) => Refused(OverBudget(axis))
        case Ok(next) =>
          Done(Outcome(agent, specs[agent].role, verified, claimed, Text.Fit(summary, MAX_SUMMARY), next))
  }

  function Posts(ran: Ran): seq<Message> {
    if ran.Done? then
      var o := ran.outcome;
      [Message(o.agent, o.role, if o.accepted then PatchProposal else TestResult, o.summary)]
    else []
  }

  function UsageAfter(ran: Ran, usage: Usage): Usage {
    if ran.Done? then ran.outcome.usage else usage
  }

  /** Runs one subagent. The reserved slot is released on every path, a panic included, and
      only a completed run is charged and posted. */
  method RunSubagent(specs: map<AgentId, AgentSpec>, agent: AgentId, reply: Reply, usage: Usage,
                     scheduler: Scheduler, blackboard: Blackboard) returns (ran: Ran, next: Usage)
    modifies scheduler, blackboard
    ensures ran == Attempt(specs, old(scheduler.running) < scheduler.maxConcurrent, agent, reply, usage)
    ensures next == UsageAfter(ran, usage)
    ensures blackboard.messages == old(blackboard.messages) + Posts(ran)
    ensures scheduler.running == old(scheduler.running)
  {
    next := usage;
    if agent !in specs {
      return Refused(UnknownAgent), usage;
    }
    var spec := specs[agent];
    var reserved := scheduler.TrySpawn();
    if !reserved {
      return Refused(Concurrency), usage;
    }
    var charged := RunCharged(spec, reply, usage);
    if reply.Replied? {
      ChargeMeans(usage, reply.used, spec.budget);
    }
    match charged {
      case Err(out) =>
        ran := out;
      case Ok(after) =>
        next := after;
        var summary := Text.Fit(reply.summary, MAX_SUMMARY);
        var kind := if reply.verified then PatchProposal else TestResult;
        blackboard.Post(Message(agent, spec.role, kind, summary));
        ran := Done(Outcome(agent, spec.role, reply.verified, reply.claimed, summary, after));
    }
    scheduler.Finish(); // the slot guard is dropped
  }

  /** Runs the executor and charges what it used. The caller gets the new usage exactly for a reply
      whose total fits the budget; a reply that does not fit names the first axis it is over on. */
  method RunCharged(spec: AgentSpec, reply: Reply, usage: Usage) returns (r: Result<Usage, Ran>)
    ensures r.Ok? <==> reply.Replied? && Within(Plus(usage, reply.used), spec.budget)
    ensures r.Ok? ==> r.value == Plus(usage, reply.used)
    ensures r == Err(Unwound) <==> reply.Panicked?
    ensures r == Err(Refused(ExecFailed)) <==> reply.Failed?
    ensures r.Err? && reply.Replied? ==>
              exists axis ::
                r.error == Refused(OverBudget(axis)) && FirstOver(Plus(usage, reply.used), spec.budget, axis)
  {
    match reply {
      case Panicked => return Err(Unwound);
      case Failed => return Err(Refused(ExecFailed));
      case Replied(_, _, used, _) =>
        ChargeMeans(usage, used, spec.budget);
        match Charge(usage, used, spec.budget) {
          case Ok(next) => return Ok(next);
          case Err(axis) => return Err(Refused(OverBudget(axis)));
        }
    }
  }

  // ----- the race -----

  datatype Plan = Plan(specs: map<AgentId, AgentSpec>, free: bool, proposers: seq<AgentId>, replies: seq<Reply>) {
    ghost predicate Valid() { |replies| == |proposers| }
  }

  datatype Race = Race(results: seq<(AgentId, Ran)>, usages: Usages, posts: seq<Message>, over: bool)

  ghost function RanNext(p: Plan, before: Race, k: nat): Ran
    requires p.Valid() && k < |p.proposers|
  {
    Attempt(p.specs, p.free, p.proposers[k], p.replies[k], UsageOf(before.usages, p.proposers[k]))
  }

  /** The race after attempt `k`: it is over once an attempt is accepted or panics. */
  ghost function Advance(p: Plan, before: Race, k: nat): Race
    requires p.Valid() && k < |p.proposers|
  {
    var agent, ran := p.proposers[k], RanNext(p, before, k);
    Race(before.results + [(agent, ran)], before.usages[agent := UsageAfter(ran, UsageOf(before.usages, agent))],
         before.posts + Posts(ran), Stops(ran))
  }

  ghost predicate Stops(r: Ran) { r.Accepted() || r.Unwound? }

  /** The race after at most `i` attempts. */
  ghost function RaceTo(p: Plan, usages: Usages, i: nat): Race
    requires p.Valid() && i <= |p.proposers|
  {
    if i == 0 then Race([], usages, [], false) else
    var before := RaceTo(p, usages, i - 1);
    if before.over then before else Advance(p, before, i - 1)
  }

  ghost function RaceAll(p: Plan, usages: Usages): Race
    requires p.Valid()
  {
    RaceTo(p, usages, |p.proposers|)
  }

  method RunFanout(specs: map<AgentId, AgentSpec>, proposers: seq<AgentId>, replies: seq<Reply>, usages: Usages,
                   scheduler: Scheduler, blackboard: Blackboard)
    returns (results: seq<(AgentId, Ran)>, winner: Option<AgentId>, after: Usages)
    requires |replies| == |proposers|
    modifies scheduler, blackboard
    ensures var race := RaceAll(Plan(specs, old(scheduler.running) < scheduler.maxConcurrent, proposers, replies),
                                usages);
            && results == race.results
            && after == race.usages
            && blackboard.messages == old(blackboard.messages) + race.posts
            && winner == if results != [] && results[|results| - 1].1.Accepted()
                         then Some(results[|results| - 1].0) else None
    ensures scheduler.running == old(scheduler.running)
  {
    ghost var p := Plan(specs, scheduler.running < scheduler.maxConcurrent, proposers, replies);
    results, winner, after := [], None, usages;
    assert blackboard.messages + [] == blackboard.messages;
    for i := 0 to |proposers|
      invariant scheduler.running == old(scheduler.running)
      invariant RaceTo(p, usages, i) == Race(results, after, RaceTo(p, usages, i).posts, false)
      invariant blackboard.messages == old(blackboard.messages) + RaceTo(p, usages, i).posts
      invariant results != [] ==> !results[|results| - 1].1.Accepted()
      invariant winner == None
    {
      var agent := proposers[i];
      var ran, next := RunSubagent(specs, agent, replies[i], UsageOf(after, agent), scheduler, blackboard);
      Assoc(old(blackboard.messages), RaceTo(p, usages, i).posts, Posts(ran));
      after := after[agent := next];
      results := results + [(agent, ran)];
      if ran.Accepted() || ran.Unwound? {
        OverStays(p, usages, i + 1, |proposers|);
        if ran.Accepted() {
          winner := Some(agent);
        }
        return;
      }
    }
  }

  lemma {:induction false} OverStays(p: Plan, usages: Usages, i: nat, n: nat)
    requires p.Valid() && i <= n <= |p.proposers| && RaceTo(p, usages, i).over
    ensures RaceTo(p, usages, n) == RaceTo(p, usages, i)
  {
    if i < n {
      OverStays(p, usages, i, n - 1);
    }
  }

  // ----- what a race amounts to -----

  /** The results are the proposers in order, up to and including the first attempt that stops the race. */
  ghost predicate UpToFirstStop(race: Race, p: Plan, i: nat)
    requires i <= |p.proposers|
  {
    && |race.results| <= i
    && (forall k | 0 <= k < |race.results| :: race.results[k].0 == p.proposers[k])
    && (forall k | 0 <= k < |race.results| - 1 :: !Stops(race.results[k].1))
    && (race.over <==> race.results != [] && Stops(race.results[|race.results| - 1].1))
    && (!race.over ==> |race.results| == i)
  }

  function Count(posts: seq<Message>, kind: Kind): nat {
    if posts == [] then 0 else Count(posts[..|posts| - 1], kind) + (if posts[|posts| - 1].kind == kind then 1 else 0)
  }

  function Completed(results: seq<(AgentId, Ran)>): nat {
    if results == [] then 0 else
    Completed(results[..|results| - 1]) + (if results[|results| - 1].1.Done? then 1 else 0)
  }

  ghost predicate PostedBy(race: Race, k: nat, m: Message) {
    && k < |race.results|
    && race.results[k].1.Done?
    && race.results[k].0 == m.from
    && race.results[k].1.outcome.role == m.role
    && race.results[k].1.outcome.summary == m.payload
  }

  /** One message for each completed attempt, and one patch proposal exactly when there is a winner. */
  ghost predicate PostedOnce(race: Race) {
    && |race.posts| == Completed(race.results)
    && Count(race.posts, PatchProposal)
       == (if race.results != [] && race.results[|race.results| - 1].1.Accepted() then 1 else 0)
    && forall m | m in race.posts :: Text.Bytes(m.payload) <= MAX_SUMMARY && exists k :: PostedBy(race, k, m)
  }

  ghost predicate AllWithin(usages: Usages, specs: map<AgentId, AgentSpec>) {
    forall a | a in specs :: Within(UsageOf(usages, a), specs[a].budget)
  }

  lemma PostSnoc(race: Race, agent: AgentId, ran: Ran, usages: Usages)
    requires PostedOnce(race) && (race.results != [] ==> !Stops(race.results[|race.results| - 1].1))
    requires ran.Done? ==> ran.outcome.agent == agent && Text.Bytes(ran.outcome.summary) <= MAX_SUMMARY
    ensures PostedOnce(Race(race.results + [(agent, ran)], usages, race.posts + Posts(ran), Stops(ran)))
  {
    var results, posts := race.results + [(agent, ran)], race.posts + Posts(ran);
    assert results[..|results| - 1] == race.results;
    if ran.Done? {
      assert posts[..|posts| - 1] == race.posts;
      assert results[|race.results|] == (agent, ran);
    } else {
      assert posts == race.posts;
    }
    var after := Race(results, usages, posts, Stops(ran));
    forall m | m in posts
      ensures Text.Bytes(m.payload) <= MAX_SUMMARY && exists k :: PostedBy(after, k, m)
    {
      if m in race.posts {
        var k :| PostedBy(race, k, m);
        assert PostedBy(after, k, m);
      } else {
        assert PostedBy(after, |race.results|, m);
      }
    }
  }

  lemma RanFacts(p: Plan, before: Race, k: nat)
    requires p.Valid() && k < |p.proposers|
    ensures var agent, ran := p.proposers[k], RanNext(p, before, k);
            && (ran.Unwound? ==> p.replies[k].Panicked?)
            && (ran.Done? ==>
                  && ran.outcome.agent == agent && agent in p.specs && Within(ran.outcome.usage, p.specs[agent].budget)
                  && Text.Bytes(ran.outcome.summary) <= MAX_SUMMARY)
  {
  }

  lemma AdvanceOrder(p: Plan, before: Race, k: nat)
    requires p.Valid() && k < |p.proposers| && UpToFirstStop(before, p, k) && !before.over
    ensures UpToFirstStop(Advance(p, before, k), p, k + 1)
  {
    hide RanNext, Posts, UsageAfter, Stops;
    var results := Advance(p, before, k).results;
    assert results[|results| - 1] == (p.proposers[k], RanNext(p, before, k));
    forall j | 0 <= j < |results| - 1 ensures !Stops(results[j].1) && results[j].0 == p.proposers[j] {
      assert results[j] == before.results[j];
    }
  }

  lemma {:induction false} RaceOrder(p: Plan, usages: Usages, i: nat)
    requires p.Valid() && i <= |p.proposers|
    ensures UpToFirstStop(RaceTo(p, usages, i), p, i)
  {
    hide Advance, Stops;
    if i > 0 {
      var before := RaceTo(p, usages, i - 1);
      RaceOrder(p, usages, i - 1);
      if !before.over {
        AdvanceOrder(p, before, i - 1);
      }
    }
  }

  lemma {:induction false} RacePosts(p: Plan, usages: Usages, i: nat)
    requires p.Valid() && i <= |p.proposers|
    ensures PostedOnce(RaceTo(p, usages, i))
  {
    hide Advance, Stops;
    if i > 0 {
      hide PostedOnce, UpToFirstStop;
      var before := RaceTo(p, usages, i - 1);
      RacePosts(p, usages, i - 1);
      RaceOrder(p, usages, i - 1);
      if !before.over {
        AdvancePosts(p, before, i - 1);
      }
    }
  }

  lemma AdvancePosts(p: Plan, before: Race, k: nat)
    requires p.Valid() && k < |p.proposers| && UpToFirstStop(before, p, k) && !before.over && PostedOnce(before)
    ensures PostedOnce(Advance(p, before, k))
  {
    hide RanNext, Posts, UsageAfter, PostedOnce;
    RanFacts(p, before, k);
    PostSnoc(before, p.proposers[k], RanNext(p, before, k), Advance(p, before, k).usages);
  }

  lemma {:induction false} RaceBudgets(p: Plan, usages: Usages, i: nat)
    requires p.Valid() && i <= |p.proposers| && AllWithin(usages, p.specs)
    ensures AllWithin(RaceTo(p, usages, i).usages, p.specs)
  {
    hide RanNext, Posts;
    if i > 0 {
      RaceBudgets(p, usages, i - 1);
      RanFacts(p, RaceTo(p, usages, i - 1), i - 1);
    }
  }

  /** For every executor behaviour: the attempts are the proposers up to the first accepted one
      (or panic), one message per completed attempt, one patch proposal exactly for the winner,
      and an agent that starts within its budget stays within it. */
  lemma RaceSound(p: Plan, usages: Usages)
    requires p.Valid()
    ensures var race := RaceAll(p, usages);
            && UpToFirstStop(race, p, |p.proposers|)
            && PostedOnce(race)
            && (AllWithin(usages, p.specs) ==> AllWithin(race.usages, p.specs))
  {
    hide RaceTo, UpToFirstStop, PostedOnce, AllWithin;
    RaceOrder(p, usages, |p.proposers|);
    RacePosts(p, usages, |p.proposers|);
    if AllWithin(usages, p.specs) {
      RaceBudgets(p, usages, |p.proposers|);
    }
  }

  // ----- who wins -----

  /** What `agent` has used after the first `i` attempts, had none of them stopped the race: each
      reply it gave is added whose total fits its budget. */
  function Spent(p: Plan, usages: Usages, agent: AgentId, i: nat): Usage
    requires |p.replies| == |p.proposers| && i <= |p.proposers|
  {
    if i == 0 then UsageOf(usages, agent) else
    var before := Spent(p, usages, agent, i - 1);
    var reply := p.replies[i - 1];
    if p.proposers[i - 1] == agent && Fits(p, agent, reply, before) then Plus(before, reply.used) else before
  }

  predicate Fits(p: Plan, agent: AgentId, reply: Reply, spent: Usage) {
    agent in p.specs && p.free && reply.Replied? && Within(Plus(spent, reply.used), p.specs[agent].budget)
  }

  /** Attempt `k` is verified and fits the budget of its agent, given the attempts before it. */
  predicate Eligible(p: Plan, usages: Usages, k: nat)
    requires |p.replies| == |p.proposers| && k < |p.proposers|
  {
    var agent, reply := p.proposers[k], p.replies[k];
    Fits(p, agent, reply, Spent(p, usages, agent, k)) && reply.verified
  }

  predicate Panics(p: Plan, k: nat)
    requires |p.replies| == |p.proposers| && k < |p.proposers|
  {
    p.proposers[k] in p.specs && p.free && p.replies[k].Panicked?
  }

  lemma AttemptFits(p: Plan, agent: AgentId, reply: Reply, spent: Usage)
    ensures var ran := Attempt(p.specs, p.free, agent, reply, spent);
            && (ran.Done? <==> Fits(p, agent, reply, spent))
            && (ran.Done? ==> ran.outcome.usage == Plus(spent, reply.used) && ran.outcome.accepted == reply.verified)
            && (ran.Unwound? <==> agent in p.specs && p.free && reply.Panicked?)
  {
    if reply.Replied? && agent in p.specs {
      ChargeMeans(spent, reply.used, p.specs[agent].budget);
    }
  }

  /** While the race is on, every agent has used what it is said to have spent. */
  lemma {:induction false} SpentIs(p: Plan, usages: Usages, i: nat, agent: AgentId)
    requires p.Valid() && i <= |p.proposers| && !RaceTo(p, usages, i).over
    ensures UsageOf(RaceTo(p, usages, i).usages, agent) == Spent(p, usages, agent, i)
  {
    hide Attempt, Posts, Fits;
    if i > 0 {
      SpentIs(p, usages, i - 1, agent);
      AttemptFits(p, p.proposers[i - 1], p.replies[i - 1],
                  UsageOf(RaceTo(p, usages, i - 1).usages, p.proposers[i - 1]));
    }
  }

  /** The race was stopped by the first attempt that is eligible or panics, or none of the first
      `i` is either. */
  ghost predicate StoppedByFirst(race: Race, p: Plan, usages: Usages, i: nat)
    requires p.Valid() && i <= |p.proposers|
  {
    var n := |race.results|;
    if race.over then
      && 0 < n <= i && race.results[n - 1].0 == p.proposers[n - 1]
      && (race.results[n - 1].1.Accepted() <==> Eligible(p, usages, n - 1))
      && (race.results[n - 1].1.Unwound? <==> Panics(p, n - 1))
      && forall k | 0 <= k < n - 1 :: !Eligible(p, usages, k) && !Panics(p, k)
    else
      forall k | 0 <= k < i :: !Eligible(p, usages, k) && !Panics(p, k)
  }

  lemma AdvanceWins(p: Plan, usages: Usages, before: Race, k: nat)
    requires p.Valid() && k < |p.proposers|
    requires StoppedByFirst(before, p, usages, k) && !before.over && |before.results| == k
    requires UsageOf(before.usages, p.proposers[k]) == Spent(p, usages, p.proposers[k], k)
    ensures StoppedByFirst(Advance(p, before, k), p, usages, k + 1)
  {
    hide Attempt, Posts, UsageAfter, Spent, Fits;
    AttemptFits(p, p.proposers[k], p.replies[k], Spent(p, usages, p.proposers[k], k));
    var ran := RanNext(p, before, k);
    assert ran.Accepted() <==> Eligible(p, usages, k);
    assert ran.Unwound? <==> Panics(p, k);
  }

  /** Whoever proposes, however often, and whatever the executor does: the race is won by the first
      eligible attempt before any panic, and is lost exactly when there is none. */
  lemma {:induction false} FirstVerifiedWins(p: Plan, usages: Usages, i: nat)
    requires p.Valid() && i <= |p.proposers|
    ensures StoppedByFirst(RaceTo(p, usages, i), p, usages, i)
  {
    hide Advance, Eligible, Panics, Stops;
    if i > 0 {
      var before := RaceTo(p, usages, i - 1);
      FirstVerifiedWins(p, usages, i - 1);
      RaceOrder(p, usages, i - 1);
      if !before.over {
        SpentIs(p, usages, i - 1, p.proposers[i - 1]);
        AdvanceWins(p, usages, before, i - 1);
      }
    }
  }

  // ----- what each attempt came to -----

  /** What attempt `k` came to, told from the plan, the reply and what its agent had spent by then:
      an unknown agent, a full scheduler, a panic or a failure for what they are; a reply over budget
      by the first axis it is over on; otherwise an outcome in the registered role, accepted as the
      verifier says, with the total usage and the longest part of the summary within 8 KiB. */
  ghost predicate Explained(p: Plan, usages: Usages, k: nat, ran: Ran)
    requires p.Valid() && k < |p.proposers|
  {
    var agent, reply := p.proposers[k], p.replies[k];
    if agent !in p.specs then ran == Refused(UnknownAgent)
    else if !p.free then ran == Refused(Concurrency)
    else if reply.Panicked? then ran == Unwound
    else if reply.Failed? then ran == Refused(ExecFailed)
    else
      var total := Plus(Spent(p, usages, agent, k), reply.used);
      if Within(total, p.specs[agent].budget) then
        && ran.Done?
        && ran.outcome.agent == agent && ran.outcome.role == p.specs[agent].role
        && ran.outcome.accepted == reply.verified && ran.outcome.claimed == reply.claimed
        && ran.outcome.usage == total
        && Summarizes(ran.outcome.summary, reply.summary)
      else exists axis :: ran == Refused(OverBudget(axis)) && FirstOver(total, p.specs[agent].budget, axis)
  }

  /** `kept` is the longest part from the start of `summary` that fits 8 KiB. */
  ghost predicate Summarizes(kept: string, summary: string) {
    && kept <= summary && Text.Bytes(kept) <= 8192
    && (kept == summary <==> Text.Bytes(summary) <= 8192)
    && forall j | |kept| < j <= |summary| :: Text.Bytes(summary[..j]) > 8192
  }

  lemma FitSummarizes(summary: string)
    ensures Summarizes(Text.Fit(summary, MAX_SUMMARY), summary)
  {
    assert summary[..|summary|] == summary;
  }

  lemma AttemptExplained(p: Plan, usages: Usages, before: Race, k: nat)
    requires p.Valid() && k < |p.proposers|
    requires UsageOf(before.usages, p.proposers[k]) == Spent(p, usages, p.proposers[k], k)
    ensures Explained(p, usages, k, RanNext(p, before, k))
  {
    hide Summarizes, Spent;
    var agent, reply := p.proposers[k], p.replies[k];
    if reply.Replied? && agent in p.specs {
      ChargeMeans(Spent(p, usages, agent, k), reply.used, p.specs[agent].budget);
      FitSummarizes(reply.summary);
    }
  }

  /** The messages completed attempts stand for, in order: a patch proposal for an accepted one, a
      test result otherwise, each with its agent, role and summary. */
  function MessagesOf(results: seq<(AgentId, Ran)>): seq<Message> {
    if results == [] then [] else
    var (agent, ran) := results[|results| - 1];
    MessagesOf(results[..|results| - 1])
    + match ran
      case Done(o) => [Message(agent, o.role, if o.accepted then PatchProposal else TestResult, o.summary)]
      case _ => []
  }

  ghost predicate AllExplained(race: Race, p: Plan, usages: Usages)
    requires p.Valid()
  {
    && |race.results| <= |p.proposers|
    && (forall k | 0 <= k < |race.results| ::
          race.results[k].0 == p.proposers[k] && Explained(p, usages, k, race.results[k].1))
    && race.posts == MessagesOf(race.results)
  }

  lemma AdvanceExplained(p: Plan, usages: Usages, before: Race, k: nat)
    requires p.Valid() && k < |p.proposers| && |before.results| == k && AllExplained(before, p, usages)
    requires UsageOf(before.usages, p.proposers[k]) == Spent(p, usages, p.proposers[k], k)
    ensures AllExplained(Advance(p, before, k), p, usages)
  {
    hide Explained, Spent, RanNext;
    var race := Advance(p, before, k);
    var ran := RanNext(p, before, k);
    AttemptExplained(p, usages, before, k);
    RanFacts(p, before, k);
    assert race.results[..k] == before.results && race.results[k] == (p.proposers[k], ran);
    forall j | 0 <= j < |race.results|
      ensures race.results[j].0 == p.proposers[j] && Explained(p, usages, j, race.results[j].1)
    {
      assert j < k ==> race.results[j] == before.results[j];
    }
  }

  /** For every plan and every executor behaviour, each attempt of the race is explained by its reply,
      and the blackboard gets exactly the messages of the completed attempts, in order. */
  lemma {:induction false} RaceExplained(p: Plan, usages: Usages, i: nat)
    requires p.Valid() && i <= |p.proposers|
    ensures AllExplained(RaceTo(p, usages, i), p, usages)
  {
    hide Advance, Stops, Explained;
    if i > 0 {
      var before := RaceTo(p, usages, i - 1);
      RaceExplained(p, usages, i - 1);
      RaceOrder(p, usages, i - 1);
      if !before.over {
        SpentIs(p, usages, i - 1, p.proposers[i - 1]);
        AdvanceExplained(p, usages, before, i - 1);
      }
    }
  }

  /** With no free slot every attempt is refused and the race leaves no trace. */
  lemma {:induction false} NoSlotNoRace(p: Plan, usages: Usages, i: nat)
    requires p.Valid() && i <= |p.proposers| && !p.free
    ensures var race := RaceTo(p, usages, i);
            && !race.over && race.posts == []
            && (forall a :: UsageOf(race.usages, a) == UsageOf(usages, a))
            && forall r | r in race.results :: r.1.Refused?
  {
    if i > 0 {
      NoSlotNoRace(p, usages, i - 1);
    }
  }
}
