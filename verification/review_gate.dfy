/** Which candidate a fan-out keeps, and when a verified task may integrate. */
module ReviewGate {
  import opened Foundation

  datatype RiskTier = Low | Standard | High | Critical {
    predicate AtLeastHigh() { High? || Critical? }
  }

  datatype TaskShape = Unknown | BugFix | Feature | UiChange | DependencyChange | DocsOnly | WorkflowChange
    | SecuritySensitive

  // ----- scoring -----

  datatype PatchMetadata = PatchMetadata(verified: bool, diffBytes: u64, gatesPassed: nat, securityReviewPassed: bool)

  /** The score in units of 1/1024, in which every step of the 32-bit computation is exact. */
  function Score(m: PatchMetadata, risk: RiskTier): (s: int)
    ensures m.verified ==> s >= 50 * 1024
    ensures !m.verified ==> s <= 28 * 1024
  {
    (if m.verified then 100 * 1024 else 0)
    - Min(m.diffBytes, 50 * 1024)
    + Min(m.gatesPassed, 10) * 2 * 1024
    + (if m.securityReviewPassed then 5 * 1024 + (if risk.AtLeastHigh() then 3 * 1024 else 0) else 0)
  }

  /** What each fact about a candidate is worth, whatever the others are: 100 points for verification;
      a point less for each KiB of diff up to 50; two for each gate up to ten; five for a security
      review, eight at high risk. A candidate with nothing to show scores nothing. */
  lemma ScoreIs(m: PatchMetadata, risk: RiskTier, diff: u64, gates: nat)
    ensures Score(PatchMetadata(false, 0, 0, false), risk) == 0
    ensures Score(m.(verified := true), risk) - Score(m.(verified := false), risk) == 102_400
    ensures Score(m.(diffBytes := 0), risk) - Score(m.(diffBytes := diff), risk) == Min(diff, 51_200)
    ensures Score(m.(gatesPassed := gates), risk) - Score(m.(gatesPassed := 0), risk) == 2048 * Min(gates, 10)
    ensures Score(m.(securityReviewPassed := true), risk) - Score(m.(securityReviewPassed := false), risk)
            == if risk.High? || risk.Critical? then 8192 else 5120
  {
  }

  /** So among verified candidates with equal gates and reviews the smaller diff ranks higher, down to
      50 KiB. */
  lemma SmallerRanksHigher(m: PatchMetadata, risk: RiskTier, a: u64, b: u64)
    ensures Score(m.(diffBytes := a), risk) > Score(m.(diffBytes := b), risk) <==> a < b && a < 51_200
  {
  }

  /** `k` is the first candidate of maximal score among the first `n`. */
  ghost predicate FirstBest<T>(candidates: seq<(T, PatchMetadata)>, n: nat, risk: RiskTier, k: nat) {
    && k < n <= |candidates|
    && (forall j | 0 <= j < n :: Score(candidates[j].1, risk) <= Score(candidates[k].1, risk))
    && (forall j | 0 <= j < k :: Score(candidates[j].1, risk) < Score(candidates[k].1, risk))
  }

  ghost predicate Picks<T>(candidates: seq<(T, PatchMetadata)>, risk: RiskTier, k: nat, best: Option<T>) {
    && FirstBest(candidates, |candidates|, risk, k) && best == Some(candidates[k].0)
    && ((exists j | 0 <= j < |candidates| :: candidates[j].1.verified) ==> candidates[k].1.verified)
  }

  /** Picks the first maximal candidate, which is verified whenever any candidate is. */
  method PickBest<T>(candidates: seq<(T, PatchMetadata)>, risk: RiskTier) returns (best: Option<T>)
    ensures candidates == [] ==> best == None
    ensures candidates != [] ==> exists k: nat :: Picks(candidates, risk, k, best)
  {
    hide Score;
    best := None;
    var score := 0;
    ghost var k := 0;
    for i := 0 to |candidates|
      invariant i == 0 <==> best == None
      invariant i > 0 ==>
                  && FirstBest(candidates, i, risk, k)
                  && best == Some(candidates[k].0)
                  && score == Score(candidates[k].1, risk)
    {
      var s := Score(candidates[i].1, risk);
      if best == None || s > score {
        best, score, k := Some(candidates[i].0), s, i;
      }
    }
    if candidates != [] {
      BestIsVerified(candidates, risk, k);
      assert Picks(candidates, risk, k, best);
    }
  }

  lemma BestIsVerified<T>(candidates: seq<(T, PatchMetadata)>, risk: RiskTier, k: nat)
    requires FirstBest(candidates, |candidates|, risk, k)
    ensures (exists j | 0 <= j < |candidates| :: candidates[j].1.verified) ==> candidates[k].1.verified
  {
    if j :| 0 <= j < |candidates| && candidates[j].1.verified {
      assert Score(candidates[j].1, risk) <= Score(candidates[k].1, risk);
    }
  }

  // ----- the review gate -----

  datatype Role = Supervisor | Planner | Researcher | RepoAnalyst | Architect | Implementer | Tester | Reviewer
    | SecurityAuditor | DependencyAnalyst | ReleaseManager | DocumentationWriter
    | ExternalCodex | ExternalClaudeCode | ExternalCommand
  {
    predicate CanBlock() { Reviewer? || SecurityAuditor? || Tester? }
  }

  datatype Verdict = Approve | Block(reason: string)

  datatype IntegrationDecision = Integrate | BlockedBy(role: Role, reason: string) | NotVerified | MissingReview

  type Verdicts = seq<(Role, Verdict)>

  /** The first veto by a role that may block. */
  function FirstVeto(verdicts: Verdicts): Option<(Role, string)> {
    if verdicts == [] then None else
    var front, last := FirstVeto(verdicts[..|verdicts| - 1]), verdicts[|verdicts| - 1];
    if front.Some? then front
    else if last.0.CanBlock() && last.1.Block? then Some((last.0, last.1.reason))
    else None
  }

  predicate SawBlocking(verdicts: Verdicts) {
    exists v | v in verdicts :: v.0.CanBlock()
  }

  function Decision(verdicts: Verdicts, verified: bool): IntegrationDecision {
    match FirstVeto(verdicts)
    case Some((role, reason)) => BlockedBy(role, reason)
    case None =>
      if !SawBlocking(verdicts) then MissingReview else if !verified then NotVerified else Integrate
  }

  lemma {:induction false} VetoStays(verdicts: Verdicts, i: nat)
    requires i <= |verdicts|
    ensures FirstVeto(verdicts[..i]).Some? ==> FirstVeto(verdicts) == FirstVeto(verdicts[..i])
  {
    if i == |verdicts| {
      assert verdicts[..i] == verdicts;
    } else {
      assert verdicts[..|verdicts| - 1][..i] == verdicts[..i];
      VetoStays(verdicts[..|verdicts| - 1], i);
    }
  }

  /** Whose block counts. */
  predicate Blocks(v: (Role, Verdict)) {
    (v.0 == Reviewer || v.0 == SecurityAuditor || v.0 == Tester) && v.1.Block?
  }

  ghost predicate FirstBlock(verdicts: Verdicts, k: nat) {
    k < |verdicts| && Blocks(verdicts[k]) && forall j | 0 <= j < k :: !Blocks(verdicts[j])
  }

  lemma {:induction false} VetoIs(verdicts: Verdicts)
    ensures match FirstVeto(verdicts)
            case None => forall j | 0 <= j < |verdicts| :: !Blocks(verdicts[j])
            case Some(v) => exists k | 0 <= k < |verdicts| ::
              FirstBlock(verdicts, k) && v == (verdicts[k].0, verdicts[k].1.reason)
  {
    if verdicts != [] {
      var front := verdicts[..|verdicts| - 1];
      VetoIs(front);
      match FirstVeto(front)
      case Some(v) =>
        var k :| 0 <= k < |front| && FirstBlock(front, k) && v == (front[k].0, front[k].1.reason);
        assert FirstBlock(verdicts, k);
      case None =>
        assert FirstVeto(verdicts).Some? ==> FirstBlock(verdicts, |verdicts| - 1);
    }
  }

  /** What a panel decides: the first block by a reviewer, security auditor or tester names its role and
      reason; without one a vote of such a role is needed, and then the verifier's word. */
  lemma DecisionIs(verdicts: Verdicts, verified: bool)
    ensures var d := Decision(verdicts, verified);
            var voted := exists v | v in verdicts :: v.0 == Reviewer || v.0 == SecurityAuditor || v.0 == Tester;
            if exists k | 0 <= k < |verdicts| :: Blocks(verdicts[k]) then
              exists k | 0 <= k < |verdicts| ::
                FirstBlock(verdicts, k) && d == BlockedBy(verdicts[k].0, verdicts[k].1.reason)
            else d == if !voted then MissingReview else if !verified then NotVerified else Integrate
  {
    hide FirstVeto;
    VetoIs(verdicts);
  }

  method DecideIntegration(verdicts: Verdicts, verified: bool) returns (d: IntegrationDecision)
    ensures d == Decision(verdicts, verified)
  {
    var sawBlocking := false;
    for i := 0 to |verdicts|
      invariant sawBlocking == SawBlocking(verdicts[..i])
      invariant FirstVeto(verdicts[..i]) == None
    {
      TakeSnoc(verdicts, i);
      VetoStays(verdicts, i + 1);
      var (role, verdict) := verdicts[i];
      assert forall v :: v in verdicts[..i + 1] <==> v in verdicts[..i] || v == verdicts[i];
      if !role.CanBlock() {
        continue;
      }
      assert verdicts[i] in verdicts[..i + 1];
      sawBlocking := true;
      if verdict.Block? {
        return BlockedBy(role, verdict.reason);
      }
    }
    assert verdicts[..|verdicts|] == verdicts;
    if !sawBlocking {
      return MissingReview;
    }
    if !verified {
      return NotVerified;
    }
    d := Integrate;
  }

  function RequiredReviewers(task: TaskShape, risk: RiskTier): seq<Role> {
    if task.SecuritySensitive? || task.WorkflowChange? || task.DependencyChange? then [Reviewer, SecurityAuditor]
    else if risk.AtLeastHigh() then [Reviewer]
    else []
  }

  predicate Voted(role: Role, verdicts: Verdicts) {
    exists v | v in verdicts :: v.0 == role
  }

  function Missing(required: seq<Role>, verdicts: Verdicts): seq<Role> {
    if required == [] then [] else
    (if Voted(required[0], verdicts) then [] else [required[0]]) + Missing(required[1..], verdicts)
  }

  datatype AdvisoryOutcome = NotRequired | Pending(roles: seq<Role>) | TimedOut(roles: seq<Role>)
    | Decided(decision: IntegrationDecision)

  function OrchestrateReview(task: TaskShape, risk: RiskTier, verdicts: Verdicts, verified: bool, waited: u64,
                             maxWait: u64): AdvisoryOutcome {
    var required := RequiredReviewers(task, risk);
    if required == [] then NotRequired else
    var missing := Missing(required, verdicts);
    if missing != [] then (if waited >= maxWait then TimedOut(missing) else Pending(missing))
    else Decided(Decision(verdicts, verified))
  }

  datatype TaskOutcome = Failed | AwaitingReview(roles: seq<Role>) | ReviewTimedOut(roles: seq<Role>)
    | ReviewBlocked(role: Role) | ReadyToIntegrate

  function FinalizeTask(task: TaskShape, risk: RiskTier, verified: bool, verdicts: Verdicts, waited: u64,
                        maxWait: u64): TaskOutcome {
    if !verified then Failed else
    match OrchestrateReview(task, risk, verdicts, verified, waited, maxWait)
    case NotRequired => ReadyToIntegrate
    case Pending(roles) => AwaitingReview(roles)
    case TimedOut(roles) => ReviewTimedOut(roles)
    case Decided(Integrate) => ReadyToIntegrate
    case Decided(BlockedBy(role, _)) => ReviewBlocked(role)
    case Decided(_) => AwaitingReview(RequiredReviewers(task, risk))
  }

  lemma {:induction false} NoVeto(verdicts: Verdicts)
    ensures FirstVeto(verdicts).None? <==> forall v | v in verdicts :: v.0.CanBlock() ==> v.1 == Approve
  {
    if verdicts != [] {
      NoVeto(verdicts[..|verdicts| - 1]);
      assert verdicts == verdicts[..|verdicts| - 1] + [verdicts[|verdicts| - 1]];
    }
  }

  lemma {:induction false} NoneMissing(required: seq<Role>, verdicts: Verdicts)
    ensures Missing(required, verdicts) == [] <==> forall r | r in required :: Voted(r, verdicts)
  {
    if required != [] {
      NoneMissing(required[1..], verdicts);
      assert required == [required[0]] + required[1..];
    }
  }

  /** A task is ready to integrate exactly when the verifier accepted it and either no review is
      required, or every required role voted and no role that may block blocked. The fallback for
      an undecided panel is never reached. */
  lemma ReadyExactly(task: TaskShape, risk: RiskTier, verified: bool, verdicts: Verdicts, waited: u64, maxWait: u64)
    ensures var sensitive := task.SecuritySensitive? || task.WorkflowChange? || task.DependencyChange?;
            FinalizeTask(task, risk, verified, verdicts, waited, maxWait) == ReadyToIntegrate
            <==> verified && (sensitive || risk.High? || risk.Critical? ==>
                   && Voted(Reviewer, verdicts) && (sensitive ==> Voted(SecurityAuditor, verdicts))
                   && forall v | v in verdicts :: !Blocks(v))
    ensures verified ==> OrchestrateReview(task, risk, verdicts, verified, waited, maxWait)
                         !in {Decided(NotVerified), Decided(MissingReview)}
  {
    hide FirstVeto, Missing, SawBlocking, Voted;
    var required := RequiredReviewers(task, risk);
    NoVeto(verdicts);
    forall v | v in verdicts ensures Blocks(v) <==> v.0.CanBlock() && v.1 != Approve {
    }
    NoneMissing(required, verdicts);
    if required != [] {
      assert required[0] == Reviewer && Reviewer in required;
      ReviewerBlocks(verdicts);
    }
  }

  /** What becomes of a task that is not ready: it failed without verification; it waits, or has waited
      too long, for exactly the required roles that have not voted; or the first block stops it. */
  lemma OutcomeIs(task: TaskShape, risk: RiskTier, verified: bool, verdicts: Verdicts, waited: u64, maxWait: u64)
    ensures var o := FinalizeTask(task, risk, verified, verdicts, waited, maxWait);
            var sensitive := task.SecuritySensitive? || task.WorkflowChange? || task.DependencyChange?;
            var reviewed := sensitive || risk.High? || risk.Critical?;
            var first := if reviewed && !Voted(Reviewer, verdicts) then [Reviewer] else [];
            var second := if sensitive && !Voted(SecurityAuditor, verdicts) then [SecurityAuditor] else [];
            var waiting := first + second;
            && (o == Failed <==> !verified)
            && (verified && waiting != [] ==>
                  o == if waited >= maxWait then ReviewTimedOut(waiting) else AwaitingReview(waiting))
            && (o.ReviewBlocked? ==>
                  && verified && waiting == []
                  && exists k | 0 <= k < |verdicts| :: FirstBlock(verdicts, k) && verdicts[k].0 == o.role)
            && (verified && waiting == [] ==> o.ReviewBlocked? || o == ReadyToIntegrate)
  {
    hide FirstVeto, SawBlocking, Voted;
    ReadyExactly(task, risk, verified, verdicts, waited, maxWait);
    VetoIs(verdicts);
    var required := RequiredReviewers(task, risk);
    MissingOf(task, risk, verdicts);
  }

  lemma MissingOf(task: TaskShape, risk: RiskTier, verdicts: Verdicts)
    ensures var sensitive := task.SecuritySensitive? || task.WorkflowChange? || task.DependencyChange?;
            var reviewed := sensitive || risk.High? || risk.Critical?;
            var first := if reviewed && !Voted(Reviewer, verdicts) then [Reviewer] else [];
            var second := if sensitive && !Voted(SecurityAuditor, verdicts) then [SecurityAuditor] else [];
            Missing(RequiredReviewers(task, risk), verdicts) == first + second
  {
    hide Voted;
    var required := RequiredReviewers(task, risk);
    assert Missing([], verdicts) == [];
    if required != [] {
      assert required[1..] == if |required| == 2 then [SecurityAuditor] else [];
      assert [SecurityAuditor][1..] == [];
    }
  }

  lemma ReviewerBlocks(verdicts: Verdicts)
    ensures Voted(Reviewer, verdicts) ==> SawBlocking(verdicts)
  {
    if v :| v in verdicts && v.0 == Reviewer {
      assert v.0.CanBlock();
    }
  }
}
