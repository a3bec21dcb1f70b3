/** Per-agent budgets and the bounded-concurrency scheduler. */
module Supervisor {
  import opened Foundation

  datatype Budget = Budget(maxWall: u64, maxOutput: u64, maxTokens: u64)

  datatype Usage = Usage(wall: u64, output: u64, tokens: u64)

  datatype Axis = Wall | Output | Tokens

  const NO_USAGE := Usage(0, 0, 0)

  predicate Within(u: Usage, b: Budget) {
    u.wall <= b.maxWall && u.output <= b.maxOutput && u.tokens <= b.maxTokens
  }

  /** What has been used once `delta` is added, saturated. */
  function Plus(u: Usage, delta: Usage): Usage {
    Usage(SatAdd(u.wall, delta.wall), SatAdd(u.output, delta.output), SatAdd(u.tokens, delta.tokens))
  }

  /** `axis` is the first one, in the order wall, output, tokens, on which `u` is over budget. */
  predicate FirstOver(u: Usage, b: Budget, axis: Axis) {
    match axis
    case Wall => u.wall > b.maxWall
    case Output => u.wall <= b.maxWall && u.output > b.maxOutput
    case Tokens => u.wall <= b.maxWall && u.output <= b.maxOutput && u.tokens > b.maxTokens
  }

  /** Charges `delta`; on a breach nothing is applied and the first breached axis is named. */
  function Charge(u: Usage, delta: Usage, b: Budget): (r: Result<Usage, Axis>)
    ensures r.Ok? ==> Within(r.value, b)
                      && r.value.wall >= u.wall && r.value.output >= u.output && r.value.tokens >= u.tokens
    ensures delta == NO_USAGE ==> (r.Ok? <==> Within(u, b)) && (r.Ok? ==> r.value == u)
  {
    var next := Plus(u, delta);
    if next.wall > b.maxWall then Err(Wall)
    else if next.output > b.maxOutput then Err(Output)
    else if next.tokens > b.maxTokens then Err(Tokens)
    else Ok(next)
  }

  /** A charge is accepted exactly when the total is within budget, and then is the total;
      otherwise it names the first axis the total is over on. */
  lemma ChargeMeans(u: Usage, delta: Usage, b: Budget)
    ensures Charge(u, delta, b).Ok? <==> Within(Plus(u, delta), b)
    ensures Charge(u, delta, b).Ok? ==> Charge(u, delta, b).value == Plus(u, delta)
    ensures forall axis :: Charge(u, delta, b) == Err(axis) <==> FirstOver(Plus(u, delta), b, axis)
    ensures Plus(u, delta).wall == Min(0xFFFF_FFFF_FFFF_FFFF, u.wall as int + delta.wall)
    ensures Plus(u, delta).output == Min(0xFFFF_FFFF_FFFF_FFFF, u.output as int + delta.output)
    ensures Plus(u, delta).tokens == Min(0xFFFF_FFFF_FFFF_FFFF, u.tokens as int + delta.tokens)
  {
  }

  /** Caps how many workers run at once. */
  class Scheduler {
    const maxConcurrent: nat
    var running: nat

    constructor (max: nat)
      ensures maxConcurrent == Max(max, 1) && running == 0
    {
      maxConcurrent := Max(max, 1);
      running := 0;
    }

    /** Reserves a slot, or refuses at the cap without changing anything. */
    method TrySpawn() returns (reserved: bool)
      modifies this`running
      ensures reserved <==> old(running) < maxConcurrent
      ensures running == if reserved then old(running) + 1 else old(running)
    {
      if running >= maxConcurrent {
        return false;
      }
      running := running + 1;
      reserved := true;
    }

    method Finish()
      modifies this`running
      ensures running == Max(old(running) - 1, 0)
    {
      running := Max(running - 1, 0);
    }
  }
}
