/** The binary dump of supervised tasks: a versioned frame of little-endian fields. The decoder
    is a checked cursor; `lossy` stands for the conversion of path bytes to text. */
module SnapshotCodec {
  import opened Foundation
  import opened Supervisor
  import opened RegistryModel

  const MAGIC: seq<byte> := [67, 67, 84, 83] // "CCTS"
  const VERSION: byte := 1
  const MAX_SNAPSHOTS := 4096
  const MAX_PATH := 4096
  const U32_MAX := 0xFFFF_FFFF

  datatype SnapshotError = BadFormat | BadVersion(v: byte) | BadContents

  // ----- encoding -----

  function Pow256(n: nat): (p: nat)
    ensures p > 0
  {
    if n == 0 then 1 else 256 * Pow256(n - 1)
  }

  /** `to_le_bytes` of an `n`-byte integer */
  function LE(n: nat, x: nat): (b: seq<byte>)
    ensures |b| == n
  {
    if n == 0 then [] else [x % 256] + LE(n - 1, x / 256)
  }

  /** `from_le_bytes` */
  function FromLE(b: seq<byte>): (x: nat)
    ensures x < Pow256(|b|)
  {
    if b == [] then 0 else b[0] + 256 * FromLE(b[1..])
  }

  lemma {:induction false} FromToLE(n: nat, x: nat)
    requires x < Pow256(n)
    ensures FromLE(LE(n, x)) == x
  {
    if n > 0 {
      FromToLE(n - 1, x / 256);
      assert LE(n, x)[1..] == LE(n - 1, x / 256);
    }
  }

  lemma Widths()
    ensures Pow256(1) == 256 && Pow256(4) == U32_MAX + 1 && Pow256(8) == U64_MAX + 1
  {
    assert Pow256(1) == 256 && Pow256(2) == 65536 && Pow256(3) == 16777216;
    assert Pow256(5) == 256 * Pow256(4) && Pow256(6) == 256 * Pow256(5);
    assert Pow256(7) == 256 * Pow256(6);
  }

  /** Two's complement. */
  function Unsigned(c: i64): u64 {
    if c < 0 then c + U64_MAX + 1 else c
  }

  function Signed(x: u64): (c: i64)
    ensures Unsigned(c) == x
  {
    if x > I64_MAX then x - U64_MAX - 1 else x
  }

  function DoneBytes(d: TaskDone): seq<byte> {
    match d
    case Completed => [0]
    case Cancelled => [1]
    case Killed => [2]
    case Expired => [3]
    case BudgetExhausted(axis) => [4, match axis case Wall => 0 case Output => 1 case Tokens => 2]
  }

  function PhaseBytes(p: TaskPhase): seq<byte> {
    match p
    case Pending => [0]
    case Running => [1]
    case Cancelling => [2]
    case Done(d) => [3] + DoneBytes(d)
  }

  /** The path bytes a dump keeps: none for no path, at most `MAX_PATH` otherwise. */
  function PathBytes(path: Option<seq<byte>>): (b: seq<byte>)
    ensures |b| <= MAX_PATH
  {
    if path.None? then [] else path.value[..Min(|path.value|, MAX_PATH)]
  }

  function U64Bytes(x: u64): seq<byte> { LE(8, x) }

  function SnapBytes(s: TaskSnapshot): seq<byte> {
    U64Bytes(s.id) + (U64Bytes(Unsigned(s.chat)) + (PhaseBytes(s.phase) + (U64Bytes(s.leaseRemaining)
    + (BudgetBytes(s.budget) + (UsageBytes(s.usage) + (LE(4, |PathBytes(s.worktree)|) + PathBytes(s.worktree)))))))
  }

  function BudgetBytes(b: Budget): seq<byte> {
    U64Bytes(b.maxWall) + (U64Bytes(b.maxOutput) + U64Bytes(b.maxTokens))
  }

  function UsageBytes(u: Usage): seq<byte> {
    U64Bytes(u.wall) + (U64Bytes(u.output) + U64Bytes(u.tokens))
  }

  function Bodies(snaps: seq<TaskSnapshot>): seq<byte> {
    if snaps == [] then [] else Bodies(snaps[..|snaps| - 1]) + SnapBytes(snaps[|snaps| - 1])
  }

  function Header(count: nat): seq<byte> {
    MAGIC + ([VERSION] + LE(4, Min(count, U32_MAX)))
  }

  function Encode(snaps: seq<TaskSnapshot>): seq<byte> {
    Header(|snaps|) + Bodies(snaps)
  }

  method EncodeSnapshots(snaps: seq<TaskSnapshot>) returns (buf: seq<byte>)
    ensures buf == Encode(snaps)
  {
    hide SnapBytes, Header;
    buf := EncodeHeader(|snaps|);
    assert buf + Bodies(snaps[..0]) == buf;
    for i := 0 to |snaps|
      invariant buf == Header(|snaps|) + Bodies(snaps[..i])
    {
      TakeSnoc(snaps, i);
      var body := EncodeOne(snaps[i]);
      Assoc(Header(|snaps|), Bodies(snaps[..i]), body);
      buf := buf + body;
    }
    assert snaps[..|snaps|] == snaps;
  }

  method EncodeHeader(count: nat) returns (buf: seq<byte>)
    ensures buf == Header(count)
  {
    hide LE;
    buf := MAGIC;
    buf := buf + [VERSION];
    buf := buf + LE(4, Min(count, U32_MAX));
  }

  method EncodeOne(s: TaskSnapshot) returns (buf: seq<byte>)
    ensures buf == SnapBytes(s)
  {
    hide LE, PhaseBytes, PathBytes;
    var path := PathBytes(s.worktree);
    buf := U64Bytes(s.id) + U64Bytes(Unsigned(s.chat));
    buf := buf + PhaseBytes(s.phase);
    buf := buf + U64Bytes(s.leaseRemaining);
    buf := buf + BudgetBytes(s.budget);
    buf := buf + UsageBytes(s.usage);
    buf := buf + LE(4, |path|);
    buf := buf + path;
  }

  // ----- decoding -----

  /** What a read from a position yields: too few bytes (or a bad tag), or a value and the next position. */
  datatype Read<+T> = Bad | Got(value: T, pos: nat) {
    predicate IsFailure() { Bad? }
    function PropagateFailure<U>(): Read<U> requires Bad? { Bad }
    function Extract(): (T, nat) requires Got? { (value, pos) }
  }

  function Take(b: seq<byte>, pos: nat, n: nat): (r: Read<seq<byte>>)
    ensures r.Got? <==> pos + n <= |b|
    ensures r.Got? ==> r.pos == pos + n && |r.value| == n
  {
    if pos + n > |b| then Bad else Got(b[pos..pos + n], pos + n)
  }

  function ReadInt(b: seq<byte>, pos: nat, n: nat): (r: Read<nat>)
    ensures r.Got? ==> r.value < Pow256(n)
  {
    var (s, p) :- Take(b, pos, n);
    Got(FromLE(s), p)
  }

  function ReadU64(b: seq<byte>, pos: nat): Read<u64> {
    var (x, p) :- ReadInt(b, pos, 8);
    Widths();
    Got(x, p)
  }

  function ReadDone(b: seq<byte>, pos: nat): Read<TaskDone> {
    var (tag, p) :- ReadInt(b, pos, 1);
    if tag == 0 then Got(Completed, p)
    else if tag == 1 then Got(Cancelled, p)
    else if tag == 2 then Got(Killed, p)
    else if tag == 3 then Got(Expired, p)
    else if tag == 4 then
      var (axis, q) :- ReadInt(b, p, 1);
      Got(BudgetExhausted(if axis == 0 then Wall else if axis == 1 then Output else Tokens), q)
    else Bad
  }

  function ReadPhase(b: seq<byte>, pos: nat): Read<TaskPhase> {
    var (tag, p) :- ReadInt(b, pos, 1);
    if tag == 0 then Got(Pending, p)
    else if tag == 1 then Got(Running, p)
    else if tag == 2 then Got(Cancelling, p)
    else if tag == 3 then
      var (d, q) :- ReadDone(b, p);
      Got(Done(d), q)
    else Bad
  }

  function ReadBudget(b: seq<byte>, pos: nat): Read<Budget> {
    var (x, p) :- ReadU64(b, pos);
    var (y, q) :- ReadU64(b, p);
    var (z, r) :- ReadU64(b, q);
    Got(Budget(x, y, z), r)
  }

  function ReadUsage(b: seq<byte>, pos: nat): Read<Usage> {
    var (x, p) :- ReadU64(b, pos);
    var (y, q) :- ReadU64(b, p);
    var (z, r) :- ReadU64(b, q);
    Got(Usage(x, y, z), r)
  }

  function ReadPath(b: seq<byte>, pos: nat, lossy: seq<byte> -> seq<byte>): Read<Option<seq<byte>>> {
    var (n, p) :- ReadInt(b, pos, 4);
    if n > MAX_PATH then Bad else
    var (path, q) :- Take(b, p, n);
    Got(if n == 0 then None else Some(lossy(path)), q)
  }

  function ReadSnap(b: seq<byte>, pos: nat, lossy: seq<byte> -> seq<byte>): Read<TaskSnapshot> {
    var (id, p1) :- ReadU64(b, pos);
    var (chat, p2) :- ReadU64(b, p1);
    var (phase, p3) :- ReadPhase(b, p2);
    var (remaining, p4) :- ReadU64(b, p3);
    var (budget, p5) :- ReadBudget(b, p4);
    var (usage, p6) :- ReadUsage(b, p5);
    var (path, p7) :- ReadPath(b, p6, lossy);
    Got(TaskSnapshot(id, Signed(chat), phase, remaining, budget, usage, path), p7)
  }

  function ReadSnaps(b: seq<byte>, pos: nat, count: nat, lossy: seq<byte> -> seq<byte>): Read<seq<TaskSnapshot>> {
    if count == 0 then Got([], pos) else
    var (front, p) :- ReadSnaps(b, pos, count - 1, lossy);
    var (last, q) :- ReadSnap(b, p, lossy);
    Got(front + [last], q)
  }

  /** Decodes a dump, also giving where it ends. */
  function DecodeAt(b: seq<byte>, lossy: seq<byte> -> seq<byte>): Result<(seq<TaskSnapshot>, nat), SnapshotError> {
    if Take(b, 0, 4) != Got(MAGIC, 4) then Err(BadFormat) else
    match ReadInt(b, 4, 1)
    case Bad => Err(BadFormat)
    case Got(version, p) =>
      Widths();
      if version != VERSION then Err(BadVersion(version)) else
      match ReadInt(b, p, 4)
      case Bad => Err(BadContents)
      case Got(count, q) =>
        if count > MAX_SNAPSHOTS then Err(BadContents) else
        match ReadSnaps(b, q, count, lossy)
        case Bad => Err(BadContents)
        case Got(snaps, end) => Ok((snaps, end))
  }

  function Decode(b: seq<byte>, lossy: seq<byte> -> seq<byte>): Result<seq<TaskSnapshot>, SnapshotError> {
    match DecodeAt(b, lossy)
    case Ok((snaps, _)) => Ok(snaps)
    case Err(e) => Err(e)
  }

  // ----- reading back what was written -----

  ghost predicate Holds(b: seq<byte>, pos: nat, chunk: seq<byte>) {
    pos + |chunk| <= |b| && b[pos..pos + |chunk|] == chunk
  }

  lemma HoldsBoth(b: seq<byte>, pos: nat, x: seq<byte>, y: seq<byte>)
    requires Holds(b, pos, x + y)
    ensures Holds(b, pos, x) && Holds(b, pos + |x|, y)
  {
    assert b[pos..pos + |x|] == (x + y)[..|x|];
    assert b[pos + |x|..pos + |x| + |y|] == (x + y)[|x|..];
  }

  lemma ReadsInt(b: seq<byte>, pos: nat, n: nat, x: nat)
    requires Holds(b, pos, LE(n, x)) && x < Pow256(n)
    ensures ReadInt(b, pos, n) == Got(x, pos + n)
  {
    FromToLE(n, x);
  }

  lemma ReadsU64(b: seq<byte>, pos: nat, x: u64)
    requires Holds(b, pos, U64Bytes(x))
    ensures ReadU64(b, pos) == Got(x, pos + 8) && |U64Bytes(x)| == 8
  {
    Widths();
    ReadsInt(b, pos, 8, x);
  }

  lemma ReadsByte(b: seq<byte>, pos: nat, x: byte)
    requires Holds(b, pos, [x])
    ensures ReadInt(b, pos, 1) == Got(x, pos + 1)
  {
    Widths();
    assert LE(1, x) == [x % 256] + LE(0, x / 256) == [x];
    ReadsInt(b, pos, 1, x);
  }

  lemma ReadsDone(b: seq<byte>, pos: nat, d: TaskDone)
    requires Holds(b, pos, DoneBytes(d))
    ensures ReadDone(b, pos) == Got(d, pos + |DoneBytes(d)|)
  {
    var bytes := DoneBytes(d);
    assert bytes == [bytes[0]] + bytes[1..];
    HoldsBoth(b, pos, [bytes[0]], bytes[1..]);
    ReadsByte(b, pos, bytes[0]);
    if d.BudgetExhausted? {
      assert bytes[1..] == [bytes[1]];
      ReadsByte(b, pos + 1, bytes[1]);
    }
  }

  lemma ReadsPhase(b: seq<byte>, pos: nat, p: TaskPhase)
    requires Holds(b, pos, PhaseBytes(p))
    ensures ReadPhase(b, pos) == Got(p, pos + |PhaseBytes(p)|)
  {
    match p
    case Done(d) =>
      HoldsBoth(b, pos, [3], DoneBytes(d));
      ReadsByte(b, pos, 3);
      ReadsDone(b, pos + 1, d);
    case _ =>
      ReadsByte(b, pos, PhaseBytes(p)[0]);
  }

  lemma ReadsThree(b: seq<byte>, pos: nat, x: u64, y: u64, z: u64)
    requires Holds(b, pos, U64Bytes(x) + (U64Bytes(y) + U64Bytes(z)))
    ensures ReadU64(b, pos) == Got(x, pos + 8) && ReadU64(b, pos + 8) == Got(y, pos + 16)
            && ReadU64(b, pos + 16) == Got(z, pos + 24)
  {
    hide LE;
    HoldsBoth(b, pos, U64Bytes(x), U64Bytes(y) + U64Bytes(z));
    HoldsBoth(b, pos + 8, U64Bytes(y), U64Bytes(z));
    ReadsU64(b, pos, x);
    ReadsU64(b, pos + 8, y);
    ReadsU64(b, pos + 16, z);
  }

  /** What becomes of a path on its way through a dump. */
  function PathAfter(path: Option<seq<byte>>, lossy: seq<byte> -> seq<byte>): Option<seq<byte>> {
    var kept := PathBytes(path);
    if kept == [] then None else Some(lossy(kept))
  }

  lemma ReadsPath(b: seq<byte>, pos: nat, path: Option<seq<byte>>, lossy: seq<byte> -> seq<byte>)
    requires Holds(b, pos, LE(4, |PathBytes(path)|) + PathBytes(path))
    ensures ReadPath(b, pos, lossy) == Got(PathAfter(path, lossy), pos + 4 + |PathBytes(path)|)
  {
    hide LE, PathBytes;
    var kept := PathBytes(path);
    HoldsBoth(b, pos, LE(4, |kept|), kept);
    Widths();
    ReadsInt(b, pos, 4, |kept|);
  }

  function After(s: TaskSnapshot, lossy: seq<byte> -> seq<byte>): TaskSnapshot {
    s.(worktree := PathAfter(s.worktree, lossy))
  }

  lemma ReadsSnap(b: seq<byte>, pos: nat, s: TaskSnapshot, lossy: seq<byte> -> seq<byte>)
    requires Holds(b, pos, SnapBytes(s))
    ensures ReadSnap(b, pos, lossy) == Got(After(s, lossy), pos + |SnapBytes(s)|)
  {
    hide LE, PathBytes, PhaseBytes, ReadU64, ReadPhase, ReadPath, Holds, PathAfter, U64Bytes;
    var path := LE(4, |PathBytes(s.worktree)|) + PathBytes(s.worktree);
    var t6 := UsageBytes(s.usage) + path;
    var t5 := BudgetBytes(s.budget) + t6;
    var t4 := U64Bytes(s.leaseRemaining) + t5;
    var t3 := PhaseBytes(s.phase) + t4;
    var t2 := U64Bytes(Unsigned(s.chat)) + t3;
    HoldsBoth(b, pos, U64Bytes(s.id), t2);
    ReadsU64(b, pos, s.id);
    var p2 := pos + 8;
    HoldsBoth(b, p2, U64Bytes(Unsigned(s.chat)), t3);
    ReadsU64(b, p2, Unsigned(s.chat));
    var p3 := p2 + 8;
    HoldsBoth(b, p3, PhaseBytes(s.phase), t4);
    ReadsPhase(b, p3, s.phase);
    var p4 := p3 + |PhaseBytes(s.phase)|;
    HoldsBoth(b, p4, U64Bytes(s.leaseRemaining), t5);
    ReadsU64(b, p4, s.leaseRemaining);
    var p5 := p4 + 8;
    HoldsBoth(b, p5, BudgetBytes(s.budget), t6);
    ReadsThree(b, p5, s.budget.maxWall, s.budget.maxOutput, s.budget.maxTokens);
    var p6 := p5 + |BudgetBytes(s.budget)|;
    HoldsBoth(b, p6, UsageBytes(s.usage), path);
    TripleWidth(s);
    ReadsThree(b, p6, s.usage.wall, s.usage.output, s.usage.tokens);
    ReadsPath(b, p6 + 24, s.worktree, lossy);
  }

  lemma TripleWidth(s: TaskSnapshot)
    ensures |BudgetBytes(s.budget)| == 24 && |UsageBytes(s.usage)| == 24
  {
  }

  function AfterAll(snaps: seq<TaskSnapshot>, lossy: seq<byte> -> seq<byte>): seq<TaskSnapshot> {
    seq(|snaps|, i requires 0 <= i < |snaps| => After(snaps[i], lossy))
  }

  lemma {:induction false} ReadsSnaps(b: seq<byte>, pos: nat, snaps: seq<TaskSnapshot>, lossy: seq<byte> -> seq<byte>)
    requires Holds(b, pos, Bodies(snaps))
    ensures ReadSnaps(b, pos, |snaps|, lossy) == Got(AfterAll(snaps, lossy), pos + |Bodies(snaps)|)
  {
    hide SnapBytes, ReadSnap, After;
    if snaps == [] {
      assert AfterAll(snaps, lossy) == [];
    } else {
      var front, last := snaps[..|snaps| - 1], snaps[|snaps| - 1];
      HoldsBoth(b, pos, Bodies(front), SnapBytes(last));
      ReadsSnaps(b, pos, front, lossy);
      ReadsSnap(b, pos + |Bodies(front)|, last, lossy);
      assert AfterAll(snaps, lossy) == AfterAll(front, lossy) + [After(last, lossy)];
    }
  }

  lemma ReadsHeader(b: seq<byte>, count: nat)
    requires Holds(b, 0, Header(count))
    ensures Take(b, 0, 4) == Got(MAGIC, 4) && ReadInt(b, 4, 1) == Got(VERSION, 5)
            && ReadInt(b, 5, 4) == Got(Min(count, U32_MAX), 9) && |Header(count)| == 9
  {
    hide LE;
    Widths();
    HoldsBoth(b, 0, MAGIC, [VERSION] + LE(4, Min(count, U32_MAX)));
    HoldsBoth(b, 4, [VERSION], LE(4, Min(count, U32_MAX)));
    ReadsByte(b, 4, VERSION);
    ReadsInt(b, 5, 4, Min(count, U32_MAX));
  }

  /** Decoding an encoding, whatever bytes follow it, gives back the list with each path as the
      dump keeps it, and ends where the encoding ends; a list over the cap is refused. */
  lemma DecodesEncoded(snaps: seq<TaskSnapshot>, trailing: seq<byte>, lossy: seq<byte> -> seq<byte>)
    ensures DecodeAt(Encode(snaps) + trailing, lossy)
            == if |snaps| <= 4096 then Ok((AfterAll(snaps, lossy), |Encode(snaps)|)) else Err(BadContents)
  {
    hide Header, Bodies, Take, ReadInt, ReadSnaps, AfterAll;
    var b := Encode(snaps) + trailing;
    assert Holds(b, 0, Encode(snaps));
    HoldsBoth(b, 0, Header(|snaps|), Bodies(snaps));
    ReadsHeader(b, |snaps|);
    if |snaps| <= MAX_SNAPSHOTS {
      ReadsSnaps(b, 9, snaps, lossy);
    }
  }

  /** A path survives a dump when it is absent, or non-empty and unchanged by cutting and conversion. */
  predicate PathSurvives(path: Option<seq<byte>>, lossy: seq<byte> -> seq<byte>) {
    path.None? || (path.value != [] && lossy(PathBytes(path)) == path.value)
  }

  /** A dump of up to 4096 snapshots round-trips exactly when every path survives. */
  lemma RoundTrip(snaps: seq<TaskSnapshot>, trailing: seq<byte>, lossy: seq<byte> -> seq<byte>)
    requires |snaps| <= 4096
    ensures Decode(Encode(snaps) + trailing, lossy) == Ok(snaps)
            <==> forall s | s in snaps :: PathSurvives(s.worktree, lossy)
  {
    hide Encode, DecodeAt;
    DecodesEncoded(snaps, trailing, lossy);
    forall i | 0 <= i < |snaps|
      ensures After(snaps[i], lossy) == snaps[i] <==> PathSurvives(snaps[i].worktree, lossy)
    {
    }
    if AfterAll(snaps, lossy) == snaps {
      forall i | 0 <= i < |snaps| ensures After(snaps[i], lossy) == snaps[i] {
        assert AfterAll(snaps, lossy)[i] == snaps[i];
      }
    }
  }

  /** In particular with text paths of 1 to 4096 bytes. */
  lemma ShortPathsSurvive(path: Option<seq<byte>>, lossy: seq<byte> -> seq<byte>)
    requires path.Some? ==> 1 <= |path.value| <= 4096 && lossy(path.value) == path.value
    ensures PathSurvives(path, lossy)
  {
    if path.Some? {
      assert path.value[..|path.value|] == path.value;
    }
  }

  // ----- truncated dumps -----

  /** A read that succeeds on a prefix succeeds with the same result on the whole, inside the prefix. */
  ghost predicate Stable<T>(onPrefix: Read<T>, onWhole: Read<T>, size: nat) {
    onPrefix.Got? ==> onWhole == onPrefix && onPrefix.pos <= size
  }

  lemma StableTake(p: seq<byte>, b: seq<byte>, pos: nat, n: nat)
    requires p <= b
    ensures Stable(Take(p, pos, n), Take(b, pos, n), |p|)
    ensures Stable(ReadInt(p, pos, n), ReadInt(b, pos, n), |p|)
  {
    if pos + n <= |p| {
      assert b[pos..pos + n] == p[pos..pos + n];
    }
  }

  lemma StableU64(p: seq<byte>, b: seq<byte>, pos: nat)
    requires p <= b
    ensures Stable(ReadU64(p, pos), ReadU64(b, pos), |p|)
  {
    StableTake(p, b, pos, 8);
  }

  lemma StablePhase(p: seq<byte>, b: seq<byte>, pos: nat)
    requires p <= b
    ensures Stable(ReadPhase(p, pos), ReadPhase(b, pos), |p|)
  {
    hide Take, ReadInt;
    StableTake(p, b, pos, 1);
    StableTake(p, b, pos + 1, 1);
    StableTake(p, b, pos + 2, 1);
    IntEnds(p, pos);
    IntEnds(p, pos + 1);
  }

  lemma IntEnds(b: seq<byte>, pos: nat)
    ensures ReadInt(b, pos, 1).Got? ==> ReadInt(b, pos, 1).pos == pos + 1
  {
  }

  lemma StableThree(p: seq<byte>, b: seq<byte>, pos: nat)
    requires p <= b
    ensures Stable(ReadBudget(p, pos), ReadBudget(b, pos), |p|)
    ensures Stable(ReadUsage(p, pos), ReadUsage(b, pos), |p|)
  {
    hide ReadU64;
    StableU64(p, b, pos);
    var x := ReadU64(p, pos);
    if x.Got? {
      StableU64(p, b, x.pos);
      var y := ReadU64(p, x.pos);
      if y.Got? {
        StableU64(p, b, y.pos);
      }
    }
  }

  lemma StablePath(p: seq<byte>, b: seq<byte>, pos: nat, lossy: seq<byte> -> seq<byte>)
    requires p <= b
    ensures Stable(ReadPath(p, pos, lossy), ReadPath(b, pos, lossy), |p|)
  {
    StableTake(p, b, pos, 4);
    var n := ReadInt(p, pos, 4);
    if n.Got? {
      StableTake(p, b, n.pos, n.value);
    }
  }

  lemma StableSnap(p: seq<byte>, b: seq<byte>, pos: nat, lossy: seq<byte> -> seq<byte>)
    requires p <= b
    ensures Stable(ReadSnap(p, pos, lossy), ReadSnap(b, pos, lossy), |p|)
  {
    hide ReadU64, ReadPhase, ReadBudget, ReadUsage, ReadPath, Signed;
    StableU64(p, b, pos);
    if ReadSnap(p, pos, lossy).Got? {
      var p1 := ReadU64(p, pos).pos;
      StableU64(p, b, p1);
      var p2 := ReadU64(p, p1).pos;
      StablePhase(p, b, p2);
      var p3 := ReadPhase(p, p2).pos;
      StableU64(p, b, p3);
      var p4 := ReadU64(p, p3).pos;
      StableThree(p, b, p4);
      var p5 := ReadBudget(p, p4).pos;
      StableThree(p, b, p5);
      StablePath(p, b, ReadUsage(p, p5).pos, lossy);
    }
  }

  lemma {:induction false} StableSnaps(p: seq<byte>, b: seq<byte>, pos: nat, count: nat, lossy: seq<byte> -> seq<byte>)
    requires p <= b && pos <= |p|
    ensures Stable(ReadSnaps(p, pos, count, lossy), ReadSnaps(b, pos, count, lossy), |p|)
  {
    hide ReadSnap;
    if count > 0 {
      StableSnaps(p, b, pos, count - 1, lossy);
      var front := ReadSnaps(p, pos, count - 1, lossy);
      if front.Got? {
        StableSnap(p, b, front.pos, lossy);
      }
    }
  }

  lemma StableDecode(p: seq<byte>, b: seq<byte>, lossy: seq<byte> -> seq<byte>)
    requires p <= b
    ensures DecodeAt(p, lossy).Ok? ==> DecodeAt(b, lossy) == DecodeAt(p, lossy) && DecodeAt(p, lossy).value.1 <= |p|
  {
    hide ReadSnaps, Take, ReadInt;
    StableTake(p, b, 0, 4);
    StableTake(p, b, 4, 1);
    if DecodeAt(p, lossy).Ok? {
      var q := ReadInt(p, 4, 1).pos;
      StableTake(p, b, q, 4);
      var count := ReadInt(p, q, 4);
      StableSnaps(p, b, count.pos, count.value, lossy);
    }
  }

  /** Every strict prefix of an encoding is rejected. */
  lemma TruncatedRejected(snaps: seq<TaskSnapshot>, n: nat, lossy: seq<byte> -> seq<byte>)
    requires n < |Encode(snaps)|
    ensures Decode(Encode(snaps)[..n], lossy).Err?
  {
    hide DecodeAt, Encode, AfterAll;
    var b := Encode(snaps);
    DecodesEncoded(snaps, [], lossy);
    assert b + [] == b;
    StableDecode(b[..n], b, lossy);
  }

  // ----- the cursor -----

  ghost predicate Agrees<T>(r: Option<T>, before: nat, after: nat, spec: Read<T>) {
    if spec.Bad? then r.None? && after == before else r == Some(spec.value) && after == spec.pos
  }

  /** A bounded byte cursor: every read is checked, and a refused read leaves it where it was. */
  class SnapCursor {
    const bytes: seq<byte>
    var pos: nat

    constructor (bytes: seq<byte>)
      ensures this.bytes == bytes && pos == 0
    {
      this.bytes := bytes;
      pos := 0;
    }

    method TakeBytes(n: nat) returns (r: Option<seq<byte>>)
      modifies this
      ensures Agrees(r, old(pos), pos, Take(bytes, old(pos), n))
    {
      var end := pos + n;
      if end > |bytes| {
        return None;
      }
      r := Some(bytes[pos..end]);
      pos := end;
    }

    method Int(n: nat) returns (r: Option<nat>)
      modifies this
      ensures Agrees(r, old(pos), pos, ReadInt(bytes, old(pos), n))
    {
      var s := TakeBytes(n);
      r := if s.None? then None else Some(FromLE(s.value));
    }

    method U64() returns (r: Option<u64>)
      modifies this
      ensures Agrees(r, old(pos), pos, ReadU64(bytes, old(pos)))
    {
      Widths();
      var x := Int(8);
      r := if x.None? then None else Some(x.value);
    }
  }

  /** A reader that may stop half-way: only its success is tied to the specification's. */
  ghost predicate Reads<T>(r: Option<T>, pos: nat, spec: Read<T>) {
    if spec.Bad? then r.None? else r == Some(spec.value) && pos == spec.pos
  }

  method DecodePhase(c: SnapCursor) returns (r: Option<TaskPhase>)
    modifies c
    ensures Reads(r, c.pos, ReadPhase(c.bytes, old(c.pos)))
  {
    hide Take, ReadInt;
    var tag := c.Int(1);
    if tag.None? { return None; }
    match tag.value {
      case 0 => return Some(Pending);
      case 1 => return Some(Running);
      case 2 => return Some(Cancelling);
      case 3 =>
        var d := DecodeDone(c);
        return if d.None? then None else Some(Done(d.value));
      case _ => return None;
    }
  }

  method DecodeDone(c: SnapCursor) returns (r: Option<TaskDone>)
    modifies c
    ensures Reads(r, c.pos, ReadDone(c.bytes, old(c.pos)))
  {
    hide Take, ReadInt;
    var tag := c.Int(1);
    if tag.None? { return None; }
    match tag.value {
      case 0 => return Some(Completed);
      case 1 => return Some(Cancelled);
      case 2 => return Some(Killed);
      case 3 => return Some(Expired);
      case 4 =>
        var axis := c.Int(1);
        if axis.None? { return None; }
        match axis.value {
          case 0 => return Some(BudgetExhausted(Wall));
          case 1 => return Some(BudgetExhausted(Output));
          case _ => return Some(BudgetExhausted(Tokens));
        }
      case _ => return None;
    }
  }

  method DecodeOne(c: SnapCursor, lossy: seq<byte> -> seq<byte>) returns (r: Option<TaskSnapshot>)
    modifies c
    ensures Reads(r, c.pos, ReadSnap(c.bytes, old(c.pos), lossy))
  {
    hide Take, ReadInt, ReadU64, ReadPhase;
    var id := c.U64();
    if id.None? { return None; }
    var chat := c.U64();
    if chat.None? { return None; }
    var phase := DecodePhase(c);
    if phase.None? { return None; }
    var remaining := c.U64();
    if remaining.None? { return None; }
    var maxWall := c.U64();
    if maxWall.None? { return None; }
    var maxOutput := c.U64();
    if maxOutput.None? { return None; }
    var maxTokens := c.U64();
    if maxTokens.None? { return None; }
    var wall := c.U64();
    if wall.None? { return None; }
    var output := c.U64();
    if output.None? { return None; }
    var tokens := c.U64();
    if tokens.None? { return None; }
    var plen := c.Int(4);
    if plen.None? || plen.value > MAX_PATH { return None; }
    var path := c.TakeBytes(plen.value);
    if path.None? { return None; }
    var worktree := if plen.value == 0 then None else Some(lossy(path.value));
    r := Some(TaskSnapshot(id.value, Signed(chat.value), phase.value, remaining.value,
                           Budget(maxWall.value, maxOutput.value, maxTokens.value),
                           Usage(wall.value, output.value, tokens.value), worktree));
  }

  /** Fails closed on a bad header, a count over the cap, or too few bytes. */
  method DecodeSnapshots(bytes: seq<byte>, lossy: seq<byte> -> seq<byte>)
    returns (r: Result<seq<TaskSnapshot>, SnapshotError>)
    ensures r == Decode(bytes, lossy)
  {
    hide ReadSnap, Take, ReadInt;
    var c := new SnapCursor(bytes);
    var magic := c.TakeBytes(4);
    if magic != Some(MAGIC) {
      return Err(BadFormat);
    }
    var version := c.Int(1);
    if version.None? {
      return Err(BadFormat);
    }
    Widths();
    if version.value != VERSION {
      return Err(BadVersion(version.value));
    }
    var count := c.Int(4);
    if count.None? || count.value > MAX_SNAPSHOTS {
      return Err(BadContents);
    }
    ghost var start := c.pos;
    var out := [];
    for i := 0 to count.value
      invariant ReadSnaps(bytes, start, i, lossy) == Got(out, c.pos)
    {
      var s := DecodeOne(c, lossy);
      if s.None? {
        ShortRun(bytes, start, i + 1, count.value, lossy);
        return Err(BadContents);
      }
      out := out + [s.value];
    }
    r := Ok(out);
  }

  lemma {:induction false} ShortRun(b: seq<byte>, pos: nat, i: nat, count: nat, lossy: seq<byte> -> seq<byte>)
    requires ReadSnaps(b, pos, i, lossy).Bad? && i <= count
    ensures ReadSnaps(b, pos, count, lossy).Bad?
  {
    hide ReadSnap;
    if i < count {
      ShortRun(b, pos, i, count - 1, lossy);
    }
  }
}
