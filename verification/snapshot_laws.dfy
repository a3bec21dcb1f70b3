/** What the dump format is, byte by byte, and what a decoder may accept: nothing but encodings. */
module SnapshotLaws {
  import opened Foundation
  import opened Supervisor
  import opened RegistryModel
  import opened SnapshotCodec

  // ----- integers -----

  lemma {:induction false} ToFromLE(b: seq<byte>)
    ensures LE(|b|, FromLE(b)) == b
  {
    if b != [] {
      ToFromLE(b[1..]);
      var x := FromLE(b);
      assert x % 256 == b[0] && x / 256 == FromLE(b[1..]);
      assert b == [b[0]] + b[1..];
    }
  }

  lemma DivDiv(x: nat, p: nat)
    requires p > 0
    ensures x / 256 / p == x / (256 * p)
  {
    var q := x / 256 / p;
    var r := x / 256 % p;
    assert x / 256 == q * p + r;
    assert x == (q * p + r) * 256 + x % 256;
    var rest := r * 256 + x % 256;
    assert x == q * (256 * p) + rest by {
      assert (q * p + r) * 256 == q * (256 * p) + r * 256;
    }
    assert 0 <= rest < 256 * p by {
      assert r <= p - 1;
      assert r * 256 <= (p - 1) * 256;
    }
    Quotient(x, 256 * p, q, rest);
  }

  lemma Quotient(x: nat, d: nat, q: nat, r: nat)
    requires d > 0 && x == q * d + r && r < d
    ensures x / d == q
  {
    var k := x / d;
    assert x == k * d + x % d;
    Multiples(k + 1, q, d);
    Multiples(q + 1, k, d);
  }

  lemma Multiples(a: nat, b: nat, d: nat)
    ensures a <= b ==> a * d <= b * d
  {
  }

  /** Byte `i` of an integer is its `i`-th digit to the base 256, least significant first. */
  lemma {:induction false} LittleEndian(n: nat, x: nat, i: nat)
    requires i < n
    ensures LE(n, x)[i] == x / Pow256(i) % 256
  {
    if i > 0 {
      LittleEndian(n - 1, x / 256, i - 1);
      DivDiv(x, Pow256(i - 1));
    }
  }

  // ----- the layout -----

  /** The tag bytes of a phase and its ending. */
  ghost predicate Tagged(b: seq<byte>, pos: nat, p: TaskPhase, width: nat) {
    && pos + width <= |b|
    && var t := b[pos..pos + width];
    match p
    case Pending => t == [0]
    case Running => t == [1]
    case Cancelling => t == [2]
    case Done(Completed) => t == [3, 0]
    case Done(Cancelled) => t == [3, 1]
    case Done(Killed) => t == [3, 2]
    case Done(Expired) => t == [3, 3]
    case Done(BudgetExhausted(Wall)) => t == [3, 4, 0]
    case Done(BudgetExhausted(Output)) => t == [3, 4, 1]
    case Done(BudgetExhausted(Tokens)) => t == [3, 4, 2]
  }

  ghost predicate IntAt(b: seq<byte>, pos: nat, n: nat, x: nat) {
    pos + n <= |b| && FromLE(b[pos..pos + n]) == x
  }

  lemma HeldInt(b: seq<byte>, pos: nat, n: nat, x: nat)
    requires Holds(b, pos, LE(n, x)) && x < Pow256(n)
    ensures IntAt(b, pos, n, x)
  {
    FromToLE(n, x);
  }

  lemma HeldU64(b: seq<byte>, pos: nat, x: u64)
    requires Holds(b, pos, U64Bytes(x))
    ensures IntAt(b, pos, 8, x)
  {
    Widths();
    HeldInt(b, pos, 8, x);
  }

  lemma HeldThree(b: seq<byte>, pos: nat, x: u64, y: u64, z: u64)
    requires Holds(b, pos, U64Bytes(x) + (U64Bytes(y) + U64Bytes(z)))
    ensures IntAt(b, pos, 8, x) && IntAt(b, pos + 8, 8, y) && IntAt(b, pos + 16, 8, z)
  {
    hide LE, IntAt;
    HoldsBoth(b, pos, U64Bytes(x), U64Bytes(y) + U64Bytes(z));
    HoldsBoth(b, pos + 8, U64Bytes(y), U64Bytes(z));
    HeldU64(b, pos, x);
    HeldU64(b, pos + 8, y);
    HeldU64(b, pos + 16, z);
  }

  lemma HeldPhase(b: seq<byte>, pos: nat, p: TaskPhase)
    requires Holds(b, pos, PhaseBytes(p))
    ensures Tagged(b, pos, p, |PhaseBytes(p)|)
  {
  }

  /** Where each field of a snapshot stands in its encoding: id, chat in two's complement, tags, lease,
      budget, usage, and the length of the path and the path; `w` is the width of the tags. */
  lemma Layout(s: TaskSnapshot)
    ensures var b, w, path := SnapBytes(s), |PhaseBytes(s.phase)|, PathBytes(s.worktree);
            && |b| == 76 + w + |path|
            && IntAt(b, 0, 8, s.id)
            && IntAt(b, 8, 8, if s.chat < 0 then s.chat + 0x1_0000_0000_0000_0000 else s.chat)
            && Tagged(b, 16, s.phase, w)
            && IntAt(b, 16 + w, 8, s.leaseRemaining)
            && IntAt(b, 24 + w, 8, s.budget.maxWall)
            && IntAt(b, 32 + w, 8, s.budget.maxOutput)
            && IntAt(b, 40 + w, 8, s.budget.maxTokens)
            && IntAt(b, 48 + w, 8, s.usage.wall)
            && IntAt(b, 56 + w, 8, s.usage.output)
            && IntAt(b, 64 + w, 8, s.usage.tokens)
            && IntAt(b, 72 + w, 4, |path|)
            && b[76 + w..] == path
            && |path| <= 4096 && (s.worktree.None? ==> path == [])
            && (s.worktree.Some? ==>
                  path <= s.worktree.value && (|s.worktree.value| <= 4096 ==> path == s.worktree.value))
  {
    hide LE, PathBytes, PhaseBytes, Holds, IntAt, Tagged, U64Bytes, BudgetBytes, UsageBytes;
    var b := SnapBytes(s);
    var bytes := PathBytes(s.worktree);
    var path := LE(4, |bytes|) + bytes;
    var t6 := UsageBytes(s.usage) + path;
    var t5 := BudgetBytes(s.budget) + t6;
    var t4 := U64Bytes(s.leaseRemaining) + t5;
    var t3 := PhaseBytes(s.phase) + t4;
    var t2 := U64Bytes(Unsigned(s.chat)) + t3;
    var w := |PhaseBytes(s.phase)|;
    WordWidth(s.id);
    WordWidth(Unsigned(s.chat));
    WordWidth(s.leaseRemaining);
    TripleWidth(s);
    Whole(b);
    HoldsBoth(b, 0, U64Bytes(s.id), t2);
    HoldsBoth(b, 8, U64Bytes(Unsigned(s.chat)), t3);
    HoldsBoth(b, 16, PhaseBytes(s.phase), t4);
    HoldsBoth(b, 16 + w, U64Bytes(s.leaseRemaining), t5);
    HoldsBoth(b, 24 + w, BudgetBytes(s.budget), t6);
    HoldsBoth(b, 48 + w, UsageBytes(s.usage), path);
    HoldsBoth(b, 72 + w, LE(4, |bytes|), bytes);
    HeldU64(b, 0, s.id);
    HeldU64(b, 8, Unsigned(s.chat));
    HeldPhase(b, 16, s.phase);
    HeldU64(b, 16 + w, s.leaseRemaining);
    HeldTriples(b, 24 + w, s);
    Widths();
    HeldInt(b, 72 + w, 4, |bytes|);
    Tail(b, 76 + w, bytes);
    KeptPath(s.worktree);
  }

  lemma HeldTriples(b: seq<byte>, pos: nat, s: TaskSnapshot)
    requires Holds(b, pos, BudgetBytes(s.budget)) && Holds(b, pos + 24, UsageBytes(s.usage))
    ensures IntAt(b, pos, 8, s.budget.maxWall) && IntAt(b, pos + 8, 8, s.budget.maxOutput)
            && IntAt(b, pos + 16, 8, s.budget.maxTokens)
    ensures IntAt(b, pos + 24, 8, s.usage.wall) && IntAt(b, pos + 32, 8, s.usage.output)
            && IntAt(b, pos + 40, 8, s.usage.tokens)
  {
    hide U64Bytes, Holds, IntAt;
    HeldThree(b, pos, s.budget.maxWall, s.budget.maxOutput, s.budget.maxTokens);
    HeldThree(b, pos + 24, s.usage.wall, s.usage.output, s.usage.tokens);
  }

  lemma WordWidth(x: u64)
    ensures |U64Bytes(x)| == 8
  {
  }

  lemma Whole(b: seq<byte>)
    ensures Holds(b, 0, b)
  {
    assert b[0..|b|] == b;
  }

  lemma Tail(b: seq<byte>, pos: nat, chunk: seq<byte>)
    requires Holds(b, pos, chunk) && pos + |chunk| == |b|
    ensures b[pos..] == chunk
  {
    assert b[pos..pos + |chunk|] == b[pos..];
  }

  lemma KeptPath(path: Option<seq<byte>>)
    ensures var kept := PathBytes(path);
            && |kept| <= 4096 && (path.None? ==> kept == [])
            && (path.Some? ==> kept <= path.value && (|path.value| <= 4096 ==> kept == path.value))
  {
  }

  // ----- the header -----

  /** Which bytes are refused for their header, and how: anything but the four magic bytes and a fifth
      is no dump, a fifth byte other than 1 is another version, and nothing else is either. */
  lemma HeaderDecides(b: seq<byte>, lossy: seq<byte> -> seq<byte>)
    ensures var r := Decode(b, lossy);
            && (r == Err(BadFormat) <==> |b| < 5 || b[..4] != [67, 67, 84, 83])
            && (forall v :: r == Err(BadVersion(v)) <==> |b| >= 5 && b[..4] == [67, 67, 84, 83] && b[4] == v && v != 1)
            && (r.Ok? ==> |b| >= 9 && b[..4] == [67, 67, 84, 83] && b[4] == 1)
  {
    hide ReadSnaps;
    if |b| >= 5 {
      assert b[0..4] == b[..4];
      OneByte(b, 4);
    }
  }

  lemma OneByte(b: seq<byte>, pos: nat)
    requires pos < |b|
    ensures ReadInt(b, pos, 1) == Got(b[pos] as nat, pos + 1)
  {
    var s := b[pos..pos + 1];
    assert s[0] == b[pos] && s[1..] == [];
    assert FromLE(s[1..]) == 0;
  }

  // ----- nothing but encodings decodes -----

  /** `x` is `y`, but for axis bytes over 2 where `y` has the token axis. */
  ghost predicate Like(x: seq<byte>, y: seq<byte>) {
    |x| == |y| && forall i | 0 <= i < |x| :: x[i] == y[i] || SpareAxis(x, y, i)
  }

  ghost predicate SpareAxis(x: seq<byte>, y: seq<byte>, i: nat)
    requires i < |x| == |y|
  {
    i >= 2 && y[i - 2..i + 1] == [3, 4, 2] && x[i] > 2
  }

  /** The bytes from `pos` to `end` stand for `chunk`, exactly if `exact`. */
  ghost predicate Was(b: seq<byte>, pos: nat, end: nat, chunk: seq<byte>, exact: bool) {
    pos <= end <= |b| && Like(b[pos..end], chunk) && (exact ==> b[pos..end] == chunk)
  }

  lemma LikeJoin(a: seq<byte>, x: seq<byte>, b: seq<byte>, y: seq<byte>)
    requires Like(a, x) && Like(b, y)
    ensures Like(a + b, x + y)
  {
    var u, v := a + b, x + y;
    forall i | 0 <= i < |u| ensures u[i] == v[i] || SpareAxis(u, v, i) {
      if i < |a| {
        assert u[i] == a[i] && v[i] == x[i];
        if a[i] != x[i] {
          assert SpareAxis(a, x, i);
          assert v[i - 2..i + 1] == x[i - 2..i + 1];
        }
      } else {
        var k := i - |a|;
        assert u[i] == b[k] && v[i] == y[k];
        if b[k] != y[k] {
          assert SpareAxis(b, y, k);
          assert v[i - 2..i + 1] == y[k - 2..k + 1];
        }
      }
    }
  }

  lemma WasJoin(b: seq<byte>, p: nat, q: nat, r: nat, x: seq<byte>, y: seq<byte>, exact: bool)
    requires Was(b, p, q, x, exact) && Was(b, q, r, y, exact)
    ensures Was(b, p, r, x + y, exact)
  {
    assert b[p..r] == b[p..q] + b[q..r];
    LikeJoin(b[p..q], x, b[q..r], y);
  }

  lemma WasExact(b: seq<byte>, p: nat, q: nat, x: seq<byte>, exact: bool)
    requires p <= q <= |b| && b[p..q] == x
    ensures Was(b, p, q, x, exact)
  {
  }

  lemma IntWas(b: seq<byte>, pos: nat, n: nat, exact: bool)
    ensures var r := ReadInt(b, pos, n);
            r.Got? ==> r.pos == pos + n && Was(b, pos, r.pos, LE(n, r.value), exact)
  {
    hide LE, FromLE;
    if pos + n <= |b| {
      ToFromLE(b[pos..pos + n]);
      WasExact(b, pos, pos + n, b[pos..pos + n], exact);
    }
  }

  lemma U64Was(b: seq<byte>, pos: nat, exact: bool)
    ensures var r := ReadU64(b, pos); r.Got? ==> r.pos == pos + 8 && Was(b, pos, r.pos, U64Bytes(r.value), exact)
  {
    hide LE, Was;
    IntWas(b, pos, 8, exact);
  }

  lemma ByteWas(b: seq<byte>, pos: nat)
    ensures var r := ReadInt(b, pos, 1); r.Got? ==> pos < |b| && r.pos == pos + 1 && r.value == b[pos]
  {
    if pos < |b| {
      OneByte(b, pos);
    }
  }

  predicate OnTokens(p: TaskPhase) {
    p == Done(BudgetExhausted(Tokens))
  }

  lemma PhaseWas(b: seq<byte>, pos: nat, exact: bool)
    ensures var r := ReadPhase(b, pos);
            r.Got? && (exact ==> !OnTokens(r.value)) ==> Was(b, pos, r.pos, PhaseBytes(r.value), exact)
  {
    hide ReadInt, FromLE;
    ByteWas(b, pos);
    ByteWas(b, pos + 1);
    ByteWas(b, pos + 2);
    var r := ReadPhase(b, pos);
    if r.Got? {
      var was, bytes := b[pos..r.pos], PhaseBytes(r.value);
      assert |was| == |bytes| && was[0] == bytes[0];
      if |was| >= 2 {
        assert was[1] == bytes[1];
        if |was| == 3 {
          assert bytes[0..3] == bytes;
          assert was[2] == bytes[2] || (bytes == [3, 4, 2] && was[2] > 2);
        }
      }
    }
  }

  lemma BudgetWas(b: seq<byte>, pos: nat, exact: bool)
    ensures var r := ReadBudget(b, pos); r.Got? ==> Was(b, pos, r.pos, BudgetBytes(r.value), exact)
  {
    hide U64Bytes, ReadU64, Was;
    var r := ReadBudget(b, pos);
    if r.Got? {
      ThreeWas(b, pos, exact);
    }
  }

  lemma UsageWas(b: seq<byte>, pos: nat, exact: bool)
    ensures var r := ReadUsage(b, pos); r.Got? ==> Was(b, pos, r.pos, UsageBytes(r.value), exact)
  {
    hide U64Bytes, ReadU64, Was;
    var r := ReadUsage(b, pos);
    if r.Got? {
      ThreeWas(b, pos, exact);
    }
  }

  lemma ThreeWas(b: seq<byte>, pos: nat, exact: bool)
    requires ReadBudget(b, pos).Got?
    ensures var x := ReadU64(b, pos);
            && x.Got?
            && var y := ReadU64(b, x.pos);
            && y.Got?
            && var z := ReadU64(b, y.pos);
            && z.Got?
            && Was(b, pos, z.pos, U64Bytes(x.value) + (U64Bytes(y.value) + U64Bytes(z.value)), exact)
  {
    hide U64Bytes, ReadU64, Was;
    var x := ReadU64(b, pos);
    var y := ReadU64(b, x.pos);
    var z := ReadU64(b, y.pos);
    U64Was(b, pos, exact);
    U64Was(b, x.pos, exact);
    U64Was(b, y.pos, exact);
    WasJoin(b, x.pos, y.pos, z.pos, U64Bytes(y.value), U64Bytes(z.value), exact);
    WasJoin(b, pos, x.pos, z.pos, U64Bytes(x.value), U64Bytes(y.value) + U64Bytes(z.value), exact);
  }

  /** The conversion that changes no path. */
  function Same(b: seq<byte>): seq<byte> { b }

  lemma PathWas(b: seq<byte>, pos: nat, exact: bool)
    ensures var r := ReadPath(b, pos, Same);
            r.Got? ==> Was(b, pos, r.pos, LE(4, |PathBytes(r.value)|) + PathBytes(r.value), exact)
  {
    hide LE, Was, FromLE;
    var r := ReadPath(b, pos, Same);
    if r.Got? {
      var n := ReadInt(b, pos, 4);
      IntWas(b, pos, 4, exact);
      var path := b[n.pos..n.pos + n.value];
      assert path[..Min(|path|, MAX_PATH)] == path;
      assert PathBytes(r.value) == path;
      WasExact(b, n.pos, r.pos, path, exact);
      WasJoin(b, pos, n.pos, r.pos, LE(4, n.value), path, exact);
    }
  }

  lemma SnapWas(b: seq<byte>, pos: nat, exact: bool)
    ensures var r := ReadSnap(b, pos, Same);
            r.Got? && (exact ==> !OnTokens(r.value.phase)) ==> Was(b, pos, r.pos, SnapBytes(r.value), exact)
  {
    hide ReadU64, ReadPhase, ReadBudget, ReadUsage, ReadPath, Was, OnTokens, Unsigned;
    hide U64Bytes, PhaseBytes, BudgetBytes, UsageBytes, PathBytes, LE;
    var r := ReadSnap(b, pos, Same);
    if r.Got? && (exact ==> !OnTokens(r.value.phase)) {
      var id := ReadU64(b, pos);
      var chat := ReadU64(b, id.pos);
      var phase := ReadPhase(b, chat.pos);
      var lease := ReadU64(b, phase.pos);
      var budget := ReadBudget(b, lease.pos);
      var usage := ReadUsage(b, budget.pos);
      var path := ReadPath(b, usage.pos, Same);
      U64Was(b, pos, exact);
      U64Was(b, id.pos, exact);
      PhaseWas(b, chat.pos, exact);
      U64Was(b, phase.pos, exact);
      BudgetWas(b, lease.pos, exact);
      UsageWas(b, budget.pos, exact);
      PathWas(b, usage.pos, exact);
      var end := path.pos;
      var t7 := LE(4, |PathBytes(path.value)|) + PathBytes(path.value);
      WasJoin(b, budget.pos, usage.pos, end, UsageBytes(usage.value), t7, exact);
      var t6 := UsageBytes(usage.value) + t7;
      WasJoin(b, lease.pos, budget.pos, end, BudgetBytes(budget.value), t6, exact);
      var t5 := BudgetBytes(budget.value) + t6;
      WasJoin(b, phase.pos, lease.pos, end, U64Bytes(lease.value), t5, exact);
      var t4 := U64Bytes(lease.value) + t5;
      WasJoin(b, chat.pos, phase.pos, end, PhaseBytes(phase.value), t4, exact);
      var t3 := PhaseBytes(phase.value) + t4;
      WasJoin(b, id.pos, chat.pos, end, U64Bytes(chat.value), t3, exact);
      WasJoin(b, pos, id.pos, end, U64Bytes(id.value), U64Bytes(chat.value) + t3, exact);
    }
  }

  predicate NoneOnTokens(snaps: seq<TaskSnapshot>) {
    forall s | s in snaps :: !OnTokens(s.phase)
  }

  lemma {:induction false} SnapsWere(b: seq<byte>, pos: nat, count: nat, exact: bool)
    requires pos <= |b|
    ensures var r := ReadSnaps(b, pos, count, Same);
            r.Got? ==>
              && |r.value| == count
              && ((exact ==> NoneOnTokens(r.value)) ==> Was(b, pos, r.pos, Bodies(r.value), exact))
  {
    hide ReadSnap, SnapBytes, Was, OnTokens;
    var r := ReadSnaps(b, pos, count, Same);
    if count == 0 {
      assert b[pos..pos] == [];
      WasExact(b, pos, pos, [], exact);
    } else if r.Got? {
      SnapsWere(b, pos, count - 1, exact);
      var front := ReadSnaps(b, pos, count - 1, Same);
      var last := ReadSnap(b, front.pos, Same);
      assert r.value[..|r.value| - 1] == front.value;
      SnapWas(b, front.pos, exact);
      if exact ==> NoneOnTokens(r.value) {
        assert last.value in r.value;
        assert forall s | s in front.value :: s in r.value;
        WasJoin(b, pos, front.pos, r.pos, Bodies(front.value), SnapBytes(last.value), exact);
      }
    }
  }

  lemma DecodedParts(b: seq<byte>)
    requires DecodeAt(b, Same).Ok?
    ensures |b| >= 9 && b[0..4] == MAGIC && b[4] == VERSION
    ensures var count := ReadInt(b, 5, 4);
            && count.Got? && count.pos == 9 && count.value <= 4096
            && var r := ReadSnaps(b, 9, count.value, Same);
            && r.Got? && DecodeAt(b, Same).value == (r.value, r.pos)
  {
    hide ReadSnaps;
    ByteWas(b, 4);
  }

  /** Whatever bytes decode are an encoding, of at most 4096 snapshots, of what they decode to, up to
      axis bytes over 2, which all stand for the token axis; what follows is not read. */
  lemma OnlyEncodingsDecode(b: seq<byte>)
    requires DecodeAt(b, Same).Ok?
    ensures var (snaps, end) := DecodeAt(b, Same).value;
            && end <= |b| && |snaps| <= 4096
            && Like(b[..end], Encode(snaps))
            && (NoneOnTokens(snaps) ==> b[..end] == Encode(snaps))
  {
    hide ReadSnaps, Bodies, LE, Like, NoneOnTokens, DecodeAt;
    DecodedParts(b);
    var (snaps, end) := DecodeAt(b, Same).value;
    DecodedWas(b, snaps, end, false);
    assert b[0..end] == b[..end];
    if NoneOnTokens(snaps) {
      DecodedWas(b, snaps, end, true);
    }
  }

  lemma DecodedWas(b: seq<byte>, snaps: seq<TaskSnapshot>, end: nat, exact: bool)
    requires DecodeAt(b, Same) == Ok((snaps, end)) && (exact ==> NoneOnTokens(snaps))
    ensures Was(b, 0, end, Encode(snaps), exact) && |snaps| <= 4096
  {
    hide ReadSnaps, Bodies, LE, NoneOnTokens, DecodeAt, Was;
    DecodedParts(b);
    var count := ReadInt(b, 5, 4);
    SnapsWere(b, 9, count.value, exact);
    IntWas(b, 5, 4, exact);
    WasExact(b, 0, 4, MAGIC, exact);
    assert b[4..5] == [VERSION];
    WasExact(b, 4, 5, [VERSION], exact);
    WasJoin(b, 4, 5, 9, [VERSION], LE(4, count.value), exact);
    WasJoin(b, 0, 4, 9, MAGIC, [VERSION] + LE(4, count.value), exact);
    WasJoin(b, 0, 9, end, Header(|snaps|), Bodies(snaps), exact);
  }

  // ----- what the conversion of paths does -----

  function Converted(s: TaskSnapshot, lossy: seq<byte> -> seq<byte>): TaskSnapshot {
    s.(worktree := if s.worktree.Some? then Some(lossy(s.worktree.value)) else None)
  }

  function ConvertedAll(snaps: seq<TaskSnapshot>, lossy: seq<byte> -> seq<byte>): seq<TaskSnapshot> {
    seq(|snaps|, i requires 0 <= i < |snaps| => Converted(snaps[i], lossy))
  }

  lemma SnapConverts(b: seq<byte>, pos: nat, lossy: seq<byte> -> seq<byte>)
    ensures var plain, r := ReadSnap(b, pos, Same), ReadSnap(b, pos, lossy);
            if plain.Bad? then r.Bad? else r == Got(Converted(plain.value, lossy), plain.pos)
  {
    hide ReadU64, ReadPhase, ReadBudget, ReadUsage, ReadInt, Take, Signed;
  }

  lemma {:induction false} SnapsConvert(b: seq<byte>, pos: nat, count: nat, lossy: seq<byte> -> seq<byte>)
    ensures var plain, r := ReadSnaps(b, pos, count, Same), ReadSnaps(b, pos, count, lossy);
            if plain.Bad? then r.Bad? else r == Got(ConvertedAll(plain.value, lossy), plain.pos)
  {
    hide ReadSnap, Converted;
    if count == 0 {
      assert ConvertedAll([], lossy) == [];
    } else {
      SnapsConvert(b, pos, count - 1, lossy);
      var front := ReadSnaps(b, pos, count - 1, Same);
      if front.Got? {
        SnapConverts(b, front.pos, lossy);
        var last := ReadSnap(b, front.pos, Same);
        if last.Got? {
          var all := front.value + [last.value];
          assert ConvertedAll(all, lossy) == ConvertedAll(front.value, lossy) + [Converted(last.value, lossy)];
        }
      }
    }
  }

  /** With any conversion, the same bytes decode, to the same snapshots with their paths converted. */
  lemma ConversionOnlyTouchesPaths(b: seq<byte>, lossy: seq<byte> -> seq<byte>)
    ensures Decode(b, lossy) == match Decode(b, Same)
                                case Ok(snaps) => Ok(ConvertedAll(snaps, lossy))
                                case Err(e) => Err(e)
  {
    hide ReadSnaps, Take, ReadInt, ConvertedAll;
    var version := ReadInt(b, 4, 1);
    if version.Got? {
      var count := ReadInt(b, version.pos, 4);
      if count.Got? {
        SnapsConvert(b, count.pos, count.value, lossy);
      }
    }
  }
}
