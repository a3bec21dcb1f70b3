/** Machine integers, failure types and ordered iteration shared by the models. */
module Foundation {

  datatype Option<+T> = None | Some(value: T)

  datatype Result<+R, +E> = Ok(value: R) | Err(error: E)

  const U64_MAX: int := 0xFFFF_FFFF_FFFF_FFFF
  const I64_MIN: int := -0x8000_0000_0000_0000
  const I64_MAX: int := 0x7FFF_FFFF_FFFF_FFFF

  type u64 = x: int | 0 <= x <= U64_MAX
  type i64 = x: int | I64_MIN <= x <= I64_MAX
  type byte = x: int | 0 <= x < 256

  /** `u64::saturating_add` */
  function SatAdd(a: u64, b: u64): u64 {
    if a + b > U64_MAX then U64_MAX else a + b
  }

  /** `u64::saturating_sub` */
  function SatSub(a: u64, b: u64): u64 {
    if a < b then 0 else a - b
  }

  /** `u64::wrapping_add(1)` */
  function WrapInc(a: u64): u64 {
    if a == U64_MAX then 0 else a + 1
  }

  function Max(a: int, b: int): int {
    if a < b then b else a
  }

  function Min(a: int, b: int): int {
    if a < b then a else b
  }

  ghost predicate IsLeast(m: u64, s: set<u64>) {
    m in s && forall x | x in s :: m <= x
  }

  lemma {:induction false} LeastExists(s: set<u64>) returns (least: u64)
    requires s != {}
    ensures IsLeast(least, s)
    decreases |s|
  {
    var a :| a in s;
    least := a;
    var rest := s - {a};
    assert s == rest + {a};
    if rest != {} {
      var m := LeastExists(rest);
      least := if a < m then a else m;
    }
  }

  function Least(s: set<u64>): (m: u64)
    requires s != {}
    ensures m in s && forall x | x in s :: m <= x
  {
    assert exists m :: IsLeast(m, s) by {
      var least := LeastExists(s);
    }
    var m :| m in s && forall x | x in s :: m <= x;
    m
  }

  /** The keys of an ordered map (`BTreeMap`) in iteration order. */
  function Ascending(s: set<u64>): (q: seq<u64>)
    ensures |q| == |s|
    ensures forall x :: x in q <==> x in s
    ensures forall i, j | 0 <= i < j < |q| :: q[i] < q[j]
    decreases |s|
  {
    if s == {} then [] else
    var m := Least(s);
    [m] + Ascending(s - {m})
  }

  function FirstN<T>(s: seq<T>, n: nat): seq<T> {
    if |s| <= n then s else s[..n]
  }

  ghost predicate NoRepeats<T>(s: seq<T>) {
    forall i, j | 0 <= i < j < |s| :: s[i] != s[j]
  }

  lemma LastIsOnce<T>(s: seq<T>)
    requires s != [] && NoRepeats(s)
    ensures NoRepeats(s[..|s| - 1]) && s[|s| - 1] !in s[..|s| - 1]
  {
  }

  lemma TakeSnoc<T>(s: seq<T>, k: nat)
    requires k < |s|
    ensures s[..k + 1] == s[..k] + [s[k]] && s[..k + 1][..k] == s[..k]
  {
  }

  lemma Assoc<T>(a: seq<T>, b: seq<T>, c: seq<T>)
    ensures a + b + c == a + (b + c)
  {
  }

  lemma RemoveOneMore<K, V>(m: map<K, V>, gone: set<K>, k: K)
    ensures m - (gone + {k}) == m - gone - {k}
  {
  }

  /** The state after a run of events and everything emitted along the way. */
  function Fold<S, E, A>(step: (S, E) -> (S, seq<A>), s: S, evs: seq<E>): (S, seq<A>) {
    if evs == [] then (s, []) else
    var before := Fold(step, s, evs[..|evs| - 1]);
    var last := step(before.0, evs[|evs| - 1]);
    (last.0, before.1 + last.1)
  }

  lemma FoldSnoc<S, E, A>(step: (S, E) -> (S, seq<A>), s: S, evs: seq<E>, e: E)
    ensures var before := Fold(step, s, evs);
            var last := step(before.0, e);
            Fold(step, s, evs + [e]) == (last.0, before.1 + last.1)
  {
    assert (evs + [e])[..|evs|] == evs;
  }

  lemma {:induction false} FoldAppend<S, E, A>(step: (S, E) -> (S, seq<A>), s: S, a: seq<E>, b: seq<E>)
    ensures var first := Fold(step, s, a);
            var second := Fold(step, first.0, b);
            Fold(step, s, a + b) == (second.0, first.1 + second.1)
  {
    var first := Fold(step, s, a);
    if b == [] {
      assert a + b == a && first.1 + [] == first.1;
    } else {
      var front := b[..|b| - 1];
      assert (a + b)[..|a + b| - 1] == a + front;
      FoldAppend(step, s, a, front);
      var mid := Fold(step, first.0, front);
      var last := step(mid.0, b[|b| - 1]);
      assert first.1 + mid.1 + last.1 == first.1 + (mid.1 + last.1);
    }
  }
}
