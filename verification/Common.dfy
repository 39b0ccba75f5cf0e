/** Small types shared by all components. */
module Common {

  datatype Option<+T> = None | Some(value: T)

  /** A `lost_notify_t` with its two arguments. */
  datatype Callback = Callback(fn: int, arg1: int, arg2: int)

  function Callbacks(notify: Option<Callback>): seq<Callback> {
    if notify.Some? then [notify.value] else []
  }

  type Byte = b: int | 0 <= b < 256

  /** `memory` with the bytes of `data` written from index `at` on. */
  function Splice<T>(memory: seq<T>, at: nat, data: seq<T>): (r: seq<T>)
    requires at + |data| <= |memory|
    ensures |r| == |memory|
    ensures forall i :: 0 <= i < |memory| ==>
      r[i] == if at <= i < at + |data| then data[i - at] else memory[i]
  {
    memory[..at] + data + memory[at + |data|..]
  }

  lemma {:induction false} SpliceNothing<T>(memory: seq<T>, at: nat)
    requires at <= |memory|
    ensures Splice(memory, at, []) == memory
  {
  }

  lemma {:induction false} SpliceExtends<T>(memory: seq<T>, at: nat, data: seq<T>, mid: nat, next: nat, before: seq<T>)
    requires at <= mid <= next <= at + |data| <= |memory|
    requires before == Splice(memory, at, data[..mid - at])
    ensures Splice(before, mid, data[mid - at..next - at]) == Splice(memory, at, data[..next - at])
  {
  }

  /** `intersects` (ps3emu/utils.h:47-50). */
  predicate Intersects(a: nat, alen: nat, b: nat, blen: nat) {
    !(a + alen <= b || b + blen <= a)
  }

  /** Ranges that are not empty intersect exactly if they share an address. */
  lemma IntersectsIffShared(a: nat, alen: nat, b: nat, blen: nat)
    requires alen > 0 && blen > 0
    ensures Intersects(a, alen, b, blen) <==> exists x: nat :: IsShared(a, alen, b, blen, x)
  {
    if Intersects(a, alen, b, blen) {
      assert IsShared(a, alen, b, blen, if a < b then b else a);
    }
  }

  predicate IsShared(a: nat, alen: nat, b: nat, blen: nat, x: nat) {
    a <= x < a + alen && b <= x < b + blen
  }

  /** `n` turns of a loop. */
  function Iterate<S>(step: S -> S, s: S, n: nat): S {
    if n == 0 then s else step(Iterate(step, s, n - 1))
  }

  lemma {:induction false} IterateSum<S>(step: S -> S, s: S, m: nat, n: nat)
    ensures Iterate(step, s, m + n) == Iterate(step, Iterate(step, s, m), n)
  {
    if n > 0 {
      IterateSum(step, s, m, n - 1);
    }
  }

  /** `p` holds of the first `n` states. */
  predicate Holds<S>(p: S -> bool, step: S -> S, s: S, n: nat) {
    n == 0 || (p(Iterate(step, s, n - 1)) && Holds(p, step, s, n - 1))
  }

  lemma {:induction false} HoldsAt<S>(p: S -> bool, step: S -> S, s: S, n: nat, k: nat)
    requires Holds(p, step, s, n) && k < n
    ensures p(Iterate(step, s, k))
  {
    if k < n - 1 {
      HoldsAt(p, step, s, n - 1, k);
    }
  }

  lemma {:induction false} HoldsUpTo<S>(p: S -> bool, step: S -> S, s: S, n: nat, k: nat)
    requires Holds(p, step, s, n) && k <= n
    ensures Holds(p, step, s, k)
  {
    if k < n {
      HoldsUpTo(p, step, s, n - 1, k);
    }
  }

  lemma {:induction false} HoldsFrom<S>(p: S -> bool, step: S -> S, s: S, a: nat, b: nat)
    requires Holds(p, step, s, a + b)
    ensures Holds(p, step, Iterate(step, s, a), b)
  {
    if b > 0 {
      HoldsFrom(p, step, s, a, b - 1);
      IterateSum(step, s, a, b - 1);
    }
  }

  /** The first state in which `p` fails, if there is one among the first `n`. */
  lemma {:induction false} FirstFailure<S>(p: S -> bool, step: S -> S, s: S, n: nat) returns (j: nat)
    ensures j <= n && Holds(p, step, s, j) && (j < n ==> !p(Iterate(step, s, j)))
  {
    if n == 0 {
      j := 0;
    } else {
      j := FirstFailure(p, step, s, n - 1);
      if j == n - 1 && p(Iterate(step, s, j)) {
        j := n;
      }
    }
  }

  /** What is known of a run, for the run from its `i`-th state on. */
  lemma {:induction false} LaterRun<S>(p: S -> bool, q: S -> bool, step: S -> S, s: S, i: nat, j: nat, n: nat)
    requires Holds(p, step, s, n) && i <= j && Holds(q, step, s, j) && i <= n
    ensures var s1 := Iterate(step, s, i);
      Iterate(step, s1, j - i) == Iterate(step, s, j) && Iterate(step, s1, n - i) == Iterate(step, s, n) &&
      Holds(p, step, s1, n - i) && Holds(q, step, s1, j - i)
  {
    HoldsFrom(p, step, s, i, n - i);
    HoldsFrom(q, step, s, i, j - i);
    IterateSum(step, s, i, j - i);
    IterateSum(step, s, i, n - i);
  }
}
