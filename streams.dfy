/**
 * Every engine in the repository is a state machine: a draw returns a
 * value computed from the current state and replaces the state by its
 * successor.  This module names the state after n draws and the values
 * of n successive draws for any such engine, and proves the facts about
 * them that do not depend on the engine.
 */
module Streams {

  /** The state after n draws: `step` applied n times. */
  function Iterate<S>(step: S -> S, s: S, n: nat): S
  {
    if n == 0 then s else step(Iterate(step, s, n - 1))
  }

  /**
   * The values returned by n successive draws from state s, where a draw
   * from state x returns out(x) and leaves step(x) behind.
   */
  function Draws<S, T>(step: S -> S, out: S -> T, s: S, n: nat): (r: seq<T>)
    ensures |r| == n
  {
    if n == 0 then [] else Draws(step, out, s, n - 1) + [out(Iterate(step, s, n - 1))]
  }

  /** The sequence f(0, xs[0]), ..., f(n - 1, xs[n - 1]), built by appending. */
  function Indexed<A, T>(f: (nat, A) -> T, xs: seq<A>, n: nat): (v: seq<T>)
    requires n <= |xs|
    ensures |v| == n
    decreases n
  {
    if n == 0 then [] else Indexed(f, xs, n - 1) + [f(n - 1, xs[n - 1])]
  }

  /** Element i of the sequence is f(i, xs[i]). */
  lemma {:induction false} IndexedAt<A, T>(f: (nat, A) -> T, xs: seq<A>, n: nat, i: nat)
    requires n <= |xs| && i < n
    ensures Indexed(f, xs, n)[i] == f(i, xs[i])
    decreases n
  {
    if i < n - 1 {
      IndexedAt(f, xs, n - 1, i);
    }
  }

  /** n draws followed by m draws are n + m draws. */
  lemma {:induction false} IterateAdd<S>(step: S -> S, s: S, n: nat, m: nat)
    ensures Iterate(step, Iterate(step, s, n), m) == Iterate(step, s, n + m)
  {
    if m > 0 {
      IterateAdd(step, s, n, m - 1);
    }
  }

  /** Drawing once and then n times is drawing n times and then once. */
  lemma {:induction false} IterateSwap<S>(step: S -> S, s: S, n: nat)
    ensures Iterate(step, step(s), n) == step(Iterate(step, s, n))
  {
    if n > 0 {
      IterateSwap(step, s, n - 1);
    }
  }

  /** A property every step preserves holds of every later state. */
  lemma {:induction false} IterateKeeps<S>(step: S -> S, inv: S -> bool, s: S, n: nat)
    requires forall x :: inv(x) ==> inv(step(x))
    requires inv(s)
    ensures inv(Iterate(step, s, n))
  {
    if n > 0 {
      IterateKeeps(step, inv, s, n - 1);
    }
  }

  /** Draw i returns the output of the state left by the first i draws. */
  lemma {:induction false} DrawsAt<S, T>(step: S -> S, out: S -> T, s: S, n: nat, i: nat)
    requires i < n
    ensures Draws(step, out, s, n)[i] == out(Iterate(step, s, i))
  {
    if i < n - 1 {
      DrawsAt(step, out, s, n - 1, i);
    }
  }

  /** Drawing n values and then m more is drawing n + m values. */
  lemma {:induction false} DrawsSplit<S, T>(step: S -> S, out: S -> T, s: S, n: nat, m: nat)
    ensures Draws(step, out, s, n + m)
         == Draws(step, out, s, n) + Draws(step, out, Iterate(step, s, n), m)
  {
    if m > 0 {
      DrawsSplit(step, out, s, n, m - 1);
      IterateAdd(step, s, n, m - 1);
    }
  }

  /**
   * When the output function loses nothing, two draws agree exactly when
   * they were made from the same state.
   */
  lemma DrawsAgreeIffStatesAgree<S, T>(step: S -> S, out: S -> T, s: S, n: nat, i: nat, j: nat)
    requires i < n && j < n
    requires forall x, y :: out(x) == out(y) ==> x == y
    ensures Draws(step, out, s, n)[i] == Draws(step, out, s, n)[j]
        <==> Iterate(step, s, i) == Iterate(step, s, j)
  {
    DrawsAt(step, out, s, n, i);
    DrawsAt(step, out, s, n, j);
  }

  /**
   * The `populate_array` loop of every engine: store n successive draws
   * in arr[0..n) and return the state left behind.  Each engine runs it
   * on its own step and output functions.
   */
  method Fill<S, T>(step: S -> S, out: S -> T, s: S, arr: array<T>, n: nat) returns (s': S)
    requires n <= arr.Length
    modifies arr
    ensures arr[..n] == Draws(step, out, s, n)
    ensures arr[n..] == old(arr[n..])
    ensures s' == Iterate(step, s, n)
  {
    s' := s;
    var i := 0;
    while i < n
      invariant 0 <= i <= n
      invariant s' == Iterate(step, s, i)
      invariant arr[..i] == Draws(step, out, s, i)
      invariant arr[n..] == old(arr[n..])
    {
      arr[i] := out(s');
      s' := step(s');
      i := i + 1;
    }
  }

  /**
   * The jump accumulator of xoroshiro128+: the sum, under `add` starting
   * from `zero`, of the states after j draws for every j < k that `bit`
   * selects.  With `add` the word-wise XOR this is the value `jump_stream`
   * builds up while it draws.
   */
  function Accumulate<S>(step: S -> S, add: (S, S) -> S, zero: S, bit: nat -> bool, s: S, k: nat): S
  {
    if k == 0 then zero
    else if bit(k - 1) then add(Accumulate(step, add, zero, bit, s, k - 1), Iterate(step, s, k - 1))
    else Accumulate(step, add, zero, bit, s, k - 1)
  }

  /**
   * When the step is linear for `add` (it maps zero to zero and sums to
   * sums), accumulating from the next state is the next state of the
   * accumulation: a jump commutes with drawing.
   */
  lemma {:induction false} AccumulateCommutes<S>(step: S -> S, add: (S, S) -> S, zero: S, bit: nat -> bool, s: S, k: nat)
    requires step(zero) == zero
    requires forall a, b :: step(add(a, b)) == add(step(a), step(b))
    ensures Accumulate(step, add, zero, bit, step(s), k) == step(Accumulate(step, add, zero, bit, s, k))
  {
    if k > 0 {
      AccumulateCommutes(step, add, zero, bit, s, k - 1);
      IterateSwap(step, s, k - 1);
    }
  }
}
