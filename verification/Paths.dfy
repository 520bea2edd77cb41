/** Paths of a transition relation over a growing log; `first` marks the step that directly follows a reading. */
module Paths {

  predicate Path<S(!new)>(ok: (bool, seq<S>, S) -> bool, first: bool, log: seq<S>, steps: seq<S>)
    decreases |steps|
  {
    steps == [] || (ok(first, log, steps[0]) && Path(ok, false, log + [steps[0]], steps[1..]))
  }

  lemma {:induction false} PathThen<S(!new)>(ok: (bool, seq<S>, S) -> bool, first: bool, log: seq<S>, a: seq<S>, b: seq<S>)
    requires Path(ok, first, log, a) && Path(ok, false, log + a, b) && a != []
    ensures Path(ok, first, log, a + b)
    decreases |a|
  {
    var head, rest := log + [a[0]], a[1..];
    assert (a + b)[1..] == rest + b;
    assert log + a == head + rest;
    if rest == [] {
      assert head + rest == head && rest + b == b;
    } else {
      PathThen(ok, false, head, rest, b);
    }
  }

  lemma {:induction false} PathPrefix<S(!new)>(ok: (bool, seq<S>, S) -> bool, first: bool, log: seq<S>, steps: seq<S>, n: nat)
    requires n <= |steps| && Path(ok, first, log, steps)
    ensures Path(ok, first, log, steps[..n])
    decreases n
  {
    if n > 0 {
      PathPrefix(ok, false, log + [steps[0]], steps[1..], n - 1);
      assert steps[..n][1..] == steps[1..][..n - 1];
    }
  }

  lemma PathOne<S(!new)>(ok: (bool, seq<S>, S) -> bool, first: bool, log: seq<S>, step: S)
    requires ok(first, log, step)
    ensures Path(ok, first, log, [step])
  {
    assert [step][1..] == [];
  }

  // A property every step keeps is kept by a path.
  lemma {:induction false} PathInduction<S(!new)>(ok: (bool, seq<S>, S) -> bool, inv: (bool, seq<S>) -> bool,
                                                  first: bool, log: seq<S>, steps: seq<S>)
    requires Path(ok, first, log, steps) && inv(first, log)
    requires forall f, l, step | inv(f, l) && ok(f, l, step) :: inv(false, l + [step])
    ensures steps == [] || inv(false, log + steps)
    decreases |steps|
  {
    if steps != [] {
      var head := log + [steps[0]];
      assert inv(false, head);
      assert head + steps[1..] == log + steps;
      PathInduction(ok, inv, false, head, steps[1..]);
      if steps[1..] == [] {
        assert head == log + steps;
      }
    }
  }

  // A property that every move of a chain keeps holds from one place of the chain to any later one.
  lemma {:induction false} ChainInduction<W(!new), A(!new)>(ws: seq<W>, acts: seq<A>, move: (W, A, W) -> bool, given: A -> bool,
                                                            inv: W -> bool, i: nat, n: nat)
    requires |ws| == |acts| + 1 && i <= n <= |acts| && inv(ws[i])
    requires forall k :: i <= k < n ==> move(ws[k], acts[k], ws[k + 1]) && given(acts[k])
    requires forall w, a, v | move(w, a, v) && given(a) && inv(w) :: inv(v)
    ensures inv(ws[n])
    decreases n
  {
    if i < n {
      ChainInduction(ws, acts, move, given, inv, i, n - 1);
    }
  }
}
