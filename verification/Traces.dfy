/** A run as the row of its worlds, so that a property can be carried from any act to any later one. */
module Traces {
  import opened Paths
  import opened Runs

  // One act of a run.
  ghost predicate Moves(w: World, act: Act, v: World) { Sound(w.log, w.clock) && Admissible(w, act) && v == Perform(w, act) }

  ghost predicate MoveAt(ws: seq<World>, acts: seq<Act>, n: nat)
    requires n < |acts| && |ws| == |acts| + 1
  {
    Moves(ws[n], acts[n], ws[n + 1])
  }

  // The worlds of a run, one before each act and one after the last.
  ghost predicate Trace(ws: seq<World>, acts: seq<Act>) {
    |ws| == |acts| + 1 && forall n: nat {:trigger MoveAt(ws, acts, n)} :: n < |acts| ==> MoveAt(ws, acts, n)
  }

  ghost function Worlds(acts: seq<Act>): (ws: seq<World>)
    ensures |ws| == |acts| + 1 && forall n :: 0 <= n <= |acts| ==> ws[n] == After(acts[..n])
  {
    seq(|acts| + 1, n requires 0 <= n <= |acts| => After(acts[..n]))
  }

  lemma AllowedPrefix(acts: seq<Act>, n: nat)
    requires n < |acts| && Allowed(acts)
    ensures Allowed(acts[..n]) && Admissible(After(acts[..n]), acts[n])
  {
    assert forall m :: 0 <= m < n ==> acts[..n][..m] == acts[..m];
  }

  lemma OneActMore(acts: seq<Act>, n: nat)
    requires n < |acts| && Allowed(acts)
    ensures Moves(After(acts[..n]), acts[n], After(acts[..n + 1]))
  {
    AllowedPrefix(acts, n);
    RunIsSound(acts[..n]);
    NextWorld(acts, n);
  }

  lemma NextWorld(acts: seq<Act>, n: nat)
    requires n < |acts|
    ensures After(acts[..n + 1]) == Perform(After(acts[..n]), acts[n])
  {
    AfterSnoc(acts[..n], acts[n]);
    assert acts[..n + 1] == acts[..n] + [acts[n]];
  }

  lemma RunTraced(acts: seq<Act>)
    requires Allowed(acts)
    ensures Trace(Worlds(acts), acts)
  {
    var ws := Worlds(acts);
    forall n: nat | n < |acts| ensures MoveAt(ws, acts, n) {
      OneActMore(acts, n);
    }
  }

  // What every act keeps holds from one world of a run to any later one.
  lemma TraceInduction(ws: seq<World>, acts: seq<Act>, given: Act -> bool, inv: World -> bool, i: nat, n: nat)
    requires Trace(ws, acts) && i <= n <= |acts| && inv(ws[i])
    requires forall m :: i <= m < n ==> given(acts[m])
    requires forall w, act, v | Moves(w, act, v) && given(act) && inv(w) :: inv(v)
    ensures inv(ws[n])
  {
    var move := (w: World, act: Act, v: World) => Moves(w, act, v);
    forall m: nat | m < |acts| ensures move(ws[m], acts[m], ws[m + 1]) {
      assert MoveAt(ws, acts, m);
    }
    ChainInduction(ws, acts, move, given, inv, i, n);
  }
}
