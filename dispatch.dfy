/**
 * Dispatching a sequence of actions to `gameReducer`
 * (src/app/game/page.tsx:61-579), one after another, as the page's
 * `dispatch` does.
 */
module Dispatch {
  import opened Common
  import opened Model
  import opened Reducer

  /** The state after dispatching `acts` one by one from `s`, or None at the first action the reducer cannot take. */
  ghost function Run(s: GameState, acts: seq<Action>, env: Env): Option<GameState>
    decreases |acts|
  {
    if acts == [] then Some(s)
    else if !Defined(s, acts[0]) then None
    else Run(Reduce(s, acts[0], env), acts[1..], env)
  }

  /** Dispatching `xs + ys` is dispatching `xs`, then `ys`. */
  lemma {:induction false} RunAppend(s: GameState, xs: seq<Action>, ys: seq<Action>, env: Env)
    ensures Run(s, xs + ys, env) == if Run(s, xs, env).None? then None else Run(Run(s, xs, env).value, ys, env)
    decreases |xs|
  {
    if xs == [] {
      assert xs + ys == ys;
    } else {
      assert (xs + ys)[0] == xs[0] && (xs + ys)[1..] == xs[1..] + ys;
      if Defined(s, xs[0]) {
        RunAppend(Reduce(s, xs[0], env), xs[1..], ys, env);
      }
    }
  }

  /** Once the reducer cannot take an action, no continuation runs. */
  lemma RunStuck(s: GameState, xs: seq<Action>, ys: seq<Action>, env: Env)
    requires xs <= ys && Run(s, xs, env).None?
    ensures Run(s, ys, env).None?
  {
    assert ys == xs + ys[|xs|..];
    RunAppend(s, xs, ys[|xs|..], env);
  }

  /** Dispatching one action the reducer can take. */
  lemma RunOne(s: GameState, x: Action, env: Env)
    requires Defined(s, x)
    ensures Run(s, [x], env) == Some(Reduce(s, x, env))
  {
    assert [x][1..] == [];
  }

  /** Dispatching three actions the reducer can take, one after another. */
  lemma RunThree(s: GameState, x: Action, y: Action, z: Action, env: Env)
    requires Defined(s, x) && Defined(Reduce(s, x, env), y) && Defined(Reduce(Reduce(s, x, env), y, env), z)
    ensures Run(s, [x, y, z], env) == Some(Reduce(Reduce(Reduce(s, x, env), y, env), z, env))
  {
    var s1 := Reduce(s, x, env);
    var s2 := Reduce(s1, y, env);
    assert [x, y, z][1..] == [y, z] && [y, z][1..] == [z] && [z][1..] == [];
    assert Run(s, [x, y, z], env) == Run(s1, [y, z], env);
    assert Run(s1, [y, z], env) == Run(s2, [z], env);
    assert Run(s2, [z], env) == Run(Reduce(s2, z, env), [], env);
  }

  /** Dispatching `acts`, compiled: the state `Run` reaches. */
  function Apply(s: GameState, acts: seq<Action>, env: Env): (r: GameState)
    requires Run(s, acts, env).Some?
    ensures Run(s, acts, env) == Some(r)
    decreases |acts|
  {
    if acts == [] then s else Apply(Reduce(s, acts[0], env), acts[1..], env)
  }
}
