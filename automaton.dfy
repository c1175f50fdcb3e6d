/**
 * The key-driven automaton engine (`dfa` in f-to-pay-a-visit.js).
 *
 * A state's record maps transition keys to transitions; a key is either an
 * exact `event.key` value or the wildcard `ANY`. Actions are kept abstract
 * (the type parameter `A`): the engine only stores them and runs the one a
 * lookup selects.
 */
module Automaton {
  import opened Wrappers

  /** A transition key: an exact `event.key` value, or the wildcard `dfa.ANY`. */
  datatype Key = Exact(name: string) | Any

  /** What `addTransition` stores: the registered target state and the action. */
  datatype Transition<S, A> = Transition(to: S, f: A)

  /** `dfa.states`: the transition record of every known state. */
  type Table<S, A> = map<S, map<Key, Transition<S, A>>>

  /** How `input` treats the current state and a key. */
  datatype Outcome<S, A> =
    | NotInState                  // `dfa.state` is undefined: `input` throws
    | UnknownState                // the current state has no record: `input` throws
    | NoTransition                // neither an exact nor an ANY transition: nothing happens
    | Fire(t: Transition<S, A>)   // the action of `t` runs and the state is committed

  /** The record `dfa.states[s] || { transitions: {} }`. */
  function Record<S, A>(states: Table<S, A>, s: S): map<Key, Transition<S, A>>
  {
    if s in states then states[s] else map[]
  }

  /**
   * The table after `addTransition(dfa, from, to, k, f)`.
   *
   * `_from` and `_to` are read before anything is written. When a state is
   * already known its record is shared, so writing the transition into
   * `_from` is seen through `dfa.states[to]` as well when `from == to`. When
   * `to` is new, `_to` is a fresh empty record and `dfa.states[to] = _to`
   * stores it last: for a new state with a self-loop this overwrites the
   * record just stored for `from`, and the self-loop is lost.
   */
  function Register<S, A>(states: Table<S, A>, from: S, to: S, k: Key, f: A): (r: Table<S, A>)
    ensures r.Keys == states.Keys + {from, to}
  {
    var toKnown := to in states;
    var updated := states[from := Record(states, from)[k := Transition(to, f)]];
    if toKnown then updated else updated[to := map[]]
  }

  /**
   * What registration guarantees: the new transition is stored and the
   * other transitions of `from` are kept, except for a self-loop on a new
   * state, which leaves an empty record; `to` keeps its record or gets an
   * empty one; every other state is untouched.
   */
  lemma Registered<S, A>(states: Table<S, A>, from: S, to: S, k: Key, f: A)
    ensures var r := Register(states, from, to, k, f);
            from != to || from in states ==> k in r[from] && r[from][k] == Transition(to, f)
    ensures var r := Register(states, from, to, k, f);
            from != to || from in states ==>
              forall k' :: k' != k ==>
                (k' in r[from] <==> k' in Record(states, from)) &&
                (k' in r[from] ==> r[from][k'] == Record(states, from)[k'])
    ensures from == to && from !in states ==> Register(states, from, to, k, f)[from] == map[]
    ensures to != from ==> Register(states, from, to, k, f)[to] == Record(states, to)
    ensures forall s :: s in states && s != from && s != to ==> Register(states, from, to, k, f)[s] == states[s]
  {
  }

  /**
   * The transition `input` selects in a state's record: the one registered
   * under the exact key, otherwise the ANY one, otherwise none.
   */
  function Resolve<S, A>(rec: map<Key, Transition<S, A>>, key: string): (r: Option<Transition<S, A>>)
    ensures r.Some? <==> Exact(key) in rec || Any in rec
    ensures Exact(key) in rec ==> r == Some(rec[Exact(key)])
    ensures Exact(key) !in rec && Any in rec ==> r == Some(rec[Any])
  {
    if Exact(key) in rec then Some(rec[Exact(key)])
    else if Any in rec then Some(rec[Any])
    else None
  }

  /** The decision `input` takes before running any action. */
  function Lookup<S, A>(states: Table<S, A>, state: Option<S>, key: string): (r: Outcome<S, A>)
    ensures r == NotInState <==> state == None
    ensures r == UnknownState <==> state.Some? && state.value !in states
    ensures r == NoTransition <==>
              state.Some? && state.value in states &&
              Exact(key) !in states[state.value] && Any !in states[state.value]
    ensures r.Fire? ==>
              state.Some? && state.value in states &&
              Resolve(states[state.value], key) == Some(r.t)
  {
    match state
    case None => NotInState
    case Some(s) =>
      if s !in states then UnknownState
      else
        match Resolve(states[s], key)
        case None => NoTransition
        case Some(t) => Fire(t)
  }

  /** The state `input` commits after running a transition's action: `stateOverride ?? to`. */
  function Next<S, A>(t: Transition<S, A>, stateOverride: Option<S>): (s: S)
    ensures stateOverride.Some? ==> s == stateOverride.value
    ensures stateOverride.None? ==> s == t.to
  {
    stateOverride.GetOr(t.to)
  }

  /** Registering an exact key makes `input` select that transition on that key. */
  lemma RegisteredExactIsSelected<S, A>(states: Table<S, A>, from: S, to: S, key: string, f: A)
    requires from != to || from in states
    ensures Lookup(Register(states, from, to, Exact(key), f), Some(from), key) == Fire(Transition(to, f))
  {
    Registered(states, from, to, Exact(key), f);
  }

  /**
   * Registering an ANY transition never shadows an exact one: every key that
   * already had an exact transition in `from` still selects it.
   */
  lemma AnyNeverShadowsExact<S, A>(states: Table<S, A>, from: S, to: S, key: string, f: A)
    requires from != to || from in states
    requires Exact(key) in Record(states, from)
    ensures Lookup(Register(states, from, to, Any, f), Some(from), key)
              == Fire(Record(states, from)[Exact(key)])
  {
    Registered(states, from, to, Any, f);
  }

  /** The record `Register` leaves for `from`. */
  lemma RegisteredRecord<S, A>(states: Table<S, A>, from: S, to: S, k: Key, f: A)
    ensures from in Register(states, from, to, k, f)
    ensures Register(states, from, to, k, f)[from] ==
              if from == to && from !in states then map[] else Record(states, from)[k := Transition(to, f)]
  {
  }

  /**
   * Re-registering the same `(from, k)` replaces the earlier transition:
   * `from`'s record ends with the second transition on `k`. The first
   * registration made `from` known, so a second self-loop is never lost;
   * unless the second alone would have been that lost self-loop, the
   * result is the record registering only the second gives.
   */
  lemma ReRegisterReplaces<S, A>(states: Table<S, A>, from: S, to1: S, to2: S, k: Key, f1: A, f2: A)
    ensures Register(Register(states, from, to1, k, f1), from, to2, k, f2)[from]
              == Record(states, from)[k := Transition(to2, f2)]
    ensures (from in states || from != to2) ==>
              Register(Register(states, from, to1, k, f1), from, to2, k, f2)[from]
                == Register(states, from, to2, k, f2)[from]
  {
    var once := Register(states, from, to1, k, f1);
    RegisteredRecord(states, from, to1, k, f1);
    RegisteredRecord(once, from, to2, k, f2);
    RegisteredRecord(states, from, to2, k, f2);
    assert Record(once, from)[k := Transition(to2, f2)] == Record(states, from)[k := Transition(to2, f2)];
  }

  /** The automaton object: `{ states, state }`. */
  class Dfa<S(==), A> {
    var states: Table<S, A>
    var state: Option<S>

    /** `dfa.empty()`: no states, and the current state undefined. */
    constructor Empty()
      ensures states == map[] && state == None
    {
      states := map[];
      state := None;
    }

    /** `dfa.addTransition(dfa, from, to, k, f)`. */
    method AddTransition(from: S, to: S, k: Key, f: A)
      modifies this
      ensures states == Register(old(states), from, to, k, f)
      ensures state == old(state)
    {
      var fromRecord := Record(states, from);
      var toKnown := to in states;
      fromRecord := fromRecord[k := Transition(to, f)];
      states := states[from := fromRecord];
      if !toKnown {
        states := states[to := map[]];
      }
    }

    /** `dfa.setState(dfa, s)`; the console log is not modelled. */
    method SetState(s: S)
      modifies this
      ensures state == Some(s) && states == old(states)
    {
      state := Some(s);
    }

    /**
     * `dfa.input(dfa, input)` for an action whose only observable effect is
     * the state it returns: `run(f)` is what action `f` returns for this
     * input (`None` for undefined). The throws are the `NotInState` and
     * `UnknownState` outcomes, which change nothing.
     */
    method Input(key: string, run: A -> Option<S>) returns (r: Outcome<S, A>)
      modifies this
      ensures r == Lookup(old(states), old(state), key)
      ensures states == old(states)
      ensures r.Fire? ==> state == Some(Next(r.t, run(r.t.f)))
      ensures !r.Fire? ==> state == old(state)
    {
      r := Lookup(states, state, key);
      if r.Fire? {
        var stateOverride := run(r.t.f);
        SetState(Next(r.t, stateOverride));
      }
    }
  }
}
