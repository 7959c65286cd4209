/** DeterministicFiniteAutomata of src/index.ts: a current state and a
    transition table giving, for every state and every input, the handler
    that computes the next state from a payload. In the source a handler may
    also mutate state captured by its closure; here a handler is a pure
    function that returns the next state together with its effect `E`, and
    `Next` hands that effect back to the caller. */
module Automaton {
  import opened Wrappers

  /** What the constructor checks of a transition table: the initial state
      has a row, and every row has as many inputs as the initial row and no
      input the initial row lacks. */
  predicate LegalTable<S, I, H>(initialState: S, transfer: map<S, map<I, H>>) {
    && initialState in transfer
    && forall s | s in transfer ::
         |transfer[s].Keys| == |transfer[initialState].Keys| && transfer[s].Keys <= transfer[initialState].Keys
  }

  lemma SubsetOfSameSize<T>(a: set<T>, b: set<T>)
    requires a <= b && |a| == |b|
    ensures a == b
  {
    var d := b - a;
    assert b == a + d;
    assert a !! d;
    assert |b| == |a| + |d|;
  }

  /** The constructor's size-and-membership check accepts exactly the tables
      whose rows all have the same inputs. */
  lemma LegalTableMeans<S, I, H>(initialState: S, transfer: map<S, map<I, H>>)
    ensures LegalTable(initialState, transfer) <==>
      initialState in transfer && forall s | s in transfer :: transfer[s].Keys == transfer[initialState].Keys
  {
    if LegalTable(initialState, transfer) {
      forall s | s in transfer ensures transfer[s].Keys == transfer[initialState].Keys {
        SubsetOfSameSize(transfer[s].Keys, transfer[initialState].Keys);
      }
    }
  }

  class Dfa<S(==), I(==), P, E> {
    /** The current state. */
    var state: S
    const finiteStateSet: set<S>
    const finiteInputSet: set<I>
    const transfer: map<S, map<I, P --> (S, E)>>

    /** The table's shape, fixed by the constructor. The current state need
        not stay in the state set: `next` stores whatever a handler returns. */
    ghost predicate Valid()
      reads this
    {
      && finiteStateSet == transfer.Keys
      && forall s | s in transfer :: transfer[s].Keys == finiteInputSet
    }

    /** The constructor after its checks have passed (see `Create`). */
    constructor (initialState: S, transfer: map<S, map<I, P --> (S, E)>>)
      requires LegalTable(initialState, transfer)
      ensures Valid()
      ensures state == initialState && this.transfer == transfer
      ensures finiteStateSet == transfer.Keys && finiteInputSet == transfer[initialState].Keys
    {
      LegalTableMeans(initialState, transfer);
      finiteStateSet := transfer.Keys;
      finiteInputSet := transfer[initialState].Keys;
      state := initialState;
      this.transfer := transfer;
    }

    /** `next`: an input outside the input set throws, and so does the table
        lookup when the current state has no row; otherwise the handler for
        the current state and the input decides the next state. */
    method Next(input: I, payload: P) returns (r: Result<E>)
      requires Valid()
      requires input in finiteInputSet && state in transfer ==> transfer[state][input].requires(payload)
      modifies this
      ensures Valid()
      ensures input !in finiteInputSet || old(state) !in transfer ==> r == TypeError && state == old(state)
      ensures input in finiteInputSet && old(state) in transfer ==>
        && state == transfer[old(state)][input](payload).0
        && r == Ok(transfer[old(state)][input](payload).1)
    {
      if input !in finiteInputSet || state !in transfer {
        return TypeError;
      }
      var next := transfer[state][input](payload);
      state := next.0;
      r := Ok(next.1);
    }

    /** `force`: jump to a state, which must belong to the state set. */
    method Force(s: S) returns (r: Result<()>)
      requires Valid()
      modifies this
      ensures Valid()
      ensures s in finiteStateSet ==> r == Ok(()) && state == s
      ensures s !in finiteStateSet ==> r == TypeError && state == old(state)
    {
      if s !in finiteStateSet {
        return TypeError;
      }
      state := s;
      r := Ok(());
    }
  }

  /** `new DeterministicFiniteAutomata(initialState, transfer)`: the
      constructor's validation loops, throwing on an illegal table. */
  method Create<S(==), I(==), P, E>(initialState: S, transfer: map<S, map<I, P --> (S, E)>>)
    returns (r: Result<Dfa<S, I, P, E>>)
    ensures r.Ok? <==> LegalTable(initialState, transfer)
    ensures r.Ok? ==>
      && fresh(r.value) && r.value.Valid()
      && r.value.state == initialState && r.value.transfer == transfer
      && r.value.finiteStateSet == transfer.Keys
      && r.value.finiteInputSet == transfer[initialState].Keys
  {
    if initialState !in transfer {
      return TypeError;
    }
    var inputSet := transfer[initialState].Keys;
    var rows := transfer.Keys;
    while rows != {}
      invariant rows <= transfer.Keys
      invariant forall s | s in transfer.Keys - rows ::
        |transfer[s].Keys| == |inputSet| && transfer[s].Keys <= inputSet
      decreases rows
    {
      var s :| s in rows;
      var inputMap := transfer[s];
      if |inputMap.Keys| != |inputSet| {
        return TypeError;
      }
      var inputs := inputMap.Keys;
      while inputs != {}
        invariant inputs <= inputMap.Keys
        invariant forall i | i in inputMap.Keys - inputs :: i in inputSet
        decreases inputs
      {
        var i :| i in inputs;
        if i !in inputSet {
          return TypeError;
        }
        inputs := inputs - {i};
      }
      rows := rows - {s};
    }
    var dfa := new Dfa(initialState, transfer);
    r := Ok(dfa);
  }
}
