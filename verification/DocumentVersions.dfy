/**
 * Version numbers of one document under overlapping uploads: each upload reads the number
 * before its transaction and writes the next one in it, and the index on document and
 * number does not refuse a second row of one number.
 */
module DocumentVersions {
  /** One document's steps, in the order the database sees them. */
  datatype Step = ReadNumber(session: nat) | CommitVersion(session: nat)

  /** The number on the document, what each session has read, and the numbers of its version rows. */
  datatype State = State(current: nat, read: map<nat, nat>, numbers: seq<nat>)

  predicate Enabled(state: State, step: Step) { step.CommitVersion? ==> step.session in state.read }

  function Next(state: State, step: Step): State
    requires Enabled(state, step)
  {
    match step
    case ReadNumber(session) => state.(read := state.read[session := state.current])
    case CommitVersion(session) =>
      var number := state.read[session] + 1;
      State(number, state.read - {session}, state.numbers + [number])
  }

  predicate Runs(state: State, steps: seq<Step>)
    decreases |steps|
  {
    steps == [] || (Enabled(state, steps[0]) && Runs(Next(state, steps[0]), steps[1..]))
  }

  function After(state: State, steps: seq<Step>): State
    requires Runs(state, steps)
    decreases |steps|
  {
    if steps == [] then state else After(Next(state, steps[0]), steps[1..])
  }

  /** Versions one to n, in order, and the document's number is n. */
  ghost predicate Numbered(state: State) {
    state.current == |state.numbers| && forall i :: 0 <= i < |state.numbers| ==> state.numbers[i] == i + 1
  }

  /** No session commits on a number that another has moved on since it read it. */
  predicate Fresh(state: State, steps: seq<Step>)
    requires Runs(state, steps)
    decreases |steps|
  {
    steps == [] ||
    (&& (steps[0].CommitVersion? ==> state.read[steps[0].session] == state.current)
     && Fresh(Next(state, steps[0]), steps[1..]))
  }

  lemma {:induction false} NumbersStay(state: State, steps: seq<Step>)
    requires Runs(state, steps)
    ensures state.numbers <= After(state, steps).numbers
    decreases |steps|
  {
    if steps != [] { NumbersStay(Next(state, steps[0]), steps[1..]); }
  }

  /**
   * Over every interleaving of uploads, versions stay numbered one to n exactly when no upload commits
   * on a stale number.
   */
  lemma {:induction false} NumberedIffFresh(state: State, steps: seq<Step>)
    requires Numbered(state) && Runs(state, steps)
    ensures Numbered(After(state, steps)) <==> Fresh(state, steps)
    decreases |steps|
  {
    if steps != [] {
      var next := Next(state, steps[0]);
      if steps[0].CommitVersion? && state.read[steps[0].session] != state.current {
        var n := |state.numbers|;
        NumbersStay(next, steps[1..]);
        assert next.numbers[n] == After(state, steps).numbers[n] != n + 1;
      } else {
        NumberedIffFresh(next, steps[1..]);
      }
    }
  }

  lemma AfterStep(state: State, step: Step, rest: seq<Step>)
    requires Enabled(state, step) && Runs(Next(state, step), rest)
    ensures Runs(state, [step] + rest) && After(state, [step] + rest) == After(Next(state, step), rest)
  {
    assert ([step] + rest)[1..] == rest;
  }

  function Overlap(s: nat, t: nat): seq<Step> {
    [ReadNumber(s)] + ([ReadNumber(t)] + ([CommitVersion(s)] + ([CommitVersion(t)] + [])))
  }

  /** Two uploads that both read before either commits write two rows of one number, on any document in any state. */
  lemma OverlapWritesNumberTwice(state: State, s: nat, t: nat)
    requires s != t
    ensures Runs(state, Overlap(s, t))
    ensures After(state, Overlap(s, t)).numbers == state.numbers + [state.current + 1, state.current + 1]
  {
    var a := Next(state, ReadNumber(s));
    var b := Next(a, ReadNumber(t));
    var c := Next(b, CommitVersion(s));
    AfterStep(c, CommitVersion(t), []);
    AfterStep(b, CommitVersion(s), [CommitVersion(t)] + []);
    AfterStep(a, ReadNumber(t), [CommitVersion(s)] + ([CommitVersion(t)] + []));
    AfterStep(state, ReadNumber(s), [ReadNumber(t)] + ([CommitVersion(s)] + ([CommitVersion(t)] + [])));
  }
}
