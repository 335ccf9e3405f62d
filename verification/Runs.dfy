/** Sequences of calls on a value: the state they lead to and what they answer. */
module Runs {

  function StateAfter<S, O>(step: (S, O) -> S, s: S, ops: seq<O>): S {
    if ops == [] then s else step(StateAfter(step, s, ops[..|ops| - 1]), ops[|ops| - 1])
  }

  /** The answers, each given in the state its call meets. */
  function Replies<S, O, A>(step: (S, O) -> S, reply: (S, O) -> A, s: S, ops: seq<O>): (r: seq<A>)
    ensures |r| == |ops|
  {
    if ops == [] then []
    else
      var n := |ops| - 1;
      Replies(step, reply, s, ops[..n]) + [reply(StateAfter(step, s, ops[..n]), ops[n])]
  }

  /** One more call of a run. */
  lemma NextCall<S, O, A>(step: (S, O) -> S, reply: (S, O) -> A, s: S, ops: seq<O>, i: nat)
    requires i < |ops|
    ensures StateAfter(step, s, ops[..i + 1]) == step(StateAfter(step, s, ops[..i]), ops[i])
    ensures Replies(step, reply, s, ops[..i + 1]) == Replies(step, reply, s, ops[..i]) + [reply(StateAfter(step, s, ops[..i]), ops[i])]
  {
    assert ops[..i + 1][..i] == ops[..i];
  }

  /** Call i takes the i-th state to the next one and is answered as in that state. */
  ghost predicate Followed<S, O, A>(step: (S, O) -> S, reply: (S, O) -> A, history: seq<S>, ops: seq<O>, answers: seq<A>, i: nat)
    requires i < |ops| && i + 1 < |history| && i < |answers|
  {
    answers[i] == reply(history[i], ops[i]) && history[i + 1] == step(history[i], ops[i])
  }

  /** A history made call by call is that of the run. */
  lemma {:induction false} HistoryIsRun<S, O, A>(step: (S, O) -> S, reply: (S, O) -> A, history: seq<S>, ops: seq<O>, answers: seq<A>, n: nat)
    requires n <= |ops| && n < |history| && n <= |answers|
    requires forall i :: 0 <= i < n ==> Followed(step, reply, history, ops, answers, i)
    ensures history[n] == StateAfter(step, history[0], ops[..n]) && answers[..n] == Replies(step, reply, history[0], ops[..n])
  {
    if n > 0 {
      HistoryIsRun(step, reply, history, ops, answers, n - 1);
      NextCall(step, reply, history[0], ops, n - 1);
      assert Followed(step, reply, history, ops, answers, n - 1);
      assert answers[..n] == answers[..n - 1] + [answers[n - 1]];
    }
  }

  lemma {:induction false} ReplyAt<S, O, A>(step: (S, O) -> S, reply: (S, O) -> A, s: S, ops: seq<O>, i: nat)
    requires i < |ops|
    ensures Replies(step, reply, s, ops)[i] == reply(StateAfter(step, s, ops[..i]), ops[i])
  {
    var n := |ops| - 1;
    if i < n {
      ReplyAt(step, reply, s, ops[..n], i);
      assert ops[..n][..i] == ops[..i];
    }
  }

  /** The state after one more call. */
  lemma StateNext<S, O>(step: (S, O) -> S, s: S, ops: seq<O>, i: nat)
    requires i < |ops|
    ensures StateAfter(step, s, ops[..i + 1]) == step(StateAfter(step, s, ops[..i]), ops[i])
  {
    assert ops[..i + 1][..i] == ops[..i];
  }
}
