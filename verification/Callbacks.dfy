/** Calls made to a client's callback, which fails by returning a negative number. */
module Callbacks {

  predicate NoneFailed<T>(log: seq<T>, callback: T -> int) {
    forall i :: 0 <= i < |log| ==> callback(log[i]) >= 0
  }

  lemma NoFailureYet<T>(callback: T -> int)
    ensures NoneFailed([], callback)
  {
  }

  lemma OneMoreCall<T>(log: seq<T>, call: T, callback: T -> int)
    requires NoneFailed(log, callback)
    ensures NoneFailed(log + [call], callback) <==> callback(call) >= 0
    ensures (log + [call])[..|log|] == log && (log + [call])[|log|] == call
  {
    assert (log + [call])[|log|] == call;
  }

  function Sum<T>(log: seq<T>, callback: T -> int): int {
    if log == [] then 0 else Sum(log[..|log| - 1], callback) + callback(log[|log| - 1])
  }

  /** All of plan was called and r is the sum of the results, or the calls stop at the
      first one that fails, whose result is r. */
  ghost predicate Outcome<T>(plan: seq<T>, callback: T -> int, log: seq<T>, r: int) {
    if NoneFailed(log, callback) then log == plan && r == Sum(plan, callback)
    else log <= plan && NoneFailed(log[..|log| - 1], callback) && r == callback(log[|log| - 1]) < 0
  }

  lemma {:induction false} SumConcat<T>(a: seq<T>, b: seq<T>, callback: T -> int)
    ensures Sum(a + b, callback) == Sum(a, callback) + Sum(b, callback)
  {
    if b == [] {
      assert a + b == a;
    } else {
      SumConcat(a, b[..|b| - 1], callback);
      assert (a + b)[..|a + b| - 1] == a + b[..|b| - 1];
    }
  }

  lemma SumOneMore<T>(log: seq<T>, call: T, callback: T -> int)
    ensures Sum(log + [call], callback) == Sum(log, callback) + callback(call)
  {
    assert (log + [call])[..|log|] == log;
  }

  lemma Complete<T>(callback: T -> int, log: seq<T>)
    ensures Sum([], callback) == 0
    ensures NoneFailed(log, callback) ==> Outcome(log, callback, log, Sum(log, callback))
  {
  }

  lemma LastCall<T>(callback: T -> int, log: seq<T>, plan: seq<T>)
    requires log != [] && log <= plan && NoneFailed(log[..|log| - 1], callback)
    requires callback(log[|log| - 1]) < 0
    ensures Outcome(plan, callback, log, callback(log[|log| - 1]))
  {
  }

  /** Calls after others that did not fail. */
  lemma OutcomeGrows<T>(done: seq<T>, pass: seq<T>, plan: seq<T>, callback: T -> int, more: seq<T>, r: int)
    requires NoneFailed(done, callback) && Outcome(pass, callback, more, r) && done + pass <= plan
    ensures NoneFailed(done + more, callback) <==> NoneFailed(more, callback)
    ensures NoneFailed(more, callback) ==>
              done + more == done + pass && Sum(done + more, callback) == Sum(done, callback) + r
    ensures !NoneFailed(more, callback) ==> Outcome(plan, callback, done + more, r)
  {
    SumConcat(done, more, callback);
    if !NoneFailed(more, callback) {
      var i :| 0 <= i < |more| && callback(more[i]) < 0;
      assert (done + more)[|done| + i] == more[i];
      assert (done + more)[..|done + more| - 1] == done + more[..|more| - 1];
    }
    hide Sum;
  }
}
