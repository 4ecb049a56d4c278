/**
 * A reference reading of a chain of `uassert`s: the guards are checked in
 * order and the first one that does not hold decides the error.
 */
module FailFast {
  import opened ClusterTypes

  /** One guard: the condition that must hold, and the code raised when it does not. */
  datatype Guard = Guard(holds: bool, code: ErrorCode)

  predicate AllHold(gs: seq<Guard>) {
    forall i :: 0 <= i < |gs| ==> gs[i].holds
  }

  /** Guard `i` fails and every guard before it holds. */
  predicate FailsFirstAt(gs: seq<Guard>, i: int) {
    && 0 <= i < |gs|
    && !gs[i].holds
    && forall j :: 0 <= j < i ==> gs[j].holds
  }

  /** The error of the first failing guard, or None when every guard holds. */
  function FirstFailure(gs: seq<Guard>): (r: Option<ErrorCode>)
    ensures r.None? <==> AllHold(gs)
    ensures r.Some? ==> exists i :: FailsFirstAt(gs, i) && gs[i].code == r.value
  {
    if |gs| == 0 then None
    else if !gs[0].holds then Some(gs[0].code)
    else
      var rest := FirstFailure(gs[1..]);
      if rest.Some? then
        var i :| FailsFirstAt(gs[1..], i) && gs[1..][i].code == rest.value;
        assert FailsFirstAt(gs, i + 1);
        rest
      else
        assert AllHold(gs) by {
          forall i | 0 <= i < |gs| ensures gs[i].holds {
            if i > 0 { assert gs[i] == gs[1..][i - 1]; }
          }
        }
        rest
  }

  /** The converse: the first failing guard's code is exactly what FirstFailure reports. */
  lemma FirstFailureIsFirstFailing(gs: seq<Guard>, i: int)
    requires FailsFirstAt(gs, i)
    ensures FirstFailure(gs) == Some(gs[i].code)
  {
  }
}
