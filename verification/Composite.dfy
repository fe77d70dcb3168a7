/** A query made of several, which the worker's loop processes one after the other. */
module Composite {
  import opened DbQueries

  /** How processing one part goes: well, or it fails where the worker leaves its loop at once
      (Init and SET), or where it goes on to ask for the next part (EXECUTE and exceptions). */
  datatype PartOutcome = PartDone | FailsEarly | FailsLate

  /** The number of parts that a run processes: all up to and including the first failure. */
  ghost predicate IsReach(outcome: nat -> PartOutcome, n: nat, k: nat) {
    && 1 <= k <= n
    && (forall i: nat :: i < k - 1 ==> outcome(i).PartDone?)
    && (k < n ==> !outcome(k - 1).PartDone?)
  }

  lemma ReachUnique(outcome: nat -> PartOutcome, n: nat, j: nat, k: nat)
    requires IsReach(outcome, n, j) && IsReach(outcome, n, k)
    ensures j == k
  {
    var atJ, atK := outcome(j - 1), outcome(k - 1);
    assert j < k ==> atJ.PartDone?;
    assert k < j ==> atK.PartDone?;
  }

  class CompositeAsyncDBQuery {
    const list: seq<Query>
    var currentQuery: nat
    var errorFlag: bool

    ghost predicate Valid()
      reads this
    {
      currentQuery < |list|
    }

    /** The constructor of the original throws on an empty list. */
    constructor (queries: seq<Query>)
      requires queries != []
      ensures Valid() && list == queries && currentQuery == 0 && !errorFlag
    {
      list, currentQuery, errorFlag := queries, 0, false;
    }

    method HandleError()
      modifies this`errorFlag
      ensures errorFlag
    {
      errorFlag := true;
    }

    method Next() returns (retVal: bool)
      requires Valid()
      modifies this`currentQuery
      ensures Valid()
      ensures retVal <==> !errorFlag && old(currentQuery) + 1 < |list|
      ensures currentQuery == if retVal then old(currentQuery) + 1 else old(currentQuery)
    {
      retVal := false;
      var pos := currentQuery + 1;
      if !errorFlag && pos != |list| {
        currentQuery := pos;
        retVal := true;
      }
    }

    /** The worker's loop around a composite query: it processes a prefix of the list that ends at
        the first failure, or all of it. */
    method ProcessParts(outcome: nat -> PartOutcome) returns (processed: seq<Query>)
      requires Valid() && currentQuery == 0 && !errorFlag
      modifies this
      ensures Valid() && exists k: nat :: IsReach(outcome, |list|, k) && processed == list[..k]
      ensures errorFlag <==> exists i: nat :: i < |processed| && !outcome(i).PartDone?
    {
      processed := [];
      var more := true;
      while more
        invariant Valid() && |processed| <= |list| && processed == list[..|processed|]
        invariant more ==> currentQuery == |processed| && !errorFlag && forall i: nat :: i < |processed| ==> outcome(i).PartDone?
        invariant !more ==> IsReach(outcome, |list|, |processed|) && (errorFlag <==> !outcome(|processed| - 1).PartDone?)
        decreases more, |list| - |processed|
      {
        var i := currentQuery;
        processed := processed + [list[i]];
        match outcome(i)
        case PartDone =>
          more := Next();
        case FailsEarly =>
          HandleError();
          more := false;
        case FailsLate =>
          HandleError();
          more := Next();
      }
    }
  }
}
