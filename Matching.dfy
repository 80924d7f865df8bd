/**
 * The chain matcher of error_as.go: As, restricted to an *XErr target slot,
 * together with the part of errors.As it relies on.
 */
module Matching {
  import opened Wrappers
  import opened GoStd
  import opened Errors
  import opened TypeCheck

  /** The caller's `var target *XErr`, whose address As receives. */
  class Target {
    var xe: XErr?

    constructor ()
      ensures xe == null
    {
      xe := null;
    }
  }

  /** errors.As(err, &target) for an *XErr target: walk the chain along
      Unwrap; at the first *XErr store it in the slot and report true; at
      an error without a cause report false and leave the slot alone. */
  method ErrorsAs(err: GoError, target: Target) returns (found: bool)
    requires ChainOk(err)
    modifies target
    ensures found <==> FirstXErr(err).Some?
    ensures found ==> target.xe == FirstXErr(err).value
    ensures !found ==> target.xe == old(target.xe)
  {
    var cur := err;
    while true
      invariant ChainOk(cur) && FirstXErr(cur) == FirstXErr(err)
      invariant target.xe == old(target.xe)
      decreases Rank(cur)
    {
      match cur
      case X(x) =>
        target.xe := x;
        return true;
      case Plain(_) =>
        return false;
      case Wrap(_, inner) =>
        cur := inner;
    }
  }

  /** As(err, &target, types...): false for a nil error or a chain without
      an *XErr, with the slot untouched; otherwise the slot holds the first
      *XErr of the chain, even when the answer is false, and the answer is
      whether that XErr has one of the listed types (true when none are
      listed). */
  method As(err: Option<GoError>, target: Target, types: seq<ErrorType>) returns (ok: bool)
    requires err.Some? ==> ChainOk(err.value)
    modifies target
    ensures err.None? ==> !ok && target.xe == old(target.xe)
    ensures err.Some? && (forall k :: 0 <= k < |Chain(err.value)| ==> !Chain(err.value)[k].X?) ==>
      !ok && target.xe == old(target.xe)
    ensures err.Some? && FirstXErr(err.value).None? ==> !ok && target.xe == old(target.xe)
    ensures err.Some? && FirstXErr(err.value).Some? ==>
      && target.xe == FirstXErr(err.value).value
      && ok == IsType(target.xe, types)
      && (|types| == 0 ==> ok)
      && (|types| > 0 ==> (ok <==> target.xe.Type in types))
  {
    if err.None? {
      return false;
    }
    FirstXErrOnChain(err.value);
    var found := ErrorsAs(err.value, target);
    if !found {
      return false;
    }
    if |types| > 0 {
      var slot := new Target();
      var again := ErrorsAs(err.value, slot);
      return again && Contains(types, slot.xe.Type);
    }
    return true;
  }
}
