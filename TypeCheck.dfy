/**
 * The category check of error_type.go: (*XErr).IsType, which accepts a nil
 * receiver.
 */
module TypeCheck {
  import opened GoStd
  import opened Errors

  /** IsType(types...): false for a nil receiver whatever the list; for a
      non-nil one, true when no types are listed and otherwise exactly when
      its Type is one of them. The receiver is a parameter because Go lets
      a nil *XErr receive the call. */
  function IsType(e: XErr?, types: seq<ErrorType>): (r: bool)
    ensures e == null ==> !r
    ensures e != null && |types| == 0 ==> r
    ensures |types| > 0 ==> (r <==> e != null && e.Type in types)
  {
    if e == null then false
    else if |types| == 0 then true
    else Contains(types, e.Type)
  }

  /** Only which types are listed matters: lists with the same members,
      in any order and with any repeats, give the same answer. */
  lemma IsTypeSameMembers(e: XErr?, a: seq<ErrorType>, b: seq<ErrorType>)
    requires forall t :: t in a <==> t in b
    ensures IsType(e, a) == IsType(e, b)
  {
    if |a| > 0 {
      assert a[0] in b;
    }
    if |b| > 0 {
      assert b[0] in a;
    }
  }

  /** Listing more types can turn a non-empty list's false into true, never
      a true into false. */
  lemma IsTypeMonotone(e: XErr?, a: seq<ErrorType>, b: seq<ErrorType>)
    requires |a| > 0
    ensures IsType(e, a) ==> IsType(e, a + b)
    ensures IsType(e, b) && |b| > 0 ==> IsType(e, a + b)
  {
    if e != null && e.Type in a {
      var i :| 0 <= i < |a| && a[i] == e.Type;
      assert (a + b)[i] == e.Type;
    }
    if e != null && |b| > 0 && e.Type in b {
      var i :| 0 <= i < |b| && b[i] == e.Type;
      assert (a + b)[|a| + i] == e.Type;
    }
  }
}
