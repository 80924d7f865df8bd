/**
 * The classified error value of the xerr package (error.go): the XErr
 * record with its category, message, optional public message, cause, stack
 * snapshot and details, the builders that fill in the public message and
 * the details, the text Error() renders down the cause chain, Unwrap, and
 * StackTrace. Error values in general (Go's `error` interface) are the
 * three kinds of value the package meets: a plain errors.New value, a
 * fmt.Errorf value wrapping one cause with %w, and an *XErr.
 */
module Errors {
  import opened Wrappers
  import opened GoStd
  import Handler

  /** ErrorType: a Go int, 64 bits wide. */
  newtype ErrorType = x: int | -0x8000_0000_0000_0000 <= x < 0x8000_0000_0000_0000

  /** The one category the package itself declares (iota = 0). */
  const ErrUnknown: ErrorType := 0

  /** The capacity of the program-counter buffer New allocates. */
  const StackCapacity := 32

  /** Details: a map from names to values; the values are kept as their text. */
  type Details = map<string, string>

  /** A value of Go's `error` interface, as this package sees it. */
  datatype GoError =
    | Plain(text: string)                  // errors.New(text)
    | Wrap(prefix: string, inner: GoError) // fmt.Errorf(prefix + "%w", inner)
    | X(x: XErr)                           // an *XErr

  /** A measure that goes down along Unwrap, for the chains that are well formed. */
  ghost function Rank(e: GoError): nat {
    match e
    case Plain(_) => 0
    case Wrap(_, inner) => Rank(inner) + 1
    case X(x) => x.rank
  }

  /** Every XErr on the chain was built on a cause built before it, so the
      chain ends. New establishes this for the XErr it builds. */
  ghost predicate ChainOk(e: GoError)
    decreases Rank(e)
  {
    match e
    case Plain(_) => true
    case Wrap(_, inner) => ChainOk(inner)
    case X(x) => x.Err.None? || (Rank(x.Err.value) < x.rank && ChainOk(x.Err.value))
  }

  /** errors.Unwrap: the single cause, if any. */
  function Cause(e: GoError): Option<GoError> {
    match e
    case Plain(_) => None
    case Wrap(_, inner) => Some(inner)
    case X(x) => x.Err
  }

  /** The text of an error: errors.New's text, fmt.Errorf's prefix followed by
      the wrapped text, and XErr.Error(). */
  function ErrorText(e: GoError): string
    requires ChainOk(e)
    decreases Rank(e)
  {
    match e
    case Plain(text) => text
    case Wrap(prefix, inner) => prefix + ErrorText(inner)
    case X(x) => if x.Err.Some? then x.Message + " - " + ErrorText(x.Err.value) else x.Message
  }

  /** The chain errors.As walks: the error, then its cause, then that cause's
      cause, until an error without a cause. */
  function Chain(e: GoError): (c: seq<GoError>)
    requires ChainOk(e)
    ensures |c| >= 1 && c[0] == e
    decreases Rank(e)
  {
    match Cause(e)
    case None => [e]
    case Some(cause) => [e] + Chain(cause)
  }

  /** The XErr errors.As stores into an *XErr slot: the first one on the
      chain. */
  function FirstXErr(e: GoError): Option<XErr>
    requires ChainOk(e)
    decreases Rank(e)
  {
    match e
    case Plain(_) => None
    case Wrap(_, inner) => FirstXErr(inner)
    case X(x) => Some(x)
  }

  /** All fields of an XErr, as one value. */
  datatype Fields = Fields(
    Type: ErrorType,
    Message: string,
    PublicMessage: string,
    Err: Option<GoError>,
    stack: seq<Handler.RawFrame>,
    Details: Option<Details>)

  class XErr {
    const Type: ErrorType
    const Message: string
    var PublicMessage: string
    const Err: Option<GoError>
    /** The snapshot New takes; nothing writes it afterwards. */
    const stack: seq<Handler.RawFrame>
    var Details: Option<Details>
    /** How many XErr and fmt.Errorf layers lie below this one. */
    ghost const rank: nat

    /** The state of the object. */
    function State(): Fields
      reads this
    {
      Fields(Type, Message, PublicMessage, Err, stack, Details)
    }

    /** The chain below this error ends. */
    ghost predicate Valid() {
      ChainOk(X(this))
    }

    /** New(msg, t, err): the category, message and cause as given, no public
        message, nil details, and the first (at most 32) frames of the
        caller's stack, given here as `callers`. */
    constructor (msg: string, t: ErrorType, err: Option<GoError>, callers: seq<Handler.RawFrame>)
      requires err.Some? ==> ChainOk(err.value)
      ensures State() == Fields(t, msg, "", err, callers[..Min(StackCapacity, |callers|)], None)
      ensures Valid()
    {
      Type := t;
      Message := msg;
      PublicMessage := "";
      Err := err;
      stack := callers[..Min(StackCapacity, |callers|)];
      Details := None;
      rank := if err.Some? then Rank(err.value) + 1 else 0;
    }

    /** WithPublicMessage: set the public message, change nothing else, and
        return the same object. */
    method WithPublicMessage(msg: string) returns (r: XErr)
      modifies this`PublicMessage
      ensures r == this
      ensures State() == old(State()).(PublicMessage := msg)
    {
      PublicMessage := msg;
      r := this;
    }

    /** WithDetails: set the details (nil included), change nothing else, and
        return the same object. */
    method WithDetails(details: Option<Details>) returns (r: XErr)
      modifies this`Details
      ensures r == this
      ensures State() == old(State()).(Details := details)
    {
      Details := details;
      r := this;
    }

    /** Error(): the message alone without a cause, and otherwise the message,
        " - " and the cause's text. */
    function Error(): (s: string)
      requires Valid()
      ensures Err.None? ==> s == Message
      ensures Err.Some? ==> s == Message + " - " + ErrorText(Err.value)
      ensures s == ErrorText(X(this))
    {
      ErrorText(X(this))
    }

    /** Unwrap(): the stored cause, which is what errors.Unwrap gives for
        this error; it is missing exactly when the chain stops here. */
    function Unwrap(): (r: Option<GoError>)
      requires Valid()
      ensures r == Cause(X(this))
      ensures r.None? <==> |Chain(X(this))| == 1
      ensures r.Some? ==> Chain(X(this)) == [X(this)] + Chain(r.value)
    {
      Err
    }

    /** StackTrace(showSource): the frames of the snapshot with a known file,
        in order, each with the snippet `snippetOf` gives for it when
        `showSource` is set and an empty snippet otherwise. The snippet
        source is a parameter: error.go calls a package-level codeSnippet
        that the package does not declare. */
    method StackTrace(showSource: bool, snippetOf: (string, int) -> string) returns (result: seq<Handler.Frame>)
      ensures result == Handler.KeepFrames(stack, HasFile, StackSnippet(showSource, snippetOf))
      ensures forall k :: 0 <= k < |result| ==> result[k].File != ""
      ensures !showSource ==> forall k :: 0 <= k < |result| ==> result[k].Snippet == ""
    {
      ghost var snippet := StackSnippet(showSource, snippetOf);
      result := [];
      var i := 0;
      while i < |stack|
        invariant 0 <= i <= |stack|
        invariant result == Handler.KeepFrames(stack[..i], HasFile, snippet)
      {
        var fr := stack[i];
        var more := i + 1 < |stack|;
        Handler.KeepFramesStep(stack, i, HasFile, snippet);
        i := i + 1;
        if fr.File != "" {
          var s := "";
          if showSource {
            s := snippetOf(fr.File, fr.Line);
          }
          assert s == snippet(fr);
          result := result + [Handler.Frame(fr.Function, fr.File, fr.Line, s)];
        }
        if !more {
          break;
        }
      }
      assert stack[..i] == stack;
      StackTraceFrames(stack, showSource, snippetOf);
    }
  }

  function Min(a: int, b: int): int {
    if a < b then a else b
  }

  /** StackTrace keeps a frame when its file is known. */
  predicate HasFile(r: Handler.RawFrame) {
    r.File != ""
  }

  /** The snippet StackTrace attaches to a frame. */
  function StackSnippet(showSource: bool, snippetOf: (string, int) -> string): Handler.RawFrame -> string {
    (r: Handler.RawFrame) => if showSource then snippetOf(r.File, r.Line) else ""
  }

  /** Every frame StackTrace returns has a known file, and an empty snippet
      when source display is off. */
  lemma StackTraceFrames(stack: seq<Handler.RawFrame>, showSource: bool, snippetOf: (string, int) -> string)
    ensures var frames := Handler.KeepFrames(stack, HasFile, StackSnippet(showSource, snippetOf));
      && (forall k :: 0 <= k < |frames| ==> frames[k].File != "")
      && (!showSource ==> forall k :: 0 <= k < |frames| ==> frames[k].Snippet == "")
  {
    var snippet := StackSnippet(showSource, snippetOf);
    var frames := Handler.KeepFrames(stack, HasFile, snippet);
    Handler.KeepFramesMembers(stack, HasFile, snippet);
    forall k | 0 <= k < |frames|
      ensures frames[k].File != ""
      ensures !showSource ==> frames[k].Snippet == ""
    {
      assert frames[k] in frames;
      var j :| 0 <= j < |stack| && HasFile(stack[j]) && frames[k] == Handler.Resolve(stack[j], snippet(stack[j]));
    }
  }

  // ---------------------------------------------------------------------
  // Properties of the chain
  // ---------------------------------------------------------------------

  /** The chain is the walk along Unwrap: each element unwraps to the next,
      and the last one has no cause. */
  lemma {:induction false} ChainFollowsUnwrap(e: GoError)
    requires ChainOk(e)
    ensures var c := Chain(e);
      && (forall k :: 0 <= k < |c| - 1 ==> Cause(c[k]) == Some(c[k + 1]))
      && Cause(c[|c| - 1]) == None
      && (forall k :: 0 <= k < |c| ==> ChainOk(c[k]))
    decreases Rank(e)
  {
    match Cause(e)
    case None =>
    case Some(cause) =>
      CauseChainOk(e);
      ChainFollowsUnwrap(cause);
      var c := Chain(e);
      assert forall k :: 1 <= k < |c| ==> c[k] == Chain(cause)[k - 1];
  }

  /** The cause of a well-formed error is well formed and lower in rank. */
  lemma CauseChainOk(e: GoError)
    requires ChainOk(e) && Cause(e).Some?
    ensures ChainOk(Cause(e).value) && Rank(Cause(e).value) < Rank(e)
  {
  }

  /** `a` is a suffix of `b`. */
  predicate IsSuffix(a: string, b: string) {
    |a| <= |b| && b[|b| - |a|..] == a
  }

  /** The text of every error further down the chain ends the text of the
      error: Error() keeps each cause's text at its end. */
  lemma {:induction false} ChainTextSuffix(e: GoError)
    requires ChainOk(e)
    ensures var c := Chain(e);
      forall k :: 0 <= k < |c| ==> ChainOk(c[k]) && IsSuffix(ErrorText(c[k]), ErrorText(e))
    decreases Rank(e)
  {
    var c := Chain(e);
    ChainFollowsUnwrap(e);
    match Cause(e)
    case None =>
      assert IsSuffix(ErrorText(e), ErrorText(e));
    case Some(cause) =>
      ChainTextSuffix(cause);
      var t := ErrorText(e);
      var u := ErrorText(cause);
      CauseTextSuffix(e);
      forall k | 0 <= k < |c|
        ensures IsSuffix(ErrorText(c[k]), t)
      {
        if k == 0 {
          assert t[|t| - |t|..] == t;
        } else {
          assert c[k] == Chain(cause)[k - 1];
          SuffixTrans(ErrorText(c[k]), u, t);
        }
      }
  }

  /** The text of an error ends with the text of its cause. */
  lemma CauseTextSuffix(e: GoError)
    requires ChainOk(e) && Cause(e).Some?
    ensures ChainOk(Cause(e).value) && IsSuffix(ErrorText(Cause(e).value), ErrorText(e))
  {
    var u := ErrorText(Cause(e).value);
    match e
    case Wrap(prefix, inner) =>
      assert (prefix + u)[|prefix|..] == u;
    case X(x) =>
      assert (x.Message + " - " + u)[|x.Message + " - "|..] == u;
  }

  lemma SuffixTrans(a: string, b: string, c: string)
    requires IsSuffix(a, b) && IsSuffix(b, c)
    ensures IsSuffix(a, c)
  {
    assert c[|c| - |a|..] == c[|c| - |b|..][|b| - |a|..];
  }

  /** The messages of a chain made of XErr values only. */
  function Messages(c: seq<GoError>): (m: seq<string>)
    requires forall k :: 0 <= k < |c| ==> c[k].X?
    ensures |m| == |c| && forall k :: 0 <= k < |c| ==> m[k] == c[k].x.Message
  {
    if c == [] then [] else [c[0].x.Message] + Messages(c[1..])
  }

  /** The pieces joined with `sep` between neighbours. */
  function JoinWith(parts: seq<string>, sep: string): string
    requires |parts| >= 1
  {
    if |parts| == 1 then parts[0] else parts[0] + sep + JoinWith(parts[1..], sep)
  }

  /** For a chain of nested XErr values, ending in one without a cause,
      Error() is their messages joined with " - ", outermost first. */
  lemma {:induction false} NestedXErrText(e: GoError)
    requires ChainOk(e)
    requires forall k :: 0 <= k < |Chain(e)| ==> Chain(e)[k].X?
    ensures ErrorText(e) == JoinWith(Messages(Chain(e)), " - ")
    decreases Rank(e)
  {
    var c := Chain(e);
    match Cause(e)
    case None =>
    case Some(cause) =>
      CauseChainOk(e);
      assert c[1..] == Chain(cause);
      NestedXErrText(cause);
      assert Messages(c)[1..] == Messages(Chain(cause));
  }

  /** FirstXErr finds an XErr exactly when the chain holds one, and then it is
      the first XErr on the chain. */
  lemma {:induction false} FirstXErrOnChain(e: GoError)
    requires ChainOk(e)
    ensures FirstXErr(e).None? <==> forall k :: 0 <= k < |Chain(e)| ==> !Chain(e)[k].X?
    ensures FirstXErr(e).Some? ==>
      exists k :: 0 <= k < |Chain(e)| && Chain(e)[k] == X(FirstXErr(e).value) && forall j :: 0 <= j < k ==> !Chain(e)[j].X?
    decreases Rank(e)
  {
    match e
    case Plain(_) =>
      assert Chain(e) == [e];
    case X(x) =>
      assert Chain(e)[0].X?;
      assert !(forall k :: 0 <= k < |Chain(e)| ==> !Chain(e)[k].X?);
    case Wrap(_, inner) =>
      FirstXErrOnChain(inner);
      assert Chain(e) == [e] + Chain(inner);
      if FirstXErr(inner).Some? {
        var k :| 0 <= k < |Chain(inner)| && Chain(inner)[k] == X(FirstXErr(inner).value)
          && forall j :: 0 <= j < k ==> !Chain(inner)[j].X?;
        assert Chain(e)[k + 1] == Chain(inner)[k];
        forall j | 0 <= j < k + 1
          ensures !Chain(e)[j].X?
        {
          if j > 0 {
            assert Chain(e)[j] == Chain(inner)[j - 1];
          }
        }
        assert Chain(e)[k + 1].X?;
      } else {
        forall j | 0 <= j < |Chain(e)|
          ensures !Chain(e)[j].X?
        {
          if j > 0 {
            assert Chain(e)[j] == Chain(inner)[j - 1];
            assert !Chain(inner)[j - 1].X?;
          }
        }
      }
  }
}
