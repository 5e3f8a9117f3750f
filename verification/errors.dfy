/**
 * The error algebra of the service: the application error type of pkg/errors
 * (a kind, a message and an optional cause) next to the two other kinds of Go
 * error values the core produces, the plain sentinels of the domain package
 * and `fmt.Errorf` texts. A Go `error` that may be nil is an `Option<Error>`.
 */
module Errors {
  import opened Wrappers

  /** The kinds an application error carries (ErrorType). */
  datatype ErrorType = Validation | NotFound | Conflict | Internal | External

  /** The four plain sentinels of the domain package, created by `errors.New`. */
  datatype Sentinel = InvalidUserName | InvalidUserEmail | UserNotFound | UserAlreadyExists

  datatype Error =
    | Plain(sentinel: Sentinel)
    | Formatted(text: string)
    | App(kind: ErrorType, message: string, code: string, cause: Option<Error>)

  function SentinelText(s: Sentinel): string
  {
    match s
    case InvalidUserName => "invalid user name"
    case InvalidUserEmail => "invalid user email"
    case UserNotFound => "user not found"
    case UserAlreadyExists => "user already exists"
  }

  /** The `Error()` text of an error value: an application error renders its
      message, followed by ": " and the rendering of its cause when it has one. */
  function Text(e: Error): string
  {
    match e
    case Plain(s) => SentinelText(s)
    case Formatted(t) => t
    case App(_, m, _, c) =>
      match c
      case None => m
      case Some(inner) => m + ": " + Text(inner)
  }

  /** The error followed by its causes, outermost first. */
  function Chain(e: Error): (c: seq<Error>)
    ensures |c| >= 1 && c[0] == e
    ensures forall i :: 0 <= i < |c| - 1 ==> c[i].App? && c[i].cause == Some(c[i + 1])
    ensures !c[|c| - 1].App? || c[|c| - 1].cause.None?
  {
    match e
    case App(_, _, _, Some(inner)) => [e] + Chain(inner)
    case _ => [e]
  }

  /** What one link of a cause chain contributes to the rendered text. */
  function Label(e: Error): string
  {
    if e.App? then e.message else Text(e)
  }

  function Labels(c: seq<Error>): (l: seq<string>)
    ensures |l| == |c|
  {
    seq(|c|, i requires 0 <= i < |c| => Label(c[i]))
  }

  /** The parts joined with ": " between consecutive ones. */
  function JoinColon(parts: seq<string>): string
    requires |parts| >= 1
  {
    if |parts| == 1 then parts[0] else parts[0] + ": " + JoinColon(parts[1..])
  }

  /** The rendered text of an error is the labels of its cause chain joined by ": ". */
  lemma {:induction false} TextJoinsChain(e: Error)
    ensures Text(e) == JoinColon(Labels(Chain(e)))
  {
    match e
    case App(k, m, code, Some(inner)) =>
      TextJoinsChain(inner);
      var rest := Chain(inner);
      assert Chain(e) == [e] + rest;
      assert Labels([e] + rest) == [m] + Labels(rest);
      assert ([m] + Labels(rest))[1..] == Labels(rest);
    case _ =>
      assert Labels(Chain(e)) == [Label(e)];
  }

  /** The `Unwrap` method of an application error: one step down the cause chain. */
  function Unwrap(e: Error): (r: Option<Error>)
    requires e.App?
    ensures r.None? <==> |Chain(e)| == 1
    ensures r.Some? ==> Chain(e) == [e] + Chain(r.value)
  {
    e.cause
  }

  /** New and the NewXError constructors: an application error with no cause and no code. */
  function New(kind: ErrorType, message: string): (e: Error)
    ensures IsType(Some(e), kind)
    ensures Text(e) == message
    ensures Chain(e) == [e]
    ensures e.code == ""
  {
    App(kind, message, "", None)
  }

  function NewValidationError(message: string): Error { New(Validation, message) }
  function NewNotFoundError(message: string): Error { New(NotFound, message) }
  function NewConflictError(message: string): Error { New(Conflict, message) }
  function NewInternalError(message: string): Error { New(Internal, message) }

  /** The kind an error ends up with once it is wrapped: its own kind for an
      application error, Internal for every other error value. */
  function WrappedKind(e: Error): ErrorType
  {
    if e.App? then e.kind else Internal
  }

  /** Wrap for a non-nil error: a new application error whose cause is `e`. */
  function WrapError(e: Error, message: string): (w: Error)
    ensures w.App? && w.code == ""
    ensures Unwrap(w) == Some(e)
    ensures Chain(w) == [w] + Chain(e)
    ensures Text(w) == message + ": " + Text(e)
    ensures forall t :: IsType(Some(w), t) <==> t == WrappedKind(e)
    ensures WrappedKind(w) == WrappedKind(e)
  {
    if e.App? then App(e.kind, message, "", Some(e))
    else App(Internal, message, "", Some(e))
  }

  /** Wrap: nil stays nil; anything else gains a context message. */
  function Wrap(err: Option<Error>, message: string): (r: Option<Error>)
    ensures r.None? <==> err.None?
    ensures err.Some? ==> r == Some(WrapError(err.value, message))
  {
    match err
    case None => None
    case Some(e) => Some(WrapError(e, message))
  }

  /** IsType: true only for a non-nil application error whose own kind is `t`. */
  function IsType(err: Option<Error>, t: ErrorType): bool
  {
    err.Some? && err.value.App? && err.value.kind == t
  }

  function IsValidationError(err: Option<Error>): bool { IsType(err, Validation) }
  function IsNotFoundError(err: Option<Error>): bool { IsType(err, NotFound) }
  function IsConflictError(err: Option<Error>): bool { IsType(err, Conflict) }
  function IsInternalError(err: Option<Error>): bool { IsType(err, Internal) }

  /** IsType looks at the outermost error only: the cause never matters, and
      nil and the non-application errors have no kind at all. */
  lemma IsTypeOutermostOnly(e: Error, c: Option<Error>, t: ErrorType)
    requires e.App?
    ensures IsType(Some(e.(cause := c)), t) == IsType(Some(e), t)
    ensures !IsType(None, t)
    ensures forall x: Error :: !x.App? ==> !IsType(Some(x), t)
  {
  }

  /** Wrapping with each message in turn, the first message innermost. */
  function WrapAll(e: Error, messages: seq<string>): Error
  {
    if |messages| == 0 then e
    else WrapError(WrapAll(e, messages[..|messages| - 1]), messages[|messages| - 1])
  }

  /** However often an error is wrapped, its kind is the one the first wrap
      gave it, and every wrap adds exactly one link to the cause chain. */
  lemma {:induction false} WrapAllKeepsKind(e: Error, messages: seq<string>)
    ensures WrappedKind(WrapAll(e, messages)) == WrappedKind(e)
    ensures |Chain(WrapAll(e, messages))| == |Chain(e)| + |messages|
    ensures |messages| > 0 ==> IsType(Some(WrapAll(e, messages)), WrappedKind(e))
  {
    if |messages| > 0 {
      WrapAllKeepsKind(e, messages[..|messages| - 1]);
    }
  }
}
