/** Flattening of thrown values into one message, and the two classifiers built on it. */
module Errors {
  import opened Text
  import Worker

  /** The values JavaScript code throws, as far as the classifiers look at them.
      `rendered` is what JSON.stringify or String makes of a value without text fields. */
  datatype Thrown =
    | Nullish(rendered: string)
    | Str(text: string)
    | Error(message: string, cause: Option<Thrown>, tags: Tags)
    | Object(shortMessage: Option<string>, details: Option<string>, plain: Option<string>, rendered: string, tags: Tags)
    | Primitive(rendered: string)

  datatype Tags = Tags(
    name: Option<string>, code: Option<string>, decodedName: Option<string>, innerSelector: Option<string>)

  const NO_TAGS := Tags(None, None, None, None)

  function TagsOf(e: Thrown): Tags {
    if e.Error? || e.Object? then e.tags else NO_TAGS
  }

  const SEPARATOR := " | "

  function Joined(parts: seq<string>): string {
    if parts == [] then "" else if |parts| == 1 then parts[0] else parts[0] + SEPARATOR + Joined(parts[1..])
  }

  function Present(s: Option<string>): seq<string> {
    if s.Some? then [s.value] else []
  }

  function ObjectParts(e: Thrown): seq<string>
    requires e.Object?
  {
    var parts := Present(e.shortMessage) + Present(e.details);
    if e.plain.Some? && e.plain.value !in parts then parts + [e.plain.value] else parts
  }

  function Flatten(e: Thrown): string {
    match e
    case Nullish(r) => r
    case Str(t) => t
    case Error(message, cause, _) =>
      if cause.None? || cause.value.Nullish? then message else message + SEPARATOR + Flatten(cause.value)
    case Object(_, _, _, rendered, _) =>
      if ObjectParts(e) != [] then Joined(ObjectParts(e)) else rendered
    case Primitive(r) => r
  }

  /** The texts a thrown value carries: the message of every link of its cause chain, and
      the text fields of a plain object at the end of it. */
  ghost predicate Carries(e: Thrown, text: string) {
    match e
    case Nullish(_) => false
    case Str(t) => text == t
    case Error(message, cause, _) => text == message || (cause.Some? && Carries(cause.value, text))
    case Object(s, d, p, _, _) => s == Some(text) || d == Some(text) || p == Some(text)
    case Primitive(_) => false
  }

  lemma {:induction false} JoinedIncludes(parts: seq<string>, i: nat)
    requires i < |parts|
    ensures Includes(Joined(parts), parts[i])
  {
    if |parts| == 1 {
      IncludesSelf(parts[0]);
    } else if i == 0 {
      IncludesSelf(parts[0]);
      IncludesInConcat("", parts[0], SEPARATOR + Joined(parts[1..]), parts[0]);
      assert "" + parts[0] + (SEPARATOR + Joined(parts[1..])) == Joined(parts);
    } else {
      JoinedIncludes(parts[1..], i - 1);
      IncludesInConcat(parts[0] + SEPARATOR, Joined(parts[1..]), "", parts[i]);
      assert parts[0] + SEPARATOR + Joined(parts[1..]) + "" == Joined(parts);
    }
  }

  lemma IncludesFront(a: string, b: string)
    ensures Includes(a + b, a)
  {
    assert At(a + b, a, 0);
  }

  lemma IncludesBack(a: string, b: string, text: string)
    requires Includes(b, text)
    ensures Includes(a + b, text)
  {
    IncludesInConcat(a, b, "", text);
    assert a + b + "" == a + b;
  }

  lemma ObjectTextIsAPart(e: Thrown, text: string)
    requires e.Object? && Carries(e, text)
    ensures text in ObjectParts(e)
  {
    var parts := ObjectParts(e);
    if e.shortMessage == Some(text) {
      assert parts[0] == text;
    } else if e.details == Some(text) {
      assert parts[|Present(e.shortMessage)|] == text;
    }
  }

  lemma ObjectKeepsText(e: Thrown, text: string)
    requires e.Object? && Carries(e, text)
    ensures Includes(Flatten(e), text)
  {
    ObjectTextIsAPart(e, text);
    var parts := ObjectParts(e);
    var i :| 0 <= i < |parts| && parts[i] == text;
    JoinedIncludes(parts, i);
  }

  lemma ErrorKeepsMessage(e: Thrown)
    requires e.Error?
    ensures Includes(Flatten(e), e.message)
  {
    if e.cause.None? || e.cause.value.Nullish? {
      IncludesSelf(e.message);
    } else {
      var rest := SEPARATOR + Flatten(e.cause.value);
      IncludesFront(e.message, rest);
      assert Flatten(e) == e.message + rest;
    }
  }

  lemma ErrorKeepsCause(e: Thrown, text: string)
    requires e.Error? && e.cause.Some? && !e.cause.value.Nullish? && Includes(Flatten(e.cause.value), text)
    ensures Includes(Flatten(e), text)
  {
    IncludesBack(e.message + SEPARATOR, Flatten(e.cause.value), text);
  }

  /** Text at any depth of a cause chain is a substring of the flattened message. */
  lemma {:induction false} FlattenKeepsText(e: Thrown, text: string)
    requires Carries(e, text)
    ensures Includes(Flatten(e), text)
  {
    match e
    case Str(_) => IncludesSelf(text);
    case Object(_, _, _, _, _) => ObjectKeepsText(e, text);
    case Error(message, cause, _) =>
      if text == message {
        ErrorKeepsMessage(e);
      } else {
        FlattenKeepsText(cause.value, text);
        ErrorKeepsCause(e, text);
      }
    case _ =>
  }

  // ---------------------------------------------------------------- markers

  predicate AnyIncluded(s: string, markers: seq<string>) {
    exists i :: 0 <= i < |markers| && Includes(s, markers[i])
  }

  const REJECTION_MARKERS := ["insufficient funds", "user rejected", "user denied", "rejected the request"]

  const SAFE_CODES := ["GS026", "GS013"]

  const STALE_NONCE_TOKEN := "possible stale Safe nonce or signature race"

  const UNDERPRICED_MARKERS := [
    "replacement transaction underpriced", "replacement fee too low", "transaction underpriced"]

  const FEE_AND_NONCE_MARKERS := [
    "fee cap less than block base fee", "max fee per gas less than block base fee",
    "nonce too low", "already known", "could not coalesce"]

  const TRANSPORT_MARKERS := [
    "econnreset", "etimedout", "socket hang up", "fetch failed", "network error", "connection refused",
    "connect timeout"]

  const PROPAGATION_MARKERS := [
    "all rpc providers in the fallback chain failed",
    "returned no data (\"0x\")", "cannot decode zero data", "the address is not a contract"]

  const SERVER_MARKERS := [
    "429", "rate limit", "too many requests", "-32603", "internal json-rpc error", "-32005",
    "request timed out", "timeout", "bad gateway", "service unavailable", "502", "503"]

  const FENCE_NAMES := ["SafeBroadcastFenceError", "SafePostBroadcastHookError"]

  const INNER_REVERT_NAME := "SafeInnerRevertError"

  const PERMANENT_INNER_ERRORS := [
    "JobAlreadyClaimed", "IneligibleToClaim", "NoClaimExists", "NotClaimOwner", "DeliveryAlreadyClaimed",
    "AlreadyClaimed", "RequestNotFound", "RouterZeroAddress", "RouterZeroValue", "RouterAlreadyInitialized",
    "RouterNotInitialized", "RouterOwnerOnly", "RouterTaskNotFound", "RouterTaskNotRefundable", "RouterRefundFailed",
    "RouterInvalidPaymentType", "RouterInvalidOperatorMech", "RouterInsufficientTaskBudget", "RouterRequestNotFound",
    "RouterAlreadyClaimed", "RouterWrongRequester", "RouterWrongDeliveryOperator", "RouterWrongRequestKind",
    "TCZeroAddress", "TCZeroValue", "TCAlreadyInitialized", "TCNotInitialized", "TCOwnerOnly", "TCRouterOnly",
    "TCTaskNotFound", "TCInvalidWindow", "TCInvalidPolicy", "TCTaskNotOpen", "TCClaimWindowClosed",
    "TCSubmissionDeadlinePassed", "TCEvaluationDeadlinePassed", "TCMaxClaimsReached", "TCOperatorClaimLimitReached",
    "TCPolicyHookRejected", "TCAttemptNotFound", "TCAttemptNotSubmitted", "TCAttemptNotClaimed",
    "TCAttemptNotRegistered", "TCAttemptAlreadyRegistered", "TCAttemptAlreadySubmitted", "TCAttemptAlreadyFinalized",
    "TCRequestAlreadyRegistered", "TCRequestNotFound", "TCNotAttemptOperator", "TCClaimNotExpired",
    "TCAttemptClaimExpired", "TCSolverSelfEvaluation", "TCEvaluatorClaimLimitReached", "TCMaxVerdictsReached",
    "TCVerdictNotFound", "TCVerdictAlreadyRegistered", "TCVerdictAlreadyDelivered", "TCVerdictNotRegistered",
    "TCNotVerdictEvaluator", "TCInvalidVerdictCode", "TCVerdictClaimExpired"]

  const READ_ERROR_CODES := ["SERVER_ERROR", "TIMEOUT", "NETWORK_ERROR"]

  predicate Tagged(tag: Option<string>, values: seq<string>) {
    tag.Some? && tag.value in values
  }

  /** What a Safe inner revert decides on its own, before any message is looked at. */
  datatype Verdict = Terminal | Retryable | Undecided

  function InnerVerdict(t: Tags): Verdict {
    if t.name != Some(INNER_REVERT_NAME) then Undecided
    else if Tagged(t.decodedName, PERMANENT_INNER_ERRORS) then Terminal
    else if t.decodedName == Some("RouterNotDelivered") then Retryable
    else if t.innerSelector.Some? then Terminal
    else Undecided
  }

  /** `isRecoverableTransactionError` */
  predicate IsRecoverable(e: Thrown) {
    var msg := Flatten(e);
    var lower := Lower(msg);
    var t := TagsOf(e);
    if Tagged(t.name, FENCE_NAMES) then false
    else if AnyIncluded(lower, REJECTION_MARKERS) then false
    else if InnerVerdict(t).Terminal? then false
    else if InnerVerdict(t).Retryable? then true
    else if AnyIncluded(msg, SAFE_CODES) then false
    else
      || Includes(msg, STALE_NONCE_TOKEN)
      || AnyIncluded(lower, UNDERPRICED_MARKERS)
      || AnyIncluded(lower, FEE_AND_NONCE_MARKERS)
      || AnyIncluded(lower, TRANSPORT_MARKERS)
      || AnyIncluded(lower, PROPAGATION_MARKERS)
      || AnyIncluded(lower, SERVER_MARKERS)
  }

  predicate IsNonceTooLow(e: Thrown) {
    Includes(Lower(Flatten(e)), "nonce too low")
  }

  /** The part of `isTransientEthReadError` that looks at the message. */
  predicate IsTransientMessage(e: Thrown) {
    var lower := Lower(Flatten(e));
    AnyIncluded(lower, SERVER_MARKERS) || AnyIncluded(lower, TRANSPORT_MARKERS)
  }

  predicate IsTransientRead(e: Thrown) {
    Tagged(TagsOf(e).code, READ_ERROR_CODES) || IsTransientMessage(e)
  }

  /** How the retry loop sees a thrown value. */
  function Classify(e: Thrown): Worker.Failure {
    Worker.Failure(IsRecoverable(e), IsNonceTooLow(e))
  }

  // ---------------------------------------------------------------- what the classifiers promise

  /** A rejection marker anywhere in a cause chain, in any letter case, is final. */
  lemma RejectionIsFinal(e: Thrown, text: string, i: nat)
    requires Carries(e, text) && i < |REJECTION_MARKERS| && Includes(Lower(text), REJECTION_MARKERS[i])
    ensures !IsRecoverable(e) && !Classify(e).recoverable
  {
    FlattenKeepsText(e, text);
    IncludesLower(Flatten(e), text);
    IncludesTransitive(Lower(Flatten(e)), Lower(text), REJECTION_MARKERS[i]);
    assert AnyIncluded(Lower(Flatten(e)), REJECTION_MARKERS);
  }

  lemma IncludesTransitive(a: string, b: string, c: string)
    requires Includes(a, b) && Includes(b, c)
    ensures Includes(a, c)
  {
    var i :| 0 <= i <= |a| && At(a, b, i);
    assert a == a[..i] + b + a[i + |b|..];
    IncludesInConcat(a[..i], b, a[i + |b|..], c);
  }

  /** "insufficient funds" at any depth is never retried. */
  lemma InsufficientFundsIsFinal(e: Thrown, text: string)
    requires Carries(e, text) && Includes(Lower(text), "insufficient funds")
    ensures !Classify(e).recoverable
  {
    assert REJECTION_MARKERS[0] == "insufficient funds";
    RejectionIsFinal(e, text, 0);
  }

  /** Markers that end retrying whatever else a message says. */
  predicate TerminallyMarked(e: Thrown) {
    AnyIncluded(Lower(Flatten(e)), REJECTION_MARKERS) || AnyIncluded(Flatten(e), SAFE_CODES)
  }

  predicate SafeNamed(e: Thrown) {
    Tagged(TagsOf(e).name, FENCE_NAMES) || TagsOf(e).name == Some(INNER_REVERT_NAME)
  }

  /** Every read error that is transient by its message is also a recoverable transaction
      error, exactly unless it carries a terminal marker, for errors without a Safe name. */
  lemma TransientReadsAreRecoverable(e: Thrown)
    requires IsTransientMessage(e) && !SafeNamed(e)
    ensures IsTransientRead(e) && (IsRecoverable(e) <==> !TerminallyMarked(e))
  {
    assert InnerVerdict(TagsOf(e)).Undecided?;
  }

  /** A read error that is transient only by its code need not be a recoverable one: a
      timeout without a message is read again, but its transaction is not sent again. */
  lemma CodeAloneIsNotRecoverable(code: string)
    requires code in READ_ERROR_CODES
    ensures var e := Error("", None, Tags(None, Some(code), None, None)); IsTransientRead(e) && !IsRecoverable(e)
  {
    assert Lower("") == "";
  }
}
