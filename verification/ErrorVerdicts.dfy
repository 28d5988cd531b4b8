/** The classifier of transaction errors against a table of texts and names: for each kind of
    error what it decides, both ways. */
module ErrorVerdicts {
  import opened Text
  import opened Errors
  import Worker

  /** Texts that ask for another attempt, in lower case. */
  const RETRY_TEXTS := [
    "replacement transaction underpriced", "replacement fee too low", "transaction underpriced",
    "fee cap less than block base fee", "max fee per gas less than block base fee",
    "nonce too low", "already known", "could not coalesce",
    "econnreset", "etimedout", "socket hang up", "fetch failed", "network error", "connection refused",
    "connect timeout",
    "all rpc providers in the fallback chain failed",
    "returned no data (\"0x\")", "cannot decode zero data", "the address is not a contract",
    "429", "rate limit", "too many requests", "-32603", "internal json-rpc error", "-32005",
    "request timed out", "timeout", "bad gateway", "service unavailable", "502", "503"]

  /** Texts that end retrying, in lower case. */
  const REJECTIONS := ["insufficient funds", "user rejected", "user denied", "rejected the request"]

  /** Safe error codes that end retrying, and the token that asks for another attempt after a
      stale nonce; in exactly this spelling. */
  const TERMINAL_CODES := ["GS026", "GS013"]

  const STALE_TOKEN := "possible stale Safe nonce or signature race"

  predicate Rejected(e: Thrown) {
    AnyIncluded(Lower(Flatten(e)), REJECTIONS)
  }

  predicate SafeCoded(e: Thrown) {
    AnyIncluded(Flatten(e), TERMINAL_CODES)
  }

  predicate AsksForRetry(e: Thrown) {
    Includes(Flatten(e), STALE_TOKEN) || AnyIncluded(Lower(Flatten(e)), RETRY_TEXTS)
  }

  predicate Named(e: Thrown, name: string) {
    TagsOf(e).name == Some(name)
  }

  predicate Fenced(e: Thrown) {
    Named(e, "SafeBroadcastFenceError") || Named(e, "SafePostBroadcastHookError")
  }

  predicate InnerRevert(e: Thrown) {
    Named(e, "SafeInnerRevertError")
  }

  // ---------------------------------------------------------------- the table and the classifier's lists

  lemma AnyOfConcat(s: string, a: seq<string>, b: seq<string>)
    ensures AnyIncluded(s, a + b) <==> AnyIncluded(s, a) || AnyIncluded(s, b)
  {
    var c := a + b;
    assert forall i :: 0 <= i < |a| ==> c[i] == a[i];
    assert forall i :: 0 <= i < |b| ==> c[|a| + i] == b[i];
  }

  lemma TableIsLists()
    ensures RETRY_TEXTS
            == UNDERPRICED_MARKERS + FEE_AND_NONCE_MARKERS + TRANSPORT_MARKERS + PROPAGATION_MARKERS + SERVER_MARKERS
    ensures REJECTIONS == REJECTION_MARKERS && TERMINAL_CODES == SAFE_CODES && STALE_TOKEN == STALE_NONCE_TOKEN
  {
  }

  predicate InSomeList(s: string) {
    || AnyIncluded(s, UNDERPRICED_MARKERS)
    || AnyIncluded(s, FEE_AND_NONCE_MARKERS)
    || AnyIncluded(s, TRANSPORT_MARKERS)
    || AnyIncluded(s, PROPAGATION_MARKERS)
    || AnyIncluded(s, SERVER_MARKERS)
  }

  lemma ConcatAny(s: string, a: seq<string>, b: seq<string>, c: seq<string>, d: seq<string>, f: seq<string>)
    ensures AnyIncluded(s, a + b + c + d + f)
            <==> AnyIncluded(s, a) || AnyIncluded(s, b) || AnyIncluded(s, c) || AnyIncluded(s, d) || AnyIncluded(s, f)
  {
    AnyOfConcat(s, a + b + c + d, f);
    AnyOfConcat(s, a + b + c, d);
    AnyOfConcat(s, a + b, c);
    AnyOfConcat(s, a, b);
  }

  lemma TableIsInSomeList(s: string)
    ensures AnyIncluded(s, RETRY_TEXTS) <==> InSomeList(s)
  {
    TableIsLists();
    ConcatAny(s, UNDERPRICED_MARKERS, FEE_AND_NONCE_MARKERS, TRANSPORT_MARKERS, PROPAGATION_MARKERS, SERVER_MARKERS);
  }

  // ---------------------------------------------------------------- every kind of error

  /** An error without a Safe name: recoverable exactly if it is not rejected, has no terminal
      code, and holds some text that asks for another attempt. */
  lemma UnnamedIff(e: Thrown)
    requires !Fenced(e) && !InnerRevert(e)
    ensures IsRecoverable(e) <==> !Rejected(e) && !SafeCoded(e) && AsksForRetry(e)
  {
    TableIsLists();
    TableIsInSomeList(Lower(Flatten(e)));
  }

  /** A fence error is final, whatever it says. */
  lemma FencedIsFinal(e: Thrown)
    requires Fenced(e)
    ensures !IsRecoverable(e)
  {
  }

  /** Decoded reasons of an inner revert that no later attempt can clear. */
  const FINAL_REASONS := [
    "JobAlreadyClaimed", "IneligibleToClaim", "NoClaimExists", "NotClaimOwner", "DeliveryAlreadyClaimed",
    "AlreadyClaimed", "RequestNotFound", "RouterZeroAddress", "RouterZeroValue", "RouterAlreadyInitialized",
    "RouterNotInitialized", "RouterOwnerOnly", "RouterTaskNotFound", "RouterTaskNotRefundable", "RouterRefundFailed",
    "RouterInvalidPaymentType", "RouterInvalidOperatorMech", "RouterInsufficientTaskBudget", "RouterRequestNotFound",
    "RouterAlreadyClaimed", "RouterWrongRequester", "RouterWrongDeliveryOperator", "RouterWrongRequestKind",
    "TCZeroAddress", "TCZeroValue", "TCAlreadyInitialized", "TCNotInitialized", "TCOwnerOnly", "TCRouterOnly",
    "TCTaskNotFound", "TCInvalidWindow", "TCInvalidPolicy", "TCTaskNotOpen", "TCClaimWindowClosed",
    "TCSubmissionDeadlinePassed", "TCEvaluationDeadlinePassed", "TCMaxClaimsReached", "TCOperatorClaimLimitReached",
    "TCPolicyHookRejected", "TCAttemptNotFound", "TCAttemptNotSubmitted", "TCAttemptNotClaimed",
    "TCAttemptNotRegistered", "TCAttemptAlreadyRegistered", "TCAttemptAlreadySubmitted", "TCAttemptAlreadyFinalized",
    "TCRequestAlreadyRegistered", "TCRequestNotFound", "TCNotAttemptOperator", "TCClaimNotExpired",
    "TCAttemptClaimExpired", "TCSolverSelfEvaluation", "TCEvaluatorClaimLimitReached", "TCMaxVerdictsReached",
    "TCVerdictNotFound", "TCVerdictAlreadyRegistered", "TCVerdictAlreadyDelivered", "TCVerdictNotRegistered",
    "TCNotVerdictEvaluator", "TCInvalidVerdictCode", "TCVerdictClaimExpired"]

  lemma ReasonsAreListed()
    ensures FINAL_REASONS == PERMANENT_INNER_ERRORS
  {
  }

  predicate Decoded(e: Thrown, reasons: seq<string>) {
    TagsOf(e).decodedName.Some? && TagsOf(e).decodedName.value in reasons
  }

  /** An inner revert: final if rejected or decoded as a final reason; otherwise recoverable if
      the reason is RouterNotDelivered; otherwise final if it has an undecoded selector; and
      otherwise decided by its texts like any other error. */
  lemma InnerRevertIff(e: Thrown)
    requires InnerRevert(e)
    ensures IsRecoverable(e) <==>
              && !Rejected(e)
              && !Decoded(e, FINAL_REASONS)
              && (|| Decoded(e, ["RouterNotDelivered"])
                  || (TagsOf(e).innerSelector.None? && !SafeCoded(e) && AsksForRetry(e)))
  {
    TableIsLists();
    ReasonsAreListed();
    TableIsInSomeList(Lower(Flatten(e)));
  }

  /** Texts of read errors that are worth another read, in lower case. */
  const TRANSIENT_TEXTS := [
    "429", "rate limit", "too many requests", "-32603", "internal json-rpc error", "-32005",
    "request timed out", "timeout", "bad gateway", "service unavailable", "502", "503",
    "econnreset", "etimedout", "socket hang up", "fetch failed", "network error", "connection refused",
    "connect timeout"]

  /** A read error is transient exactly by one of three codes or by one of these texts. */
  lemma TransientIff(e: Thrown)
    ensures IsTransientRead(e) <==>
              || TagsOf(e).code == Some("SERVER_ERROR") || TagsOf(e).code == Some("TIMEOUT")
              || TagsOf(e).code == Some("NETWORK_ERROR")
              || AnyIncluded(Lower(Flatten(e)), TRANSIENT_TEXTS)
  {
    assert TRANSIENT_TEXTS == SERVER_MARKERS + TRANSPORT_MARKERS;
    AnyOfConcat(Lower(Flatten(e)), SERVER_MARKERS, TRANSPORT_MARKERS);
  }

  // ---------------------------------------------------------------- from texts at any depth

  lemma TextReachesMessage(e: Thrown, text: string, marker: string)
    requires Carries(e, text) && Includes(Lower(text), marker)
    ensures Includes(Lower(Flatten(e)), marker)
  {
    FlattenKeepsText(e, text);
    IncludesLower(Flatten(e), text);
    IncludesTransitive(Lower(Flatten(e)), Lower(text), marker);
  }

  /** A text of the table at any depth of a cause chain, in any letter case, gets another
      attempt, if nothing rejects it and the error has no Safe name. */
  lemma RetryTextIsRetried(e: Thrown, text: string, marker: string)
    requires Carries(e, text) && marker in RETRY_TEXTS && Includes(Lower(text), marker)
    requires !Fenced(e) && !InnerRevert(e) && !Rejected(e) && !SafeCoded(e)
    ensures Classify(e).recoverable
  {
    TextReachesMessage(e, text, marker);
    UnnamedIff(e);
  }

  /** The stale-nonce token at any depth, in its own spelling. */
  lemma StaleTokenIsRetried(e: Thrown, text: string)
    requires Carries(e, text) && Includes(text, STALE_TOKEN)
    requires !Fenced(e) && !InnerRevert(e) && !Rejected(e) && !SafeCoded(e)
    ensures Classify(e).recoverable
  {
    FlattenKeepsText(e, text);
    IncludesTransitive(Flatten(e), text, STALE_TOKEN);
    UnnamedIff(e);
  }

  /** "nonce too low" at any depth, in any letter case, is retried with a fresh nonce. */
  lemma NonceTooLowIsRetried(e: Thrown, text: string)
    requires Carries(e, text) && Includes(Lower(text), "nonce too low")
    requires !Fenced(e) && !InnerRevert(e) && !Rejected(e) && !SafeCoded(e)
    ensures Classify(e) == Worker.Failure(true, true)
  {
    assert RETRY_TEXTS[5] == "nonce too low";
    RetryTextIsRetried(e, text, "nonce too low");
    TextReachesMessage(e, text, "nonce too low");
  }

  /** A rejection at any depth, in any letter case, is final, whatever the error's name. */
  lemma RejectionTextIsFinal(e: Thrown, text: string, marker: string)
    requires Carries(e, text) && marker in REJECTIONS && Includes(Lower(text), marker)
    ensures !Classify(e).recoverable
  {
    TextReachesMessage(e, text, marker);
    TableIsLists();
    var i :| 0 <= i < |REJECTIONS| && REJECTIONS[i] == marker;
    RejectionIsFinal(e, text, i);
  }

  // ---------------------------------------------------------------- the flattened message

  /** The texts of a thrown value, outermost first. */
  function Texts(e: Thrown): seq<string> {
    match e
    case Nullish(rendered) => [rendered]
    case Str(text) => [text]
    case Primitive(rendered) => [rendered]
    case Error(message, cause, _) =>
      [message] + if cause.None? || cause.value.Nullish? then [] else Texts(cause.value)
    case Object(short, details, plain, rendered, _) =>
      var fields := Present(short) + Present(details);
      var texts := if plain.Some? && plain.value !in fields then fields + [plain.value] else fields;
      if texts == [] then [rendered] else texts
  }

  lemma JoinedCons(first: string, rest: seq<string>)
    requires rest != []
    ensures Joined([first] + rest) == first + " | " + Joined(rest)
  {
    assert ([first] + rest)[1..] == rest;
  }

  /** The flattened message is exactly its texts, joined by bars. */
  lemma {:induction false} FlattenIsJoined(e: Thrown)
    ensures Texts(e) != [] && Flatten(e) == Joined(Texts(e))
  {
    if e.Error? && e.cause.Some? && !e.cause.value.Nullish? {
      FlattenIsJoined(e.cause.value);
      JoinedCons(e.message, Texts(e.cause.value));
    }
  }
}
