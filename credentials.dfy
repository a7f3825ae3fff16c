/** Credential checking (`AWSCredentialUtility.validateCredentials`) and the
    three errors it reports (`AWSCredentialError`). The SDK calls are inputs:
    whether building the static resolver threw, and how the client
    configuration plus `listBuckets` call ended. */
module Credentials {
  import opened Strings

  datatype CredentialError = InvalidCredentials | NetworkError | Unknown

  /** An error thrown inside the `do` block: an AWS service error with an
      optional message, or any other error. */
  datatype ThrownError = ServiceError(message: Option<string>) | OtherError(description: string)

  datatype ValidationResult =
    | Returned(value: bool)              // the function returned normally
    | Threw(error: CredentialError)      // one of the three classified errors
    | Propagated(cause: ThrownError)     // thrown before the `do` block, unclassified

  /** `errorDescription` of each case. */
  function ErrorDescription(e: CredentialError): string {
    match e
    case InvalidCredentials => "憑證無效：請檢查您的 Access Key 和 Secret Key 是否正確"
    case NetworkError => "網絡錯誤：請檢查您的網絡連接"
    case Unknown => "未知錯誤：請稍後重試"
  }

  /** The three descriptions are pairwise different, so the message tells
      the user which case occurred. */
  lemma ErrorDescriptionInjective(a: CredentialError, b: CredentialError)
    ensures ErrorDescription(a) == ErrorDescription(b) <==> a == b
  {
  }

  predicate NamesBadKey(m: string) {
    Contains(m, "InvalidAccessKeyId") || Contains(m, "SignatureDoesNotMatch")
  }

  predicate NamesNetwork(m: string) {
    Contains(m, "Network") || Contains(m, "connect")
  }

  /** The two `catch` clauses of `validateCredentials`. */
  function Classify(e: ThrownError): CredentialError {
    match e
    case ServiceError(Some(m)) =>
      if NamesBadKey(m) then InvalidCredentials
      else if NamesNetwork(m) then NetworkError
      else Unknown
    case ServiceError(None) => Unknown
    case OtherError(_) => Unknown
  }

  /** `validateCredentials`: `resolverError` is what building the static
      resolver threw (outside `do`), `callError` what the configuration or
      `listBuckets` threw inside it (None: the call succeeded). */
  function ValidateCredentials(resolverError: Option<ThrownError>, callError: Option<ThrownError>): (r: ValidationResult)
    ensures r.Returned? <==> resolverError.None? && callError.None?
    ensures r.Returned? ==> r.value
    ensures r.Propagated? <==> resolverError.Some?
    ensures r.Threw? ==> callError.Some? && r.error == Classify(callError.value)
  {
    if resolverError.Some? then Propagated(resolverError.value)
    else if callError.None? then Returned(true)
    else Threw(Classify(callError.value))
  }

  /** A call that reached the SDK never makes the function return `false`:
      it returns `true` or throws. */
  lemma NeverReturnsFalse(resolverError: Option<ThrownError>, callError: Option<ThrownError>)
    ensures ValidateCredentials(resolverError, callError) != Returned(false)
  {
  }

  /** A failed call is reported as invalid credentials exactly when it is a
      service error whose message names a bad key or a bad signature. */
  lemma InvalidCredentialsIff(e: ThrownError)
    ensures Classify(e) == InvalidCredentials <==>
      e.ServiceError? && e.message.Some? && NamesBadKey(e.message.value)
  {
  }

  /** It is a network error exactly when the message names no bad key but
      mentions the network or a connection. */
  lemma NetworkErrorIff(e: ThrownError)
    ensures Classify(e) == NetworkError <==>
      e.ServiceError? && e.message.Some? && !NamesBadKey(e.message.value) && NamesNetwork(e.message.value)
  {
  }

  /** Everything else is unknown: no message, no keyword, or not a service
      error. */
  lemma UnknownIff(e: ThrownError)
    ensures Classify(e) == Unknown <==>
      !e.ServiceError? || e.message.None? ||
      (!NamesBadKey(e.message.value) && !NamesNetwork(e.message.value))
  {
  }

  /** The credential test wins over the network test: a message that names
      both a signature mismatch and a connection problem is reported as bad
      credentials. */
  lemma {:induction false} BadKeyTakesPrecedence(pre: string, post: string)
    ensures var m := pre + "SignatureDoesNotMatch" + post;
      NamesNetwork(m + "connect") && Classify(ServiceError(Some(m + "connect"))) == InvalidCredentials
  {
    var w := "SignatureDoesNotMatch";
    var m := pre + w + post;
    var full := m + "connect";
    assert full[|pre|..|pre| + |w|] == w;
    ContainsAt(full, w, |pre|);
    assert full[|m|..|m| + 7] == "connect";
    ContainsAt(full, "connect", |m|);
  }
}
