/**
 * One inbound signed request: parsing the credential scope out of the
 * Authorization header, resolving the key, checking the signature against a
 * signer, checking the action against the collected policies, and reporting
 * each failure in the vocabulary of the request's flavour (generic services
 * or S3).
 */
module IamRequests {
  import opened Wrappers
  import opened Strings
  import opened Policy
  import opened Authorization
  import opened Principal

  const AuthorizationHeader := "Authorization"
  const DateHeader := "X-Amz-Date"

  /** `IAMRequest` (generic services) or `S3IAMRequest` (S3), with their own errors and signer. */
  datatype Flavour = GenericFlavour | S3Flavour

  /** The request's parameters, each a list of values as the query-string parser yields them. */
  type RequestData = map<string, seq<string>>

  /** Every way a request can fail, in the vocabulary of both flavours. */
  datatype AuthError =
    | MalformedRequest                      // a key or index error while reading the request
    | AuthFailure                           // generic flavour, service "ec2"
    | InvalidClientTokenId                  // generic flavour, other services
    | S3InvalidToken
    | BucketInvalidToken(bucket: seq<string>)
    | S3InvalidAccessKeyId
    | BucketInvalidAccessKeyId(bucket: seq<string>)
    | SignatureDoesNotMatch
    | AccessDenied(userArn: string, action: string)
    | S3AccessDenied
    | BucketAccessDenied(bucket: seq<string>)
    | NoSuchEntity(name: string)            // the directory has no user or role by that name
    | NoDefaultPolicyVersion                // a managed policy has no default version

  datatype Outcome = Pass | Fail(error: AuthError)

  /** The state an `IAMRequestBase` holds once constructed. */
  datatype IamRequest = IamRequest(
    flavour: Flavour,
    verb: string,
    path: string,
    data: RequestData,
    headers: Headers,
    region: string,
    service: string,
    action: string,
    accessKey: AccessKeyRef)

  // ------------------------------------------------------------ error flavours

  /** `_raise_invalid_access_key` of each flavour. */
  function InvalidAccessKeyError(flavour: Flavour, service: string, data: RequestData, reason: FailureReason)
    : (e: AuthError)
    ensures e != MalformedRequest && e != SignatureDoesNotMatch
    ensures flavour == GenericFlavour ==>
      (e == AuthFailure <==> service == "ec2") && (e == InvalidClientTokenId <==> service != "ec2")
    ensures flavour == S3Flavour ==>
      ((e.S3InvalidToken? || e.BucketInvalidToken?) <==> reason.InvalidToken?) &&
      ((e.S3InvalidAccessKeyId? || e.BucketInvalidAccessKeyId?) <==> reason.InvalidId?) &&
      ((e.BucketInvalidToken? || e.BucketInvalidAccessKeyId?) <==> "BucketName" in data)
    ensures e.BucketInvalidToken? || e.BucketInvalidAccessKeyId? ==>
      "BucketName" in data && e.bucket == data["BucketName"]
  {
    match flavour
    case GenericFlavour =>
      if service == "ec2" then AuthFailure else InvalidClientTokenId
    case S3Flavour =>
      if reason == InvalidToken then
        if "BucketName" in data then BucketInvalidToken(data["BucketName"]) else S3InvalidToken
      else
        if "BucketName" in data then BucketInvalidAccessKeyId(data["BucketName"]) else S3InvalidAccessKeyId
  }

  /** `_raise_access_denied` of each flavour. */
  function AccessDeniedError(flavour: Flavour, arn: string, action: string, data: RequestData): (e: AuthError)
    ensures flavour == GenericFlavour ==> e == AccessDenied(arn, action)
    ensures flavour == S3Flavour ==>
      (e.BucketAccessDenied? <==> "BucketName" in data) && (e == S3AccessDenied <==> "BucketName" !in data)
    ensures e.BucketAccessDenied? ==> "BucketName" in data && e.bucket == data["BucketName"]
  {
    match flavour
    case GenericFlavour => AccessDenied(arn, action)
    case S3Flavour =>
      if "BucketName" in data then BucketAccessDenied(data["BucketName"]) else S3AccessDenied
  }

  // ------------------------------------------------------------------- parsing

  /**
   * `_get_string_between`: the text after the first `first`, up to the next
   * `second` or the end; empty when `first` does not occur.
   */
  function GetStringBetween(first: string, second: string, s: string): (r: string)
    requires first != [] && second != []
    ensures !Contains(s, first) ==> r == []
    ensures !Contains(r, second)
    ensures StartsWith(PartitionAt(s, first).tail, r)
    ensures |r| == |PartitionAt(s, first).tail| || OccursAt(PartitionAt(s, first).tail, second, |r|)
    ensures forall j: nat :: j < |r| ==> !OccursAt(PartitionAt(s, first).tail, second, j)
  {
    var tail := PartitionAt(s, first).tail;
    var p := PartitionAt(tail, second);
    assert tail[..|p.head|] == p.head;
    assert |p.head| < |tail| ==> tail[|p.head|..|p.head| + |second|] == second;
    p.head
  }

  /** `_get_string_between` gives back exactly the text placed between the two separators. */
  lemma BetweenRoundTrip(first: string, second: string, pre: string, v: string, rest: string)
    requires first != [] && second != []
    requires !Contains(pre + first[..|first| - 1], first)
    requires !Contains(v + second[..|second| - 1], second)
    ensures GetStringBetween(first, second, pre + first + v + second + rest) == v
  {
    assert pre + first + v + second + rest == pre + first + (v + second + rest);
    PartitionAtFirst(pre, first, v + second + rest);
    assert v + second + rest == v + second + rest;
    PartitionAtFirst(v, second, rest);
  }

  datatype CredentialScope = CredentialScope(accessKeyId: string, region: string, service: string)

  /**
   * The access key id, region and service of the `Credential=` scope; None
   * when the scope has fewer than four `/`-separated fields (an index error in
   * the source).
   */
  function ParseCredentialScope(authorization: string): (r: Option<CredentialScope>)
    ensures r.Some? ==> '/' !in r.value.accessKeyId && '/' !in r.value.region && '/' !in r.value.service
    ensures r.None? <==> |Split(GetStringBetween("Credential=", ",", authorization), '/')| < 4
  {
    var parts := Split(GetStringBetween("Credential=", ",", authorization), '/');
    if |parts| < 4 then None else Some(CredentialScope(parts[0], parts[2], parts[3]))
  }

  /** Two `/`-free fields joined by `/` split back into those two fields. */
  lemma SplitPair(x: string, t: string, rest: seq<string>)
    requires '/' !in x && Split(t, '/') == rest
    ensures Split(x + ['/'] + t, '/') == [x] + rest
  {
    SplitAppend(x, '/', t);
    SplitWithoutSeparator(x, '/');
  }

  /** The five fields of a credential scope split back apart at `/`. */
  lemma ScopeFields(keyId: string, date: string, region: string, service: string, terminal: string)
    requires '/' !in keyId && '/' !in date && '/' !in region && '/' !in service && '/' !in terminal
    ensures Split(keyId + ['/'] + (date + ['/'] + (region + ['/'] + (service + ['/'] + terminal))), '/')
      == [keyId, date, region, service, terminal]
  {
    var t3 := service + ['/'] + terminal;
    var t2 := region + ['/'] + t3;
    var t1 := date + ['/'] + t2;
    SplitWithoutSeparator(terminal, '/');
    SplitPair(service, terminal, [terminal]);
    SplitPair(region, t3, [service, terminal]);
    SplitPair(date, t2, [region, service, terminal]);
    SplitPair(keyId, t1, [date, region, service, terminal]);
  }

  /** The scope a SigV4 client writes after `Credential=`. */
  function CredentialScopeText(keyId: string, date: string, region: string, service: string): string {
    keyId + ['/'] + (date + ['/'] + (region + ['/'] + (service + ['/'] + "aws4_request")))
  }

  /** The Authorization header a SigV4 client sends. */
  function SigV4Authorization(
    keyId: string, date: string, region: string, service: string, signedHeaders: string, signature: string): string
  {
    "AWS4-HMAC-SHA256 " + "Credential=" + CredentialScopeText(keyId, date, region, service) + ","
      + (" SignedHeaders=" + signedHeaders + ", Signature=" + signature)
  }

  /** `Credential=` does not occur early in the header's fixed opening. */
  lemma AlgorithmPrefixClean()
    ensures !Contains("AWS4-HMAC-SHA256 " + "Credential=" [..|"Credential="| - 1], "Credential=")
  {
    assert "AWS4-HMAC-SHA256 " + "Credential=" [..|"Credential="| - 1] == "AWS4-HMAC-SHA256 Credential";
    AbsentLastChar("AWS4-HMAC-SHA256 Credential", "Credential=");
  }

  /** A scope written from comma-free fields holds no comma. */
  lemma ScopeWithoutComma(keyId: string, date: string, region: string, service: string)
    requires ',' !in keyId && ',' !in date && ',' !in region && ',' !in service
    ensures !Contains(CredentialScopeText(keyId, date, region, service) + ","[..0], ",")
  {
    var scope := CredentialScopeText(keyId, date, region, service);
    assert ',' !in scope;
    assert scope + ","[..0] == scope;
    AbsentLastChar(scope, ",");
  }

  /** The scope's closing field `aws4_request` is a single field. */
  lemma TerminatorWithoutSlash()
    ensures '/' !in "aws4_request"
  {
    assert "aws4_request"[0] != '/' && "aws4_request"[1..] == "ws4_request";
  }

  /** A SigV4 Authorization header parses back to the key id, region and service it was written with. */
  lemma CredentialScopeRoundTrip(
    keyId: string, date: string, region: string, service: string, signedHeaders: string, signature: string)
    requires '/' !in keyId && '/' !in date && '/' !in region && '/' !in service
    requires ',' !in keyId && ',' !in date && ',' !in region && ',' !in service
    ensures ParseCredentialScope(SigV4Authorization(keyId, date, region, service, signedHeaders, signature))
      == Some(CredentialScope(keyId, region, service))
  {
    var scope := CredentialScopeText(keyId, date, region, service);
    AlgorithmPrefixClean();
    ScopeWithoutComma(keyId, date, region, service);
    BetweenRoundTrip("Credential=", ",", "AWS4-HMAC-SHA256 ", scope,
      " SignedHeaders=" + signedHeaders + ", Signature=" + signature);
    TerminatorWithoutSlash();
    ScopeFields(keyId, date, region, service, "aws4_request");
  }

  /**
   * The request cannot be read: no Authorization header, a credential scope
   * with fewer than four fields, or no `Action` parameter.
   */
  predicate Malformed(data: RequestData, headers: Headers) {
    || AuthorizationHeader !in headers
    || ParseCredentialScope(headers[AuthorizationHeader]).None?
    || "Action" !in data || data["Action"] == []
  }

  /**
   * The state `IAMRequestBase.__init__` computes: the credential scope, the
   * action `<service>:<Action>`, and the resolved key. A missing header, a
   * short scope or a missing action is a malformed request; a key that does
   * not resolve is reported in the flavour's vocabulary.
   */
  function RequestFor(flavour: Flavour, verb: string, path: string, data: RequestData, headers: Headers, dir: Directory)
    : (r: Result<IamRequest, AuthError>)
    ensures r == Failure(MalformedRequest) <==> Malformed(data, headers)
    ensures r.Failure? ==> r.error != SignatureDoesNotMatch
    ensures !Malformed(data, headers) ==>
      var scope := ParseCredentialScope(headers[AuthorizationHeader]).value;
      var key := AccessKeyFor(dir, scope.accessKeyId, headers);
      && (r.Success? <==> key.Success?)
      && (r.Failure? ==> r.error == InvalidAccessKeyError(flavour, scope.service, data, key.error))
      && (r.Success? ==>
            && r.value.accessKey == key.value
            && r.value.region == scope.region && r.value.service == scope.service
            && r.value.action == scope.service + ":" + data["Action"][0])
    ensures r.Success? ==>
      r.value.flavour == flavour && r.value.verb == verb && r.value.path == path &&
      r.value.data == data && r.value.headers == headers
  {
    if AuthorizationHeader !in headers then Failure(MalformedRequest)
    else match ParseCredentialScope(headers[AuthorizationHeader])
      case None => Failure(MalformedRequest)
      case Some(scope) =>
        if "Action" !in data || data["Action"] == [] then Failure(MalformedRequest)
        else
          var action := scope.service + ":" + data["Action"][0];
          match AccessKeyFor(dir, scope.accessKeyId, headers)
          case Failure(reason) => Failure(InvalidAccessKeyError(flavour, scope.service, data, reason))
          case Success(key) => Success(IamRequest(flavour, verb, path, data, headers, scope.region, scope.service, action, key))
  }

  /** `IAMRequestBase.__init__`, running the key scans. */
  method NewIamRequest(flavour: Flavour, verb: string, path: string, data: RequestData, headers: Headers, dir: Directory)
    returns (r: Result<IamRequest, AuthError>)
    ensures r == RequestFor(flavour, verb, path, data, headers, dir)
  {
    if AuthorizationHeader !in headers {
      return Failure(MalformedRequest);
    }
    var scope := ParseCredentialScope(headers[AuthorizationHeader]);
    if scope.None? || "Action" !in data || data["Action"] == [] {
      return Failure(MalformedRequest);
    }
    var service := scope.value.service;
    var action := service + ":" + data["Action"][0];
    var key := CreateAccessKey(dir, scope.value.accessKeyId, headers);
    if key.Failure? {
      return Failure(InvalidAccessKeyError(flavour, service, data, key.error));
    }
    r := Success(IamRequest(flavour, verb, path, data, headers, scope.value.region, service, action, key.value));
  }

  // ----------------------------------------------------------------- signature

  datatype Credentials = Credentials(accessKeyId: string, secretAccessKey: string, sessionToken: Option<string>)

  /** `create_credentials`: only an assumed-role key brings a session token. */
  function CredentialsOf(key: AccessKeyRef): (c: Credentials)
    ensures c.accessKeyId == key.accessKeyId && c.secretAccessKey == key.secretAccessKey
    ensures c.sessionToken.Some? <==> key.AssumedRoleAccessKey?
    ensures key.AssumedRoleAccessKey? ==> c.sessionToken == Some(key.sessionToken)
  {
    match key
    case UserAccessKey(_, id, secret) => Credentials(id, secret, None)
    case AssumedRoleAccessKey(id, secret, token, _, _) => Credentials(id, secret, Some(token))
  }

  /**
   * Everything the signer is given: the flavour picks the signing variant
   * (SigV4 or its S3 form), then the credentials, the scope, and the request
   * restricted to its signed headers, with its timestamp.
   */
  datatype SigningRequest = SigningRequest(
    flavour: Flavour,
    credentials: Credentials,
    service: string,
    region: string,
    verb: string,
    path: string,
    data: RequestData,
    headers: Headers,
    timestamp: string)

  /** The signing algorithm, which the model leaves uninterpreted. */
  type Signer = SigningRequest -> string

  /** The header names listed after `SignedHeaders=`, split at `;`. */
  function SignedHeaderNames(authorization: string): (names: seq<string>)
    ensures |names| >= 1
    ensures forall k :: 0 <= k < |names| ==> ';' !in names[k]
    ensures Join(names, ';') == GetStringBetween("SignedHeaders=", ",", authorization)
    ensures !Contains(authorization, "SignedHeaders=") ==> names == [[]]
  {
    Split(GetStringBetween("SignedHeaders=", ",", authorization), ';')
  }

  /** The headers whose lower-cased name is among the signed ones, with name and value unchanged. */
  function SignedHeaderView(signed: seq<string>, headers: Headers): (h: Headers)
    ensures forall k :: k in h <==> k in headers && Lower(k) in signed
    ensures forall k :: k in h ==> h[k] == headers[k]
  {
    map k | k in headers && Lower(k) in signed :: headers[k]
  }

  /** `_create_headers_for_aws_request`: copy each header whose lower-cased name is signed. */
  method CreateHeadersForAwsRequest(signed: seq<string>, original: Headers) returns (h: Headers)
    ensures forall k :: k in h <==> k in original && Lower(k) in signed
    ensures forall k :: k in h ==> h[k] == original[k]
    ensures h == SignedHeaderView(signed, original)
  {
    h := map[];
    var remaining := original.Keys;
    while remaining != {}
      invariant remaining <= original.Keys
      invariant forall k :: k in h <==> k in original && k !in remaining && Lower(k) in signed
      invariant forall k :: k in h ==> h[k] == original[k]
      decreases remaining
    {
      var k :| k in remaining;
      if Lower(k) in signed {
        h := h[k := original[k]];
      }
      remaining := remaining - {k};
    }
  }

  /**
   * `_create_aws_request` and the credentials of `_calculate_signature`: None
   * when `X-Amz-Date` is not among the signed headers (a key error in the source).
   */
  function SigningRequestFor(req: IamRequest): (r: Option<SigningRequest>)
    requires AuthorizationHeader in req.headers
    ensures r.Some? ==> r.value.credentials == CredentialsOf(req.accessKey)
    ensures r.Some? ==> forall k :: k in r.value.headers ==> k in req.headers && r.value.headers[k] == req.headers[k]
    ensures r.Some? <==>
      DateHeader in req.headers && Lower(DateHeader) in SignedHeaderNames(req.headers[AuthorizationHeader])
    ensures r.Some? ==>
      && r.value.headers == SignedHeaderView(SignedHeaderNames(req.headers[AuthorizationHeader]), req.headers)
      && r.value.timestamp == req.headers[DateHeader]
      && r.value.flavour == req.flavour && r.value.service == req.service && r.value.region == req.region
      && r.value.verb == req.verb && r.value.path == req.path && r.value.data == req.data
  {
    var headers := SignedHeaderView(SignedHeaderNames(req.headers[AuthorizationHeader]), req.headers);
    if DateHeader !in headers then None
    else Some(SigningRequest(req.flavour, CredentialsOf(req.accessKey), req.service, req.region,
                             req.verb, req.path, req.data, headers, headers[DateHeader]))
  }

  /** `_create_aws_request`, building the header view with the loop. */
  method CreateAwsRequest(req: IamRequest) returns (r: Option<SigningRequest>)
    requires AuthorizationHeader in req.headers
    ensures r == SigningRequestFor(req)
  {
    var signed := SignedHeaderNames(req.headers[AuthorizationHeader]);
    var headers := CreateHeadersForAwsRequest(signed, req.headers);
    if DateHeader !in headers {
      return None;
    }
    r := Some(SigningRequest(req.flavour, CredentialsOf(req.accessKey), req.service, req.region,
                             req.verb, req.path, req.data, headers, headers[DateHeader]));
  }

  /** The signature the client sent, after `Signature=`. */
  function SuppliedSignature(authorization: string): (r: string)
    ensures !Contains(r, ",")
    ensures !Contains(authorization, "Signature=") ==> r == []
  {
    GetStringBetween("Signature=", ",", authorization)
  }

  /**
   * The signature is the last field of the header: whatever follows the
   * first `Signature=` is given back whole when it holds no comma.
   */
  lemma SignatureRoundTrip(pre: string, sig: string)
    requires !Contains(pre + "Signature", "Signature=") && ',' !in sig
    ensures SuppliedSignature(pre + "Signature=" + sig) == sig
  {
    assert "Signature="[..|"Signature="| - 1] == "Signature";
    PartitionAtFirst(pre, "Signature=", sig);
    AbsentLastChar(sig, ",");
    assert sig + [] + [] == sig;
  }

  /** `check_signature`: the supplied signature must equal the computed one, character for character. */
  function CheckSignature(req: IamRequest, signer: Signer): (r: Outcome)
    requires AuthorizationHeader in req.headers
    ensures r == Pass <==>
      SigningRequestFor(req).Some? &&
      SuppliedSignature(req.headers[AuthorizationHeader]) == signer(SigningRequestFor(req).value)
    ensures r.Fail? ==> r.error == MalformedRequest || r.error == SignatureDoesNotMatch
  {
    match SigningRequestFor(req)
    case None => Fail(MalformedRequest)
    case Some(signing) =>
      if SuppliedSignature(req.headers[AuthorizationHeader]) != signer(signing) then Fail(SignatureDoesNotMatch)
      else Pass
  }

  /**
   * Headers that are not signed cannot affect the signature check: two
   * requests that agree on the Authorization header and on every signed
   * header get the same verdict.
   */
  lemma SignatureIgnoresUnsignedHeaders(req1: IamRequest, req2: IamRequest, signer: Signer)
    requires AuthorizationHeader in req1.headers && AuthorizationHeader in req2.headers
    requires req1.headers[AuthorizationHeader] == req2.headers[AuthorizationHeader]
    requires req1.(headers := req2.headers) == req2
    requires forall k :: Lower(k) in SignedHeaderNames(req1.headers[AuthorizationHeader]) ==>
      (k in req1.headers <==> k in req2.headers) &&
      (k in req1.headers ==> req1.headers[k] == req2.headers[k])
    ensures CheckSignature(req1, signer) == CheckSignature(req2, signer)
  {
    var signed := SignedHeaderNames(req1.headers[AuthorizationHeader]);
    var v1 := SignedHeaderView(signed, req1.headers);
    var v2 := SignedHeaderView(signed, req2.headers);
    assert v1.Keys == v2.Keys;
    assert v1 == v2;
  }

  // ------------------------------------------------------------------- policy

  function AccessDeniedFor(req: IamRequest): AuthError {
    AccessDeniedError(req.flavour, Arn(req.accessKey), req.action, req.data)
  }

  /**
   * The outcome of `check_action_permitted`: the principal's policies are
   * collected and must grant the action; otherwise access is denied in the
   * flavour's vocabulary. A directory lookup that fails, or a managed policy
   * without a default version, fails the request.
   */
  function ActionOutcome(req: IamRequest, dir: Directory): (r: Outcome)
    ensures r == Pass <==>
      CollectedPolicies(dir, req.accessKey).Success? &&
      Authorize(CollectedPolicies(dir, req.accessKey).value, req.action, false) == Some(true)
    ensures r.Fail? ==> r.error != SignatureDoesNotMatch && r.error != MalformedRequest
    ensures CollectedPolicies(dir, req.accessKey).Failure? ==>
      r == Fail(NoSuchEntity(CollectedPolicies(dir, req.accessKey).error))
    ensures CollectedPolicies(dir, req.accessKey).Success? ==>
      var decision := Authorize(CollectedPolicies(dir, req.accessKey).value, req.action, false);
      && (decision.None? ==> r == Fail(NoDefaultPolicyVersion))
      && (decision == Some(false) ==> r == Fail(AccessDeniedFor(req)))
  {
    match CollectedPolicies(dir, req.accessKey)
    case Failure(name) => Fail(NoSuchEntity(name))
    case Success(ps) =>
      match Authorize(ps, req.action, false)
      case None => Fail(NoDefaultPolicyVersion)
      case Some(granted) => if granted then Pass else Fail(AccessDeniedFor(req))
  }

  /**
   * The loop of `_check_action_permitted_for_iam_user`: evaluate each
   * collected policy in turn; a denying one ends the scan with a refusal, a
   * policy without a default version ends it with no decision, and without
   * any permitting one the scan refuses at the end.
   */
  method ScanPolicies(policies: seq<StoredPolicy>, action: string) returns (d: Option<bool>)
    ensures d == Authorize(policies, action, false)
  {
    var permitted := false;
    var i := 0;
    while i < |policies|
      invariant 0 <= i <= |policies|
      invariant Authorize(policies, action, false) == Authorize(policies[i..], action, permitted)
    {
      assert policies[i..][1..] == policies[i + 1..];
      var result := IsActionPermitted(policies[i], action);
      if result.None? {
        return None;
      }
      if result.value == Denied {
        return Some(false);
      }
      if result.value == Permitted {
        permitted := true;
      }
      i := i + 1;
    }
    return Some(permitted);
  }

  /**
   * `check_action_permitted`: collect the principal's policies and scan them;
   * a refusal raises the flavour's access-denied error.
   */
  method CheckActionPermitted(req: IamRequest, dir: Directory) returns (r: Outcome)
    ensures r == ActionOutcome(req, dir)
  {
    var collected := CollectPolicies(dir, req.accessKey);
    if collected.Failure? {
      return Fail(NoSuchEntity(collected.error));
    }
    var decision := ScanPolicies(collected.value, req.action);
    match decision
    case None => r := Fail(NoDefaultPolicyVersion);
    case Some(granted) => r := if granted then Pass else Fail(AccessDeniedFor(req));
  }

  // ------------------------------------------------------------ orchestration

  /**
   * A constructed request: its signature is checked first, then its action;
   * the first failure is the outcome.
   */
  function CheckRequest(req: IamRequest, dir: Directory, signer: Signer): (r: Outcome)
    requires AuthorizationHeader in req.headers
    ensures r == Pass <==> CheckSignature(req, signer) == Pass && ActionOutcome(req, dir) == Pass
    ensures r == Fail(SignatureDoesNotMatch) <==> CheckSignature(req, signer) == Fail(SignatureDoesNotMatch)
    ensures CheckSignature(req, signer).Fail? ==> r == CheckSignature(req, signer)
    ensures CheckSignature(req, signer) == Pass ==> r == ActionOutcome(req, dir)
  {
    match CheckSignature(req, signer)
    case Fail(e) => Fail(e)
    case Pass => ActionOutcome(req, dir)
  }

  /**
   * One request from start to end: construction (parsing and key resolution),
   * then the signature, then the policies; the first failure is the outcome.
   */
  function Authenticate(
    flavour: Flavour, verb: string, path: string, data: RequestData, headers: Headers,
    dir: Directory, signer: Signer): (r: Outcome)
    ensures var q := RequestFor(flavour, verb, path, data, headers, dir);
      && (q.Failure? ==> r == Fail(q.error))
      && (r == Pass <==> q.Success? && CheckSignature(q.value, signer) == Pass && ActionOutcome(q.value, dir) == Pass)
      && (r == Fail(SignatureDoesNotMatch) <==>
            q.Success? && CheckSignature(q.value, signer) == Fail(SignatureDoesNotMatch))
      && (q.Success? && CheckSignature(q.value, signer).Fail? ==> r == CheckSignature(q.value, signer))
      && (q.Success? && CheckSignature(q.value, signer) == Pass ==> r == ActionOutcome(q.value, dir))
  {
    match RequestFor(flavour, verb, path, data, headers, dir)
    case Failure(e) => Fail(e)
    case Success(req) => CheckRequest(req, dir, signer)
  }

  /**
   * A request passes only when its key resolved, its signature is the one
   * the signer computes, and among the principal's policies (all evaluated)
   * none denies the action and at least one permits it.
   */
  lemma PassMeansSignedAndPermitted(
    flavour: Flavour, verb: string, path: string, data: RequestData, headers: Headers,
    dir: Directory, signer: Signer)
    requires Authenticate(flavour, verb, path, data, headers, dir, signer) == Pass
    ensures RequestFor(flavour, verb, path, data, headers, dir).Success?
    ensures
      var req := RequestFor(flavour, verb, path, data, headers, dir).value;
      && SigningRequestFor(req).Some?
      && SuppliedSignature(headers[AuthorizationHeader]) == signer(SigningRequestFor(req).value)
      && CollectedPolicies(dir, req.accessKey).Success?
      && var ps := CollectedPolicies(dir, req.accessKey).value;
         Evaluable(ps, req.action) && !SomeVerdict(ps, req.action, Denied) && SomeVerdict(ps, req.action, Permitted)
  {
    var req := RequestFor(flavour, verb, path, data, headers, dir).value;
    GrantedMeansPermittedAndNotDenied(CollectedPolicies(dir, req.accessKey).value, req.action, false);
  }

  /**
   * A wrong signature is reported as such before any policy is looked at:
   * the outcome is the signature error, which policy evaluation never yields.
   */
  lemma SignatureCheckedBeforePolicy(
    flavour: Flavour, verb: string, path: string, data: RequestData, headers: Headers,
    dir: Directory, signer: Signer)
    requires RequestFor(flavour, verb, path, data, headers, dir).Success?
    requires
      var req := RequestFor(flavour, verb, path, data, headers, dir).value;
      SigningRequestFor(req).Some? &&
      SuppliedSignature(headers[AuthorizationHeader]) != signer(SigningRequestFor(req).value)
    ensures Authenticate(flavour, verb, path, data, headers, dir, signer) == Fail(SignatureDoesNotMatch)
  {
  }

  /** A key that does not resolve is reported in the flavour's vocabulary, whatever the signer. */
  lemma KeyFailureReportedFirst(
    flavour: Flavour, verb: string, path: string, data: RequestData, headers: Headers,
    dir: Directory, signer: Signer)
    requires AuthorizationHeader in headers && "Action" in data && data["Action"] != []
    requires ParseCredentialScope(headers[AuthorizationHeader]).Some?
    requires
      var scope := ParseCredentialScope(headers[AuthorizationHeader]).value;
      AccessKeyFor(dir, scope.accessKeyId, headers).Failure?
    ensures
      var scope := ParseCredentialScope(headers[AuthorizationHeader]).value;
      Authenticate(flavour, verb, path, data, headers, dir, signer) ==
        Fail(InvalidAccessKeyError(flavour, scope.service, data, AccessKeyFor(dir, scope.accessKeyId, headers).error))
  {
  }

  /**
   * A user whose only policy is an inline `Allow` of one literal action (say
   * `s3:ListBucket`) may perform exactly that action; any other action (say
   * `s3:DeleteBucket`) is denied, the denial naming the user's ARN and the action.
   */
  lemma SingleInlineAllowScenario(req: IamRequest, dir: Directory, u: User, allowed: string)
    requires req.flavour == GenericFlavour
    requires req.accessKey.UserAccessKey? && req.accessKey.ownerUserName == u.name
    requires FindUser(dir.users, u.name) == Some(u)
    requires u.inlinePolicies == [PolicyDocument([Statement("Allow", Action(One(allowed)))])]
    requires u.attachedPolicies == []
    requires forall g :: g in dir.groups ==> u.name !in g.members
    requires '*' !in allowed && '\n' !in req.action
    ensures req.action == allowed ==> ActionOutcome(req, dir) == Pass
    ensures req.action != allowed ==>
      ActionOutcome(req, dir) == Fail(AccessDenied(UserArn(u.name), req.action))
  {
    SingleInlineUserPolicies(dir, u);
    LiteralAllowDocument(allowed, req.action);
    SingleInlinePolicy(u.inlinePolicies[0], req.action);
  }

  /**
   * A group policy allowing everything does not outweigh a user's attached
   * policy denying one literal action (say `s3:DeleteObject`): the deny in one
   * policy wins across policies.
   */
  lemma GroupAllowUserDenyScenario(req: IamRequest, dir: Directory, u: User, mp: ManagedPolicy, denied: string)
    requires req.accessKey.UserAccessKey? && req.accessKey.ownerUserName == u.name
    requires FindUser(dir.users, u.name) == Some(u)
    requires mp.versions == [PolicyVersion(true, PolicyDocument([Statement("Deny", Action(One(denied)))]))]
    requires u.inlinePolicies == [] && u.attachedPolicies == [mp]
    requires |dir.groups| == 1 && dir.groups[0].members == [u.name]
    requires dir.groups[0].inlinePolicies == [PolicyDocument([Statement("Allow", Action(One("*")))])]
    requires '*' !in denied && '\n' !in denied && req.action == denied
    ensures ActionOutcome(req, dir) == Fail(AccessDeniedFor(req))
  {
    var ps := CollectedPolicies(dir, req.accessKey).value;
    assert ps[0] == Managed(mp) by {
      assert AttachedPolicies(u.attachedPolicies) == [Managed(mp)];
      assert OwnPolicies(u.inlinePolicies, u.attachedPolicies) == [Managed(mp)];
    }
    var doc := mp.versions[0].document;
    LiteralStatementVerdict("Deny", denied, req.action);
    SingleStatementDocument(doc.statements[0], req.action);
    assert DefaultVersion(mp.versions) == Some(0);
    assert Evaluate(ps[0], req.action) == Some(Denied);
    DenyIsTerminal(ps, 0, req.action, false);
  }
}
