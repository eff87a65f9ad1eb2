# IAM request authentication and authorization (moto) in Dafny

This project models moto's request authentication and authorization layer,
`moto/core/authentication.py`. It follows one signed request from start to end:

- The Signature Version 4 `Authorization` header is parsed for its credential
  scope: the access key id, region and service.
- The access key is resolved, either to an IAM user's long-term key or to an
  assumed-role session created by STS.
- The request's signature is checked against the one a signer computes over
  the signed headers.
- The principal's inline and managed policies are collected, and the action
  `<service>:<Action>` is evaluated against them.

Each failure is reported in the vocabulary of the request's flavour: the
generic IAM errors or the S3 errors.

Modules, one per concern of the source:

- `Wrappers`: `Option` and `Result`.
- `Strings`: the Python string operations the source relies on. These are
  `str.partition` (`PartitionAt`), `str.split` on one character (`Split`,
  with its inverse `Join`), `startswith`, the last `/`-segment and ASCII
  `lower`.
- `PatternMatch`: `IAMPolicyStatement._match`.
  - A pattern is turned into the anchored regular expression `^p$`, where each
    `*` becomes `.*`. `Glob` models that expression.
  - As in Python's `re`, `.` does not match a newline, and `$` also accepts
    one newline at the very end of the action (`Match`).
- `Policy`: statements, documents and managed policies with versions. It holds
  the tri-state verdict (`Permitted`, `Denied`, `Neutral`) of a statement and
  of a document, and the loop of `IAMPolicy.is_action_permitted`.
- `Authorization`: the fold over a principal's policies in
  `_check_action_permitted_for_iam_user`, with default deny. In this fold a
  deny in any policy wins.
- `Principal`: the IAM and STS state the source reads, as a `Directory` value.
  It covers key resolution (`create_access_key` and both key constructors),
  the `arn` properties and `collect_policies`.
- `IamRequests`: construction of a request, the signature check, the
  flavour-specific errors, the action check, and the whole sequence
  construct, then check the signature, then check the action
  (`Authenticate`).

Signing itself, the canonical request and the HMAC chain, is the botocore
signer. The model does not interpret it: it is the parameter `signer`, a
total function from a `SigningRequest` to a signature string. The
`SigningRequest` carries everything the source gives botocore:

- the flavour, which picks SigV4 or S3 SigV4;
- the credentials, with a session token for assumed-role keys only;
- service, region, method, path and data;
- the signed headers;
- the `X-Amz-Date` timestamp.

Exceptions become results. A missing `Authorization` header, a credential
scope with fewer than four fields, a missing `Action` or an unsigned
`X-Amz-Date` are `MalformedRequest`; in the source each is a `KeyError` or
an `IndexError`. A managed policy without a default version is
`NoDefaultPolicyVersion`; in the source it is a `StopIteration`.

## Model

| member | source | states |
|---|---|---|
| Strings.PartitionAt | moto/core/authentication.py:199-201 | `str.partition`: the three parts concatenate back to the input. The separator part is the separator exactly when it occurs, and the head is the text before its first occurrence (it holds no occurrence). |
| Strings.PartitionAtFirst | moto/core/authentication.py:199-201 | Partitioning `pre + sep + post`, when `pre` holds no occurrence, gives back exactly `pre`, `sep`, `post`. |
| Strings.Split | moto/core/authentication.py:130 | `str.split` on one character, as used on the credential scope (line 130), the role ARN (line 82) and `SignedHeaders` (line 184): at least one part, no part holds the separator, and joining the parts with it gives back the input. |
| Strings.SplitJoin | moto/core/authentication.py:184 | Round trip: splitting the join of separator-free parts gives back those parts. |
| Strings.SplitAppend | moto/core/authentication.py:82 | Splitting `x + [c] + t` is splitting `x` followed by splitting `t`. |
| Strings.LastSegment | moto/core/authentication.py:82 | `split("/")[-1]` holds no `/`. |
| Strings.LastSegmentAfter | moto/core/authentication.py:82 | The last segment of `x + "/" + n`, for `n` without `/`, is `n`. |
| Strings.Lower | moto/core/authentication.py:179 | ASCII `lower`: same length, no capital letter left, other characters unchanged, each capital replaced by its small letter. |
| PatternMatch.MatchSingleLine | moto/core/authentication.py:312-316 | For an action without newline, `re.match` of `^p$` is exactly the glob match; the trailing-newline allowance of `$` plays no part. |
| PatternMatch.Glob | moto/core/authentication.py:312-316 | A match of a pattern without `*` is the pattern itself, and a match of a pattern without newline is a single line (`.` does not match a newline). |
| PatternMatch.Match | moto/core/authentication.py:312-316 | `re.match` of `^p$` accepts every glob match, and for a pattern without newline accepts only a single line, possibly followed by one final newline (`$`). |
| PatternMatch.StarGlob | moto/core/authentication.py:312-316 | The pattern `*` matches a string iff it holds no newline. |
| PatternMatch.StarMatchesEveryAction | moto/core/authentication.py:312-316 | `*` matches every single-line action. |
| PatternMatch.LiteralGlob | moto/core/authentication.py:312-316 | A pattern without `*` glob-matches only itself. |
| PatternMatch.LiteralMatchesOnlyItself | moto/core/authentication.py:312-316 | A pattern without `*` matches a single-line action iff the action equals it. |
| PatternMatch.PrefixStarGlob | moto/core/authentication.py:312-316 | `p*` matches exactly the strings that start with `p` and continue without a newline. |
| PatternMatch.GlobConcat | moto/core/authentication.py:312-316 | Matches compose: if `p1` matches `s1` and `p2` matches `s2`, then `p1 + p2` matches `s1 + s2`. |
| PatternMatch.StarAbsorbs | moto/core/authentication.py:312-316 | In `before*after`, the star absorbs any single-line middle part. |
| PatternMatch.GetStarMatchesGetObject | moto/core/authentication.py:312-316 | `s3:Get*` matches `s3:GetObject`. |
| PatternMatch.GetStarMatchesGet | moto/core/authentication.py:312-316 | `s3:Get*` matches `s3:Get`: the star may match nothing. |
| PatternMatch.GetStarRejectsPutObject | moto/core/authentication.py:312-316 | `s3:Get*` does not match `s3:PutObject`. |
| Policy.AnyMatch | moto/core/authentication.py:304-308 | A list of patterns matches iff one of its patterns does. |
| Policy.ElementMatches | moto/core/authentication.py:303-310 | An `Action`/`NotAction` value, a single string or a list, matches iff one of its patterns matches. |
| Policy.StatementVerdict | moto/core/authentication.py:283-301 | A statement concerns the action when its `Action` matches, or its `NotAction` does not. It is Neutral iff it does not concern the action, Permitted iff it does and the effect is exactly `Allow`, and Denied iff it does with any other effect. |
| Policy.LiteralStatementVerdict | moto/core/authentication.py:283-301 | A statement naming one literal action is Neutral for every other action, and for that action Permitted or Denied by its effect. |
| Policy.Verdicts | moto/core/authentication.py:264-266 | One verdict per statement, in order: the i-th verdict is the i-th statement's. |
| Policy.VerdictsMembers | moto/core/authentication.py:264-266 | A verdict occurs among a document's verdicts iff some statement of the document has it. |
| Policy.FoldVerdicts | moto/core/authentication.py:263-275 | The early-exit fold is Denied iff some verdict is Denied, and Permitted iff none is Denied and the flag was set or some verdict is Permitted. |
| Policy.DocumentVerdict | moto/core/authentication.py:263-275 | A document denies iff one of its statements denies. It permits iff none denies and one permits. It is neutral iff no statement denies and none permits. |
| Policy.DocumentVerdictOrderFree | moto/core/authentication.py:263-275 | The verdict of a document does not depend on the order of its statements. |
| Policy.SingleStatementDocument | moto/core/authentication.py:263-275 | A one-statement document has that statement's verdict. |
| Policy.LiteralAllowDocument | moto/core/authentication.py:283-301 | A document that allows one literal action permits exactly that action and is neutral on every other single-line action. |
| Policy.AllowEverythingPermits | moto/core/authentication.py:283-301 | `Allow` on `*` permits every single-line action. |
| Policy.DefaultVersion | moto/core/authentication.py:254 | `next(...)` over the versions: the index found is the first version flagged default, and there is none iff no version is. |
| Policy.DefaultDocument | moto/core/authentication.py:253-259 | An inline policy is its own document. A managed policy's document is the document of its first version flagged default, and there is none iff no version is default. |
| Policy.ScanStatements | moto/core/authentication.py:263-275 | The statement loop, with its `permitted` flag and early return on deny, computes the fold of the statements' verdicts, which is the document verdict. |
| Policy.IsActionPermitted | moto/core/authentication.py:252-275 | Finding the document (a managed policy's first default version) and scanning its statements computes `Evaluate`: no verdict without a default version, else the document verdict. |
| Policy.Evaluate | moto/core/authentication.py:252-259 | An inline policy evaluates to its document's verdict. A managed policy fails to evaluate iff no version is default, and otherwise has the verdict of its first default version's document. |
| Authorization.Authorize | moto/core/authentication.py:148-161 | The decision is missing only if some policy cannot be evaluated, and is present whenever every policy can be; `Authorization.MissingDefaultReached` gives the converse. |
| Authorization.AuthorizeIsFold | moto/core/authentication.py:148-161 | When every policy can be evaluated, the loop over policies grants iff the fold of their verdicts is Permitted. |
| Authorization.AuthorizeCharacterised | moto/core/authentication.py:148-161 | When every policy can be evaluated, the action is granted iff no policy denies it and some policy permits it. |
| Authorization.DefaultDeny | moto/core/authentication.py:160-161 | With no policy, access is denied. |
| Authorization.GrantedMeansPermittedAndNotDenied | moto/core/authentication.py:148-161 | A granted action had every policy evaluated, none of them denying, and some permitting (or the flag already set). |
| Authorization.MissingDefaultReached | moto/core/authentication.py:150-156 | A policy without a default version reached before any denying policy makes the decision missing, whatever follows it (the `next` of line 254 raises there); with `Authorize`'s own contract, the decision is missing exactly then. |
| Authorization.DenyIsTerminal | moto/core/authentication.py:154-156 | A denying policy, after evaluable ones, denies access whatever follows it and whatever came before. |
| Authorization.AuthorizeOrderFree | moto/core/authentication.py:148-161 | Over evaluable policies (every managed one has a default version), reordering a principal's policies does not change the decision. |
| Authorization.SingleInlinePolicy | moto/core/authentication.py:148-161 | With a single inline policy, access is granted iff its document permits the action. |
| Principal.FindKey | moto/core/authentication.py:30-31 | The first key with the given id, and none iff no key has it. |
| Principal.FindKeyOwner | moto/core/authentication.py:29-31 | The first user holding the key, and none iff no user does. |
| Principal.UserKeyFor | moto/core/authentication.py:27-38 | `InvalidId` iff no user holds the key. `InvalidToken` iff one does and a security token header is present. Otherwise the key of the first holder, with that key's secret. |
| Principal.NewIamUserAccessKey | moto/core/authentication.py:27-38 | The nested scan over users and their keys computes `UserKeyFor`. |
| Principal.FindSession | moto/core/authentication.py:77-78 | The first assumed-role session with the given key id, and none iff there is none. |
| Principal.RoleNameOf | moto/core/authentication.py:82 | The role name is the last `/`-segment of the session's ARN. |
| Principal.AssumedRoleKeyFor | moto/core/authentication.py:76-87 | `InvalidId` iff no session has the key id. `InvalidToken` iff the first such session's token differs from the header. Otherwise that session's secret, token, role name and session name. |
| Principal.NewAssumedRoleAccessKey | moto/core/authentication.py:76-87 | The scan over sessions computes `AssumedRoleKeyFor`. |
| Principal.AccessKeyFor | moto/core/authentication.py:18-38 | An `AKIA` key, or a request without a security token, resolves to a user's key; anything else to an assumed-role key. A resolved key has the requested id. On the user path `InvalidId` iff no user holds the key and `InvalidToken` iff one does and a token header is present. On the session path `InvalidId` iff no session has the id, and `InvalidToken` iff the first such session's token differs from the header. A resolved user key is the first user, in directory order, holding the id, with the secret of that user's first key with it; a resolved session key carries the first session's secret, token, role name and session name. The classification of line 19 is `Principal.UsesUserKey`, and the result is `UserKeyFor` on that path and `AssumedRoleKeyFor` otherwise. |
| Principal.CreateAccessKey | moto/core/authentication.py:18-22 | Running the scans computes `AccessKeyFor`. |
| Principal.LongTermKeyResolution | moto/core/authentication.py:18-38 | A key id on the user path (an `AKIA` id, or any id without a token header) held by a user resolves, without a token header, to exactly the first holder's name, the id and the secret of that holder's first key with the id; with a token header it is `InvalidToken`. |
| Principal.SessionKeyResolution | moto/core/authentication.py:76-87 | A non-`AKIA` key with a token header is `InvalidId` when no session has the id. Otherwise, with the first such session, it is `InvalidToken` when the token differs, and else that session's key: its secret, token, role name and session name. |
| Principal.UnknownKeyIsInvalidId | moto/core/authentication.py:18-38 | A key id that no user and no session holds is `InvalidId`, whatever the headers. |
| Principal.UserArn | moto/core/authentication.py:40-45 | A user ARN is `arn:aws:iam::<account>:user/` followed by the user name, which is its last `/`-segment. |
| Principal.AssumedRoleArn | moto/core/authentication.py:89-95 | An assumed-role ARN is `arn:aws:sts::<account>:assumed-role/` followed by role name, `/` and session name; the session name is its last `/`-segment. |
| Principal.Arn | moto/core/authentication.py:40-45 | The `arn` of a user key is the user ARN of its owner, and of an assumed-role key the assumed-role ARN of its role and session (also lines 89-95); each starts with its fixed prefix. |
| Principal.UserArnSegments | moto/core/authentication.py:40-45 | A user's ARN is `arn:aws:iam::<account>:user` and the user name, joined by `/`. |
| Principal.AssumedRoleArnSegments | moto/core/authentication.py:89-95 | An assumed-role ARN is `arn:aws:sts::<account>:assumed-role`, the role name and the session name, joined by `/`. |
| Principal.RoleNameFromRoleArn | moto/core/authentication.py:82 | The role name read from a role ARN `<path>/<name>` is `<name>`. |
| Principal.InlinePolicies | moto/core/authentication.py:53-56 | One stored inline policy per inline document, in order: the i-th is the i-th document. |
| Principal.AttachedPolicies | moto/core/authentication.py:58-59 | One stored managed policy per attached policy, in order: the i-th is the i-th attached policy. |
| Principal.OwnPolicies | moto/core/authentication.py:50-59 | An entity's own policies are its inline ones, in order, followed by its attached ones, in order. |
| Principal.GroupsForUser | moto/core/authentication.py:61 | A group is among the user's groups iff it is in the directory and lists the user. |
| Principal.NoGroupsForNonMember | moto/core/authentication.py:61 | A user no group lists has no groups. |
| Principal.UngroupedUserPolicies | moto/core/authentication.py:50-71 | A user no group lists is governed by its own inline and attached policies alone. |
| Principal.FindUser | moto/core/authentication.py:53 | A user found by name is in the directory with that name; none found means no user has it. |
| Principal.FindRole | moto/core/authentication.py:103 | A role found by name is in the directory with that name; none found means no role has it. |
| Principal.UserPolicies | moto/core/authentication.py:50-71 | Fails, carrying the name, iff the user is not found. On success the list starts with the user's own inline then attached policies. |
| Principal.RolePolicies | moto/core/authentication.py:100-111 | Fails, carrying the name, iff the role is not found. On success the list is the role's own inline then attached policies. |
| Principal.CollectedPolicies | moto/core/authentication.py:50-111 | For either kind of key: fails, carrying the owner's name, iff the owner is not in the directory. |
| Principal.SingleInlineUserPolicies | moto/core/authentication.py:50-71 | An ungrouped user with one inline policy and nothing attached is governed by that one policy. |
| Principal.GroupPoliciesSingle | moto/core/authentication.py:62-69 | One group contributes exactly its own policies, inline ones before attached ones. |
| Principal.GroupPoliciesAppend | moto/core/authentication.py:61-69 | `Principal.GroupPolicies` collects a user's groups one after another, in listed order. Collecting from `gs + hs` gives the policies of `gs` followed by those of `hs`. |
| Principal.GroupPoliciesMembers | moto/core/authentication.py:62-69 | A policy collected from the groups is exactly one of some group's inline or attached policies. |
| Principal.UserPoliciesMembers | moto/core/authentication.py:50-71 | A user's collected policies are exactly its own inline and attached ones plus those of every group listing it. |
| Principal.UserPoliciesAsWritten | moto/core/authentication.py:61-69 | Lines 63 and 68 as written: the collection succeeds iff the user exists and belongs to no group, and then agrees with the intended collection. |
| Principal.GroupedUserCollectionAsWritten | moto/core/authentication.py:61-69 | For a known user listed by a group, the collection as written fails, while the intended one succeeds and contains every policy of that group. |
| Principal.AppendOwnPolicies | moto/core/authentication.py:53-59 | Appending an entity's inline policies one at a time and then its attached ones extends the list by exactly its own policies. |
| Principal.CollectUserPolicies | moto/core/authentication.py:50-71 | The appending loops compute the user's policy list, in order: own inline, own attached, then group by group. |
| Principal.CollectRolePolicies | moto/core/authentication.py:100-111 | The appending loop computes the role's inline then attached policies. |
| Principal.CollectPolicies | moto/core/authentication.py:50-111 | `collect_policies` of either kind of key computes the specified list. |
| IamRequests.InvalidAccessKeyError | moto/core/authentication.py:206-235 | Generic flavour: `AuthFailure` iff the service is `ec2`, else `InvalidClientTokenId`. S3 flavour: the token error iff the reason is an invalid token, the access-key-id error iff it is an invalid id, and the bucket variant (carrying `BucketName`) iff the data has `BucketName`. |
| IamRequests.AccessDeniedError | moto/core/authentication.py:215-244 | Generic flavour: access denied with the principal's ARN and the action. S3 flavour: the bucket variant, carrying `BucketName`, iff the data has it, else the plain S3 error. |
| IamRequests.GetStringBetween | moto/core/authentication.py:199-201 | Empty when the first separator is absent. Otherwise a prefix of the text after its first occurrence, holding no second separator at any position, and ending at the end or at the first second separator. |
| IamRequests.BetweenRoundTrip | moto/core/authentication.py:199-201 | The text written between the two separators is read back exactly. |
| IamRequests.ParseCredentialScope | moto/core/authentication.py:129-132 | Fails iff the scope has fewer than four `/`-fields. The key id, region and service hold no `/`. |
| IamRequests.ScopeFields | moto/core/authentication.py:129-132 | A scope written from five `/`-free fields splits back into them. |
| IamRequests.ScopeWithoutComma | moto/core/authentication.py:129 | A scope written from comma-free fields holds no comma, so reading up to `,` takes all of it. |
| IamRequests.CredentialScopeRoundTrip | moto/core/authentication.py:129-132 | A SigV4 Authorization header built from a key id, date, region and service parses back to that key id, region and service. |
| IamRequests.RequestFor | moto/core/authentication.py:123-137 | Malformed iff the header, a scope field or the `Action` is missing. Otherwise the request succeeds iff the key resolves, with region, service, the action `<service>:<Action>` and the resolved key; if the key does not resolve, the flavour's invalid-key error for the resolution's reason. |
| IamRequests.NewIamRequest | moto/core/authentication.py:123-137 | The constructor, running the key scans, computes `RequestFor`. |
| IamRequests.CredentialsOf | moto/core/authentication.py:47-48 | Credentials carry the key's id and secret; a session token iff it is an assumed-role key, and then exactly that key's session token (also lines 97-98). |
| IamRequests.SignedHeaderNames | moto/core/authentication.py:184 | The names between `SignedHeaders=` and `,`, split at `;`: at least one, none holding `;`, joining back to that text; a single empty name when there is no `SignedHeaders=`. |
| IamRequests.SignedHeaderView | moto/core/authentication.py:176-181 | A header is kept iff it is present and its lower-cased name is signed, with its original name and value. |
| IamRequests.CreateHeadersForAwsRequest | moto/core/authentication.py:176-181 | The filtering loop keeps exactly the headers whose lower-cased name is signed, with their original names and values. |
| IamRequests.SigningRequestFor | moto/core/authentication.py:183-188 | There is a signing request iff `X-Amz-Date` is present and signed. It then carries the key's credentials, exactly the signed view of the headers, `X-Amz-Date` as its timestamp, and the request's flavour, service, region, method, path and data. |
| IamRequests.CreateAwsRequest | moto/core/authentication.py:183-188 | `_create_aws_request` computes `SigningRequestFor`. |
| IamRequests.SuppliedSignature | moto/core/authentication.py:140 | The signature read after `Signature=` holds no comma, and is empty when the header has no `Signature=`. |
| IamRequests.SignatureRoundTrip | moto/core/authentication.py:140 | A comma-free signature written as the last field after the first `Signature=` is read back exactly. |
| IamRequests.CheckSignature | moto/core/authentication.py:139-143 | Passes iff the signed request can be built and the signature after `Signature=` equals the signer's. Otherwise it is malformed or `SignatureDoesNotMatch`. |
| IamRequests.SignatureIgnoresUnsignedHeaders | moto/core/authentication.py:176-197 | Two requests that agree on the Authorization header and on every signed header get the same signature verdict. |
| IamRequests.ActionOutcome | moto/core/authentication.py:145-161 | Passes iff the principal's policies are found and grant the action. An owner not found is `NoSuchEntity` with its name; a managed policy without default version is `NoDefaultPolicyVersion`; a refusal is the flavour's access-denied error, built by `IamRequests.AccessDeniedFor` from the key's ARN, the action and the request data (line 161). Never a signature or parsing error. |
| IamRequests.ScanPolicies | moto/core/authentication.py:148-161 | The policy loop, with its `permitted` flag and early exit on deny, computes `Authorize` from no permission: none when a policy reached has no default version, a refusal at the first denying policy or when nothing permitted. |
| IamRequests.CheckActionPermitted | moto/core/authentication.py:145-161 | Collecting the policies and scanning them computes `ActionOutcome`, including which error a refusal gets. |
| IamRequests.CheckRequest | moto/core/authentication.py:139-161 | A built request passes iff its signature matches and its action is granted. `SignatureDoesNotMatch` iff the signature check says so. Any signature failure is the outcome. Once the signature passes, the outcome is the policy stage's, so a refused action gives the flavour's access-denied error. |
| IamRequests.Authenticate | moto/core/authentication.py:123-161 | A construction failure is the outcome. A request passes iff it was built, its signature matches and its action is granted. `SignatureDoesNotMatch` iff it was built and the signature check reports it. For a built request, any signature failure is the outcome, and after a passing signature the outcome is the policy stage's (`NoSuchEntity`, `NoDefaultPolicyVersion` or the flavour's access-denied error). |
| IamRequests.PassMeansSignedAndPermitted | moto/core/authentication.py:123-161 | A request that passes had a resolved key and a matching signature. All its principal's policies were evaluated, none denying the action and some permitting it. |
| IamRequests.SignatureCheckedBeforePolicy | moto/core/authentication.py:139-143 | A wrong signature is reported as `SignatureDoesNotMatch` whatever the policies say. |
| IamRequests.KeyFailureReportedFirst | moto/core/authentication.py:131-137 | A key that does not resolve is reported as the flavour's invalid-key error, whatever the signer. |
| IamRequests.SingleInlineAllowScenario | moto/core/authentication.py:148-161 | A user whose only policy allows one literal action (such as `s3:ListBucket`) may perform it, and is denied every other (such as `s3:DeleteBucket`); the denial names the user's ARN and the action. |
| IamRequests.GroupAllowUserDenyScenario | moto/core/authentication.py:148-161 | A group policy allowing `*` does not outweigh the user's managed policy denying a literal action (such as `s3:DeleteObject`): the request is refused with the access-denied error. |

## Left out

- The botocore signers `SigV4Auth` and `S3SigV4Auth` (canonical request, string to sign, HMAC) are the uninterpreted `signer` parameter. The model checks only what is handed to them and how their result is compared.
- The debug `print` in `IAMRequestBase.__init__` (line 124) is not modelled.
- `json.loads` of policy documents is not modelled: documents are already-parsed `PolicyDocument` values. A malformed document or a statement without `Effect`, `Action` or `NotAction` is not modelled.
- Resource, NotResource and Condition are not matched: the source leaves them as a TODO (line 293) and ignores them, and so does the model.
- PatternMatch.Match: patterns are taken to hold no regular-expression metacharacter other than `*`. The source does not escape them, so a `.` or `?` in a pattern would act as a regex operator.
- Strings.Lower lower-cases ASCII letters only; Python's `str.lower` also folds non-ASCII letters.
- Headers are an exact-key map. The server's header object matches names case-insensitively; the model uses the names exactly as given.
- The IAM and STS backends (`moto/iam/models.py`, `moto/sts/models.py`) are not part of this model. Their state is the `Directory` value: users with keys and policies, groups with members, roles, and assumed-role sessions. The account id `123456789012` is the backend's constant. The names in it are taken to be unique, and a name lookup that finds nothing is `NoSuchEntity`.
- Principal.GroupPoliciesMembers: states the group collection as evidently intended, not as lines 63 and 68 are written; see Findings.
- Principal.UserPoliciesMembers: states the user collection with group policies included as intended; as written, a grouped user's collection fails at line 63 (see Findings).
- Principal.CollectUserPolicies: collects each group's inline policies by the group's name and its attached policies as a plain list, correcting lines 63 and 68; see Findings.
- IamRequests.GroupAllowUserDenyScenario: relies on the corrected group collection of lines 63 and 68; as written the grouped user's collection fails instead (see Findings).
- Principal.UserPoliciesAsWritten: how the backend fails on the group object at line 63 is not part of this model; it is modelled as a lookup failure carrying the group's name. The effect of line 68's unpacked pair is not modelled separately, since line 63 fails first.
- The paging arguments of `list_users` and of the attached-policy listings are not modelled: every user and every policy is returned.
- The caller that constructs the request and then calls `check_signature` and `check_action_permitted` is not part of this model. `IamRequests.Authenticate` composes the three in that order, each failure ending the request.
- The source's `data["Action"][0]` is read as the first value of the parameter's list. A data value that is a plain string (whose first character Python would take) is not modelled.

## Findings

| source | as written | input that shows it | evidently intended | confidence | as-written member | corrected member |
|---|---|---|---|---|---|---|
| moto/core/authentication.py:63, :68 | Line 63 passes the group object where the group name is expected (line 65 passes `user_group.name`). Line 68 assigns the `(policies, marker)` pair from `list_attached_group_policies` without unpacking it, unlike lines 58 and 108. | Any user listed as a member of some group. | List the group's inline policies by `user_group.name`, and unpack `attached_group_policies, _` at line 68. | not executed; the backend's behaviour is inferred, since moto/iam/models.py is not part of this model | Principal.UserPoliciesAsWritten, Principal.GroupedUserCollectionAsWritten | Principal.UserPolicies, Principal.CollectUserPolicies |
