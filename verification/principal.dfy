/**
 * Who is calling: resolution of an access key id (and the request's
 * security-token header) against the identity directory to a user key or an
 * assumed-role key, the caller's ARN, and the policies attached to it.
 *
 * The identity directory and the table of assumed-role sessions are passed in
 * as values, read-only for the length of one request.
 */
module Principal {
  import opened Wrappers
  import opened Strings
  import opened Policy

  /** The account every principal of the mock server belongs to. */
  const AccountId := "123456789012"

  const SecurityTokenHeader := "X-Amz-Security-Token"

  /** The conventional prefix of a long-term user access key id. */
  const UserKeyPrefix := "AKIA"

  /** Request headers, by exact name. */
  type Headers = map<string, string>

  datatype AccessKey = AccessKey(accessKeyId: string, secretAccessKey: string)

  /** A user with its access keys, its inline policy documents (in the order of their names) and attached policies. */
  datatype User = User(
    name: string,
    accessKeys: seq<AccessKey>,
    inlinePolicies: seq<PolicyDocument>,
    attachedPolicies: seq<ManagedPolicy>)

  datatype Group = Group(
    name: string,
    members: seq<string>,
    inlinePolicies: seq<PolicyDocument>,
    attachedPolicies: seq<ManagedPolicy>)

  datatype Role = Role(
    name: string,
    inlinePolicies: seq<PolicyDocument>,
    attachedPolicies: seq<ManagedPolicy>)

  /** An active assumed-role session; `arn` is the ARN of the assumed role. */
  datatype AssumedRoleSession = AssumedRoleSession(
    accessKeyId: string,
    secretAccessKey: string,
    sessionToken: string,
    arn: string,
    sessionName: string)

  datatype Directory = Directory(
    users: seq<User>,
    groups: seq<Group>,
    roles: seq<Role>,
    assumedRoles: seq<AssumedRoleSession>)

  /** Why an access key could not be resolved. */
  datatype FailureReason = InvalidId | InvalidToken

  /** A resolved access key: owned by a user, or by an assumed-role session. */
  datatype AccessKeyRef =
    | UserAccessKey(ownerUserName: string, accessKeyId: string, secretAccessKey: string)
    | AssumedRoleAccessKey(
        accessKeyId: string,
        secretAccessKey: string,
        sessionToken: string,
        ownerRoleName: string,
        sessionName: string)

  // ---------------------------------------------------------------- user keys

  /** The user holds an access key with this id. */
  ghost predicate OwnsKey(u: User, id: string) {
    exists k :: 0 <= k < |u.accessKeys| && u.accessKeys[k].accessKeyId == id
  }

  /** User `i` is the first, in directory order, to hold the key. */
  ghost predicate FirstOwner(users: seq<User>, id: string, i: nat) {
    i < |users| && OwnsKey(users[i], id) && forall j :: 0 <= j < i ==> !OwnsKey(users[j], id)
  }

  /** Key `k` is the first of the list with this id. */
  ghost predicate FirstKey(keys: seq<AccessKey>, id: string, k: nat) {
    k < |keys| && keys[k].accessKeyId == id && forall m :: 0 <= m < k ==> keys[m].accessKeyId != id
  }

  function FindKey(keys: seq<AccessKey>, id: string): (r: Option<nat>)
    ensures r.Some? ==> FirstKey(keys, id, r.value)
    ensures r.None? ==> forall m :: 0 <= m < |keys| ==> keys[m].accessKeyId != id
  {
    if keys == [] then None
    else if keys[0].accessKeyId == id then Some(0)
    else match FindKey(keys[1..], id)
      case None => None
      case Some(k) => Some(k + 1)
  }

  function FindKeyOwner(users: seq<User>, id: string): (r: Option<nat>)
    ensures r.Some? ==> FirstOwner(users, id, r.value)
    ensures r.None? ==> forall j :: 0 <= j < |users| ==> !OwnsKey(users[j], id)
  {
    if users == [] then None
    else if FindKey(users[0].accessKeys, id).Some? then Some(0)
    else match FindKeyOwner(users[1..], id)
      case None => None
      case Some(i) =>
        assert forall j :: 1 <= j <= i ==> users[j] == users[1..][j - 1];
        Some(i + 1)
  }

  /**
   * The outcome of constructing an `IAMUserAccessKey`: the first user holding
   * the key id owns it; a security-token header alongside a user key is an
   * invalid token; no owner is an invalid id.
   */
  function UserKeyFor(users: seq<User>, id: string, headers: Headers): (r: Result<AccessKeyRef, FailureReason>)
    ensures r == Failure(InvalidId) <==> forall j :: 0 <= j < |users| ==> !OwnsKey(users[j], id)
    ensures r == Failure(InvalidToken) <==>
      (exists j :: 0 <= j < |users| && OwnsKey(users[j], id)) && SecurityTokenHeader in headers
    ensures r.Success? ==> exists i: nat, k: nat ::
      FirstOwner(users, id, i) && FirstKey(users[i].accessKeys, id, k) &&
      r.value == UserAccessKey(users[i].name, id, users[i].accessKeys[k].secretAccessKey)
  {
    match FindKeyOwner(users, id)
    case None => Failure(InvalidId)
    case Some(i) =>
      var k := FindKey(users[i].accessKeys, id).value;
      if SecurityTokenHeader in headers then Failure(InvalidToken)
      else Success(UserAccessKey(users[i].name, id, users[i].accessKeys[k].secretAccessKey))
  }

  /** `IAMUserAccessKey.__init__`: scan every user's keys for the id. */
  method NewIamUserAccessKey(users: seq<User>, id: string, headers: Headers)
    returns (r: Result<AccessKeyRef, FailureReason>)
    ensures r == UserKeyFor(users, id, headers)
  {
    var i := 0;
    while i < |users|
      invariant 0 <= i <= |users|
      invariant forall j :: 0 <= j < i ==> !OwnsKey(users[j], id)
    {
      var keys := users[i].accessKeys;
      var k := 0;
      while k < |keys|
        invariant 0 <= k <= |keys|
        invariant forall m :: 0 <= m < k ==> keys[m].accessKeyId != id
      {
        if keys[k].accessKeyId == id {
          assert FirstOwner(users, id, i) && FirstKey(keys, id, k);
          if SecurityTokenHeader in headers {
            return Failure(InvalidToken);
          }
          return Success(UserAccessKey(users[i].name, id, keys[k].secretAccessKey));
        }
        k := k + 1;
      }
      i := i + 1;
    }
    return Failure(InvalidId);
  }

  // ------------------------------------------------------- assumed-role keys

  /** Session `i` is the first, in table order, issued under this key id. */
  ghost predicate FirstSession(sessions: seq<AssumedRoleSession>, id: string, i: nat) {
    i < |sessions| && sessions[i].accessKeyId == id &&
    forall j :: 0 <= j < i ==> sessions[j].accessKeyId != id
  }

  function FindSession(sessions: seq<AssumedRoleSession>, id: string): (r: Option<nat>)
    ensures r.Some? ==> FirstSession(sessions, id, r.value)
    ensures r.None? ==> forall j :: 0 <= j < |sessions| ==> sessions[j].accessKeyId != id
  {
    if sessions == [] then None
    else if sessions[0].accessKeyId == id then Some(0)
    else match FindSession(sessions[1..], id)
      case None => None
      case Some(i) => Some(i + 1)
  }

  /** The role name is the last `/`-separated segment of the role's ARN. */
  function RoleNameOf(arn: string): (name: string)
    ensures '/' !in name
  {
    LastSegment(arn, '/')
  }

  /**
   * The outcome of constructing an `AssumedRoleAccessKey`: the first session
   * issued under the key id owns it, and the request's security token must be
   * exactly that session's token; no session is an invalid id.
   */
  function AssumedRoleKeyFor(sessions: seq<AssumedRoleSession>, id: string, headers: Headers)
    : (r: Result<AccessKeyRef, FailureReason>)
    requires SecurityTokenHeader in headers
    ensures r == Failure(InvalidId) <==> forall j :: 0 <= j < |sessions| ==> sessions[j].accessKeyId != id
    ensures forall i: nat :: FirstSession(sessions, id, i) ==>
      (r == Failure(InvalidToken) <==> headers[SecurityTokenHeader] != sessions[i].sessionToken)
    ensures forall i: nat :: FirstSession(sessions, id, i) && r.Success? ==>
      r.value == AssumedRoleAccessKey(id, sessions[i].secretAccessKey, sessions[i].sessionToken,
                                      RoleNameOf(sessions[i].arn), sessions[i].sessionName)
  {
    match FindSession(sessions, id)
    case None => Failure(InvalidId)
    case Some(i) =>
      var s := sessions[i];
      if headers[SecurityTokenHeader] != s.sessionToken then Failure(InvalidToken)
      else Success(AssumedRoleAccessKey(id, s.secretAccessKey, s.sessionToken, RoleNameOf(s.arn), s.sessionName))
  }

  /** `AssumedRoleAccessKey.__init__`: scan the active sessions for the key id. */
  method NewAssumedRoleAccessKey(sessions: seq<AssumedRoleSession>, id: string, headers: Headers)
    returns (r: Result<AccessKeyRef, FailureReason>)
    requires SecurityTokenHeader in headers
    ensures r == AssumedRoleKeyFor(sessions, id, headers)
  {
    var i := 0;
    while i < |sessions|
      invariant 0 <= i <= |sessions|
      invariant forall j :: 0 <= j < i ==> sessions[j].accessKeyId != id
    {
      var s := sessions[i];
      if s.accessKeyId == id {
        assert FirstSession(sessions, id, i);
        var roleName := RoleNameOf(s.arn);
        if headers[SecurityTokenHeader] != s.sessionToken {
          return Failure(InvalidToken);
        }
        return Success(AssumedRoleAccessKey(id, s.secretAccessKey, s.sessionToken, roleName, s.sessionName));
      }
      i := i + 1;
    }
    return Failure(InvalidId);
  }

  // ------------------------------------------------------------ classification

  /** A key id is looked up among users when it has the user prefix or no session token comes with it. */
  predicate UsesUserKey(id: string, headers: Headers) {
    StartsWith(id, UserKeyPrefix) || SecurityTokenHeader !in headers
  }

  /** `create_access_key`: a user key or an assumed-role key, by the classification above. */
  function AccessKeyFor(dir: Directory, id: string, headers: Headers): (r: Result<AccessKeyRef, FailureReason>)
    ensures r.Success? ==> (r.value.UserAccessKey? <==> UsesUserKey(id, headers))
    ensures r.Success? ==> r.value.accessKeyId == id
    ensures UsesUserKey(id, headers) ==>
      && (r == Failure(InvalidId) <==> forall j :: 0 <= j < |dir.users| ==> !OwnsKey(dir.users[j], id))
      && (r == Failure(InvalidToken) <==>
            (exists j :: 0 <= j < |dir.users| && OwnsKey(dir.users[j], id)) && SecurityTokenHeader in headers)
    ensures !UsesUserKey(id, headers) ==>
      && (r == Failure(InvalidId) <==> forall j :: 0 <= j < |dir.assumedRoles| ==> dir.assumedRoles[j].accessKeyId != id)
      && (forall i: nat :: FirstSession(dir.assumedRoles, id, i) ==>
            (r == Failure(InvalidToken) <==> headers[SecurityTokenHeader] != dir.assumedRoles[i].sessionToken))
    ensures UsesUserKey(id, headers) && r.Success? ==> exists i: nat, k: nat ::
      FirstOwner(dir.users, id, i) && FirstKey(dir.users[i].accessKeys, id, k) &&
      r.value == UserAccessKey(dir.users[i].name, id, dir.users[i].accessKeys[k].secretAccessKey)
    ensures !UsesUserKey(id, headers) ==> forall i: nat :: FirstSession(dir.assumedRoles, id, i) && r.Success? ==>
      r.value == AssumedRoleAccessKey(id, dir.assumedRoles[i].secretAccessKey, dir.assumedRoles[i].sessionToken,
                                      RoleNameOf(dir.assumedRoles[i].arn), dir.assumedRoles[i].sessionName)
    ensures UsesUserKey(id, headers) ==> r == UserKeyFor(dir.users, id, headers)
    ensures !UsesUserKey(id, headers) ==> r == AssumedRoleKeyFor(dir.assumedRoles, id, headers)
  {
    if UsesUserKey(id, headers) then UserKeyFor(dir.users, id, headers)
    else AssumedRoleKeyFor(dir.assumedRoles, id, headers)
  }

  /** `create_access_key`, running the scans of the two constructors. */
  method CreateAccessKey(dir: Directory, id: string, headers: Headers) returns (r: Result<AccessKeyRef, FailureReason>)
    ensures r == AccessKeyFor(dir, id, headers)
  {
    if StartsWith(id, UserKeyPrefix) || SecurityTokenHeader !in headers {
      r := NewIamUserAccessKey(dir.users, id, headers);
    } else {
      r := NewAssumedRoleAccessKey(dir.assumedRoles, id, headers);
    }
  }

  /**
   * A key id looked up among users (it has the user prefix, or no security
   * token comes with it) resolves, without a token, to the first user holding
   * it and the secret of that user's first key with the id; with a token it
   * is an invalid token.
   */
  lemma LongTermKeyResolution(dir: Directory, id: string, headers: Headers, i: nat, k: nat)
    requires UsesUserKey(id, headers)
    requires FirstOwner(dir.users, id, i) && FirstKey(dir.users[i].accessKeys, id, k)
    ensures SecurityTokenHeader !in headers ==>
      AccessKeyFor(dir, id, headers) == Success(UserAccessKey(dir.users[i].name, id, dir.users[i].accessKeys[k].secretAccessKey))
    ensures SecurityTokenHeader in headers ==> AccessKeyFor(dir, id, headers) == Failure(InvalidToken)
  {
    var r := AccessKeyFor(dir, id, headers);
    if SecurityTokenHeader !in headers {
      var i': nat, k': nat :| FirstOwner(dir.users, id, i') && FirstKey(dir.users[i'].accessKeys, id, k') &&
        r.value == UserAccessKey(dir.users[i'].name, id, dir.users[i'].accessKeys[k'].secretAccessKey);
      assert i' == i;
      assert k' == k;
    }
  }

  /**
   * A temporary key id (not `AKIA`) sent with a security token is looked up
   * among sessions only: it is an invalid id when no session has it, even if
   * a user holds it; an invalid token when the first session with it has
   * another token; and otherwise that session's key.
   */
  lemma SessionKeyResolution(dir: Directory, id: string, headers: Headers)
    requires !StartsWith(id, UserKeyPrefix) && SecurityTokenHeader in headers
    ensures (forall j :: 0 <= j < |dir.assumedRoles| ==> dir.assumedRoles[j].accessKeyId != id) ==>
      AccessKeyFor(dir, id, headers) == Failure(InvalidId)
    ensures forall i: nat :: FirstSession(dir.assumedRoles, id, i) ==>
      var s := dir.assumedRoles[i];
      AccessKeyFor(dir, id, headers) ==
        if headers[SecurityTokenHeader] != s.sessionToken then Failure(InvalidToken)
        else Success(AssumedRoleAccessKey(id, s.secretAccessKey, s.sessionToken, RoleNameOf(s.arn), s.sessionName))
  {
    forall i: nat | FirstSession(dir.assumedRoles, id, i)
      ensures
        var s := dir.assumedRoles[i];
        AccessKeyFor(dir, id, headers) ==
          if headers[SecurityTokenHeader] != s.sessionToken then Failure(InvalidToken)
          else Success(AssumedRoleAccessKey(id, s.secretAccessKey, s.sessionToken, RoleNameOf(s.arn), s.sessionName))
    {
      var r := AssumedRoleKeyFor(dir.assumedRoles, id, headers);
      assert r.Failure? ==> r.error == InvalidId || r.error == InvalidToken;
    }
  }

  /** An id that no user holds and no session was issued under is an invalid id, whatever the headers. */
  lemma UnknownKeyIsInvalidId(dir: Directory, id: string, headers: Headers)
    requires forall j :: 0 <= j < |dir.users| ==> !OwnsKey(dir.users[j], id)
    requires forall j :: 0 <= j < |dir.assumedRoles| ==> dir.assumedRoles[j].accessKeyId != id
    ensures AccessKeyFor(dir, id, headers) == Failure(InvalidId)
  {
  }

  // ----------------------------------------------------------------------- ARNs

  /** The fixed part of a user ARN before the user name. */
  const UserArnHead := "arn:aws:iam::" + AccountId + ":user"
  const UserArnPrefix := UserArnHead + ['/']
  /** The fixed part of an assumed-role ARN before the role name. */
  const AssumedRoleArnHead := "arn:aws:sts::" + AccountId + ":assumed-role"
  const AssumedRoleArnPrefix := AssumedRoleArnHead + ['/']

  /** The `arn` of a user key: the account's user ARN, whose last segment is the user name. */
  function UserArn(userName: string): (r: string)
    ensures StartsWith(r, UserArnPrefix) && r[|UserArnPrefix|..] == userName
    ensures '/' !in userName ==> LastSegment(r, '/') == userName
  {
    if '/' !in userName then LastSegmentAfter(UserArnHead, '/', userName); UserArnHead + ['/'] + userName
    else UserArnHead + ['/'] + userName
  }

  /** The `arn` of an assumed-role key: role name, then session name, the last segment. */
  function AssumedRoleArn(roleName: string, sessionName: string): (r: string)
    ensures StartsWith(r, AssumedRoleArnPrefix) && r[|AssumedRoleArnPrefix|..] == roleName + ['/'] + sessionName
    ensures '/' !in sessionName ==> LastSegment(r, '/') == sessionName
  {
    var r := AssumedRoleArnHead + ['/'] + (roleName + ['/'] + sessionName);
    assert r == (AssumedRoleArnHead + ['/'] + roleName) + ['/'] + sessionName;
    if '/' !in sessionName then LastSegmentAfter(AssumedRoleArnHead + ['/'] + roleName, '/', sessionName); r
    else r
  }

  /** The `arn` property of either kind of key. */
  function Arn(key: AccessKeyRef): (r: string)
    ensures key.UserAccessKey? ==> StartsWith(r, UserArnPrefix)
    ensures key.AssumedRoleAccessKey? ==> StartsWith(r, AssumedRoleArnPrefix)
    ensures key.UserAccessKey? ==> r == UserArn(key.ownerUserName)
    ensures key.AssumedRoleAccessKey? ==> r == AssumedRoleArn(key.ownerRoleName, key.sessionName)
  {
    match key
    case UserAccessKey(name, _, _) => UserArn(name)
    case AssumedRoleAccessKey(_, _, _, role, session) => AssumedRoleArn(role, session)
  }

  /** A user ARN splits back into its fixed part and the user name. */
  lemma UserArnSegments(userName: string)
    requires '/' !in userName
    ensures Split(UserArn(userName), '/') == [UserArnHead, userName]
  {
    assert '/' !in UserArnHead;
    SplitAppend(UserArnHead, '/', userName);
    SplitWithoutSeparator(UserArnHead, '/');
    SplitWithoutSeparator(userName, '/');
  }

  /** An assumed-role ARN splits back into its fixed part, the role name and the session name. */
  lemma AssumedRoleArnSegments(roleName: string, sessionName: string)
    requires '/' !in roleName && '/' !in sessionName
    ensures Split(AssumedRoleArn(roleName, sessionName), '/') == [AssumedRoleArnHead, roleName, sessionName]
  {
    assert '/' !in AssumedRoleArnHead;
    SplitAppend(AssumedRoleArnHead, '/', roleName + ['/'] + sessionName);
    SplitAppend(roleName, '/', sessionName);
    SplitWithoutSeparator(AssumedRoleArnHead, '/');
    SplitWithoutSeparator(roleName, '/');
    SplitWithoutSeparator(sessionName, '/');
  }

  /** The role name taken from a role ARN is the name after its last `/`, whatever path precedes it. */
  lemma RoleNameFromRoleArn(pathPrefix: string, roleName: string)
    requires '/' !in roleName
    ensures RoleNameOf(pathPrefix + "/" + roleName) == roleName
  {
    assert pathPrefix + "/" + roleName == pathPrefix + ['/'] + roleName;
    LastSegmentAfter(pathPrefix, '/', roleName);
  }

  // ------------------------------------------------------------------ policies

  function InlinePolicies(docs: seq<PolicyDocument>): (ps: seq<StoredPolicy>)
    ensures |ps| == |docs|
    ensures forall i :: 0 <= i < |docs| ==> ps[i] == Inline(docs[i])
  {
    seq(|docs|, i requires 0 <= i < |docs| => Inline(docs[i]))
  }

  function AttachedPolicies(mps: seq<ManagedPolicy>): (ps: seq<StoredPolicy>)
    ensures |ps| == |mps|
    ensures forall i :: 0 <= i < |mps| ==> ps[i] == Managed(mps[i])
  {
    seq(|mps|, i requires 0 <= i < |mps| => Managed(mps[i]))
  }

  /** An entity's own policies: its inline ones first, then its attached ones. */
  function OwnPolicies(inline: seq<PolicyDocument>, attached: seq<ManagedPolicy>): (ps: seq<StoredPolicy>)
    ensures |ps| == |inline| + |attached|
    ensures forall i :: 0 <= i < |inline| ==> ps[i] == Inline(inline[i])
    ensures forall i :: 0 <= i < |attached| ==> ps[|inline| + i] == Managed(attached[i])
  {
    InlinePolicies(inline) + AttachedPolicies(attached)
  }

  /** The groups a user belongs to, in directory order. */
  function GroupsForUser(groups: seq<Group>, userName: string): (gs: seq<Group>)
    ensures forall g :: g in gs <==> g in groups && userName in g.members
  {
    if groups == [] then []
    else
      var rest := GroupsForUser(groups[1..], userName);
      assert forall g :: g in groups <==> g == groups[0] || g in groups[1..];
      if userName in groups[0].members then [groups[0]] + rest else rest
  }

  /** A user who is a member of no group gets no group. */
  lemma {:induction false} NoGroupsForNonMember(groups: seq<Group>, userName: string)
    requires forall g :: g in groups ==> userName !in g.members
    ensures GroupsForUser(groups, userName) == []
  {
    if groups != [] {
      assert groups[0] in groups;
      NoGroupsForNonMember(groups[1..], userName);
    }
  }

  /** The policies of a list of groups, group after group, each inline before attached. */
  function GroupPolicies(gs: seq<Group>): seq<StoredPolicy> {
    if gs == [] then []
    else
      var last := gs[|gs| - 1];
      GroupPolicies(gs[..|gs| - 1]) + OwnPolicies(last.inlinePolicies, last.attachedPolicies)
  }

  /** One group contributes exactly its own policies, inline ones first. */
  lemma GroupPoliciesSingle(g: Group)
    ensures GroupPolicies([g]) == OwnPolicies(g.inlinePolicies, g.attachedPolicies)
  {
    assert [g][..0] == [];
  }

  /** Groups are collected one after another, in the order they are listed. */
  lemma {:induction false} GroupPoliciesAppend(gs: seq<Group>, hs: seq<Group>)
    ensures GroupPolicies(gs + hs) == GroupPolicies(gs) + GroupPolicies(hs)
    decreases |hs|
  {
    if hs == [] {
      assert gs + hs == gs;
    } else {
      var init, last := hs[..|hs| - 1], hs[|hs| - 1];
      var own := OwnPolicies(last.inlinePolicies, last.attachedPolicies);
      var all := gs + hs;
      assert all[..|all| - 1] == gs + init;
      assert all[|all| - 1] == last;
      assert GroupPolicies(all) == GroupPolicies(gs + init) + own;
      assert GroupPolicies(hs) == GroupPolicies(init) + own;
      GroupPoliciesAppend(gs, init);
    }
  }

  function FindUser(users: seq<User>, name: string): (r: Option<User>)
    ensures r.Some? ==> r.value in users && r.value.name == name
    ensures r.None? ==> forall u :: u in users ==> u.name != name
  {
    if users == [] then None
    else if users[0].name == name then Some(users[0])
    else FindUser(users[1..], name)
  }

  function FindRole(roles: seq<Role>, name: string): (r: Option<Role>)
    ensures r.Some? ==> r.value in roles && r.value.name == name
    ensures r.None? ==> forall g :: g in roles ==> g.name != name
  {
    if roles == [] then None
    else if roles[0].name == name then Some(roles[0])
    else FindRole(roles[1..], name)
  }

  /**
   * What a user key's `collect_policies` returns: the user's inline, then
   * attached policies, then for each of its groups that group's inline, then
   * attached policies. A user unknown to the directory is a lookup failure
   * (carrying the missing name).
   */
  function UserPolicies(dir: Directory, userName: string): (r: Result<seq<StoredPolicy>, string>)
    ensures r.Failure? <==> FindUser(dir.users, userName).None?
    ensures r.Failure? ==> r.error == userName
    ensures r.Success? ==>
      var u := FindUser(dir.users, userName).value;
      var own := OwnPolicies(u.inlinePolicies, u.attachedPolicies);
      |own| <= |r.value| && r.value[..|own|] == own
  {
    match FindUser(dir.users, userName)
    case None => Failure(userName)
    case Some(u) =>
      Success(OwnPolicies(u.inlinePolicies, u.attachedPolicies) + GroupPolicies(GroupsForUser(dir.groups, userName)))
  }

  /** What an assumed-role key's `collect_policies` returns: the role's inline, then attached policies. */
  function RolePolicies(dir: Directory, roleName: string): (r: Result<seq<StoredPolicy>, string>)
    ensures r.Failure? <==> FindRole(dir.roles, roleName).None?
    ensures r.Failure? ==> r.error == roleName
    ensures r.Success? ==>
      var role := FindRole(dir.roles, roleName).value;
      r.value == OwnPolicies(role.inlinePolicies, role.attachedPolicies)
  {
    match FindRole(dir.roles, roleName)
    case None => Failure(roleName)
    case Some(role) => Success(OwnPolicies(role.inlinePolicies, role.attachedPolicies))
  }

  /** `collect_policies` of either kind of key; a failure names the missing user or role. */
  function CollectedPolicies(dir: Directory, key: AccessKeyRef): (r: Result<seq<StoredPolicy>, string>)
    ensures key.UserAccessKey? ==>
      (r.Failure? <==> FindUser(dir.users, key.ownerUserName).None?) &&
      (r.Failure? ==> r.error == key.ownerUserName)
    ensures key.AssumedRoleAccessKey? ==>
      (r.Failure? <==> FindRole(dir.roles, key.ownerRoleName).None?) &&
      (r.Failure? ==> r.error == key.ownerRoleName)
  {
    match key
    case UserAccessKey(name, _, _) => UserPolicies(dir, name)
    case AssumedRoleAccessKey(_, _, _, role, _) => RolePolicies(dir, role)
  }

  /** A user no group lists is governed by its own policies alone. */
  lemma UngroupedUserPolicies(dir: Directory, u: User)
    requires FindUser(dir.users, u.name) == Some(u)
    requires forall g :: g in dir.groups ==> u.name !in g.members
    ensures UserPolicies(dir, u.name) == Success(OwnPolicies(u.inlinePolicies, u.attachedPolicies))
  {
    NoGroupsForNonMember(dir.groups, u.name);
    var own := OwnPolicies(u.inlinePolicies, u.attachedPolicies);
    assert own + GroupPolicies([]) == own;
  }

  /** An ungrouped user with one inline policy and nothing attached is governed by that policy alone. */
  lemma SingleInlineUserPolicies(dir: Directory, u: User)
    requires FindUser(dir.users, u.name) == Some(u)
    requires forall g :: g in dir.groups ==> u.name !in g.members
    requires |u.inlinePolicies| == 1 && u.attachedPolicies == []
    ensures UserPolicies(dir, u.name) == Success([Inline(u.inlinePolicies[0])])
  {
    UngroupedUserPolicies(dir, u);
    assert InlinePolicies(u.inlinePolicies) == [Inline(u.inlinePolicies[0])];
  }

  /** A policy of a list of groups is a policy of one of them, and every one of theirs is included. */
  lemma {:induction false} GroupPoliciesMembers(gs: seq<Group>, p: StoredPolicy)
    ensures p in GroupPolicies(gs) <==> exists g :: g in gs && p in OwnPolicies(g.inlinePolicies, g.attachedPolicies)
  {
    if gs != [] {
      var init := gs[..|gs| - 1];
      GroupPoliciesMembers(init, p);
      assert gs == init + [gs[|gs| - 1]];
      assert forall g :: g in gs <==> g in init || g == gs[|gs| - 1];
    }
  }

  /**
   * A user's collected policies are exactly the user's own and those of the
   * groups it is a member of: none is dropped and none is added.
   */
  lemma UserPoliciesMembers(dir: Directory, u: User, p: StoredPolicy)
    requires FindUser(dir.users, u.name) == Some(u)
    ensures UserPolicies(dir, u.name).Success?
    ensures p in UserPolicies(dir, u.name).value <==>
      p in OwnPolicies(u.inlinePolicies, u.attachedPolicies) ||
      exists g :: g in dir.groups && u.name in g.members && p in OwnPolicies(g.inlinePolicies, g.attachedPolicies)
  {
    var gs := GroupsForUser(dir.groups, u.name);
    GroupPoliciesMembers(gs, p);
  }

  /**
   * The user branch of `collect_policies` as the lines listing a group's
   * policies are written: the group's inline policies are listed by passing
   * the group itself where the directory looks groups up by name, so the
   * lookup for the first group of a grouped user fails (carrying that
   * group's name here). Only an ungrouped user gets a policy list.
   */
  function UserPoliciesAsWritten(dir: Directory, userName: string): (r: Result<seq<StoredPolicy>, string>)
    ensures r.Success? <==> FindUser(dir.users, userName).Some? && GroupsForUser(dir.groups, userName) == []
    ensures FindUser(dir.users, userName).None? ==> r == Failure(userName)
    ensures r.Success? ==> r == UserPolicies(dir, userName)
  {
    match FindUser(dir.users, userName)
    case None => Failure(userName)
    case Some(u) =>
      var gs := GroupsForUser(dir.groups, userName);
      if gs != [] then Failure(gs[0].name)
      else
        var own := OwnPolicies(u.inlinePolicies, u.attachedPolicies);
        assert own + GroupPolicies([]) == own;
        Success(own)
  }

  /**
   * The discrepancy: a known user who belongs to a group `g` gets no policy
   * list from the code as written, while the intended collection succeeds and
   * includes every policy of `g`.
   */
  lemma GroupedUserCollectionAsWritten(dir: Directory, u: User, g: Group)
    requires FindUser(dir.users, u.name) == Some(u)
    requires g in dir.groups && u.name in g.members
    ensures UserPoliciesAsWritten(dir, u.name).Failure?
    ensures UserPolicies(dir, u.name).Success?
    ensures forall p :: p in OwnPolicies(g.inlinePolicies, g.attachedPolicies) ==> p in UserPolicies(dir, u.name).value
  {
    assert g in GroupsForUser(dir.groups, u.name);
    forall p | p in OwnPolicies(g.inlinePolicies, g.attachedPolicies)
      ensures p in UserPolicies(dir, u.name).value
    {
      UserPoliciesMembers(dir, u, p);
    }
  }

  /** Adding `docs` as inline policies one at a time extends the list by their stored form. */
  lemma InlinePoliciesStep(docs: seq<PolicyDocument>, i: nat)
    requires i < |docs|
    ensures InlinePolicies(docs[..i + 1]) == InlinePolicies(docs[..i]) + [Inline(docs[i])]
  {
    assert docs[..i + 1][..i] == docs[..i];
  }

  /**
   * One entity's share of `collect_policies`: append its inline policies one
   * by one, then its attached policies in one go.
   */
  method AppendOwnPolicies(policies: seq<StoredPolicy>, inline: seq<PolicyDocument>, attached: seq<ManagedPolicy>)
    returns (r: seq<StoredPolicy>)
    ensures r == policies + OwnPolicies(inline, attached)
  {
    r := policies;
    var i := 0;
    while i < |inline|
      invariant 0 <= i <= |inline|
      invariant r == policies + InlinePolicies(inline[..i])
    {
      InlinePoliciesStep(inline, i);
      r := r + [Inline(inline[i])];
      i := i + 1;
    }
    assert inline[..i] == inline;
    r := r + AttachedPolicies(attached);
  }

  /** Adding one more group's own policies extends the collected list by exactly them. */
  lemma GroupPoliciesStep(gs: seq<Group>, j: nat, own: seq<StoredPolicy>)
    requires j < |gs|
    ensures own + GroupPolicies(gs[..j]) + OwnPolicies(gs[j].inlinePolicies, gs[j].attachedPolicies)
      == own + GroupPolicies(gs[..j + 1])
  {
    assert gs[..j + 1][..j] == gs[..j];
  }

  /** `IAMUserAccessKey.collect_policies`, appending in the order the source does. */
  method CollectUserPolicies(dir: Directory, userName: string) returns (r: Result<seq<StoredPolicy>, string>)
    ensures r == UserPolicies(dir, userName)
  {
    var found := FindUser(dir.users, userName);
    if found.None? {
      return Failure(userName);
    }
    var user := found.value;
    ghost var own := OwnPolicies(user.inlinePolicies, user.attachedPolicies);
    var policies := AppendOwnPolicies([], user.inlinePolicies, user.attachedPolicies);
    assert policies == own + GroupPolicies([]);
    var groups := GroupsForUser(dir.groups, userName);
    var j := 0;
    while j < |groups|
      invariant 0 <= j <= |groups|
      invariant policies == own + GroupPolicies(groups[..j])
    {
      var group := groups[j];
      policies := AppendOwnPolicies(policies, group.inlinePolicies, group.attachedPolicies);
      GroupPoliciesStep(groups, j, own);
      j := j + 1;
    }
    assert groups[..j] == groups;
    return Success(policies);
  }

  /** `AssumedRoleAccessKey.collect_policies`. */
  method CollectRolePolicies(dir: Directory, roleName: string) returns (r: Result<seq<StoredPolicy>, string>)
    ensures r == RolePolicies(dir, roleName)
  {
    var found := FindRole(dir.roles, roleName);
    if found.None? {
      return Failure(roleName);
    }
    var role := found.value;
    var policies := AppendOwnPolicies([], role.inlinePolicies, role.attachedPolicies);
    assert [] + OwnPolicies(role.inlinePolicies, role.attachedPolicies) == OwnPolicies(role.inlinePolicies, role.attachedPolicies);
    return Success(policies);
  }

  /** `collect_policies` of whichever kind of key was resolved. */
  method CollectPolicies(dir: Directory, key: AccessKeyRef) returns (r: Result<seq<StoredPolicy>, string>)
    ensures r == CollectedPolicies(dir, key)
  {
    match key
    case UserAccessKey(name, _, _) =>
      r := CollectUserPolicies(dir, name);
    case AssumedRoleAccessKey(_, _, _, role, _) =>
      r := CollectRolePolicies(dir, role);
  }
}
