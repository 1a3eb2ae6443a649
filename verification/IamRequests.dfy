/**
 What each native request does: the checks it makes under the store lock, in the order the
 server makes them, and the steps it then performs.
 */
module IamRequests {
  import opened Lex
  import opened IamGraph
  import opened IamPlans

  /** Time and the verdict of the permission guards, both taken under the lock. */
  datatype Context = Context(now: int, authorized: bool)

  datatype Draft = Draft(token: string, expires: int)

  datatype UserAction = EnableUser | DisableUser | DeleteUser
  datatype GroupAction = AddMembers | RemoveMembers | EnableGroup | DisableGroup | DeleteGroup

  /** `signed` is the outcome of parsing, bounding and signing a replacement session policy. */
  datatype ServiceAction =
    | EnableService | DisableService | DeleteService
    | RotateService(secret: string)
    | RestrictService(signed: Result<string>)

  // ---- Policy binding revisions ----

  function PolicyList(m: map<string, Policies>, name: string): Policies {
    if name in m then m[name] else []
  }

  function BoundGroupOf(g: Graph, name: string): BoundGroup {
    var info := if name in g.groups then g.groups[name] else GroupInfo("", []);
    BoundGroup(info.status, multiset(info.members), multiset(PolicyList(g.groupPolicies, name)))
  }

  function GroupViews(g: Graph, names: set<string>): map<string, BoundGroup> {
    map n | n in names :: BoundGroupOf(g, n)
  }

  function UserView(g: Graph, target: string): BindingView
    requires target in g.users
  {
    var policies := multiset(PolicyList(g.userPolicies, target));
    UserBinding(target, policies, g.users[target], g.Index(target), GroupViews(g, g.Index(target)))
  }

  function Bindings(env: Env, g: Graph, kind: Kind, target: string): Result<string> {
    if !ValidName(target) then Err(ActionNotAllowed)
    else match kind
      case UserKind =>
        if target !in g.users then Err(NoSuchUser)
        else if target == env.root || !g.users[target].IsRegular() then Err(ActionNotAllowed)
        else Ok(env.sealBinding(UserView(g, target)))
      case GroupKind =>
        if target !in g.groups then Err(NoSuchGroup)
        else
          var policies := multiset(PolicyList(g.groupPolicies, target));
          Ok(env.sealBinding(GroupBinding(target, policies, BoundGroupOf(g, target))))
      case ServiceKind => Err(InvalidArgument)
  }

  // ---- Service-account creation proofs ----

  /** Evidence gathered while the request body is still in flight. `epoch` is the 64-bit counter. */
  datatype Proof = Proof(
    epoch: nat, actorKey: string, actorSecret: string,
    parent: string, parentCredential: Credential, draft: Result<Draft>)

  datatype Minted = Minted(accessKey: string, secretKey: string, sessionToken: string)

  /** `key` is the explicitly requested access key, or empty; `minted` the generated credential;
      `contained` the verdict of the session-policy escalation check. */
  datatype ServiceSpec = ServiceSpec(
    key: string, groups: seq<string>, minted: Result<Minted>, contained: bool,
    guardKey: string, guardSecret: string, caller: string)

  function CaptureService(g: Graph, ctx: Context, actor: Credential): Result<Proof> {
    if !ctx.authorized then Err(ActionNotAllowed)
    else Ok(Proof(g.epoch % EPOCH_MODULUS, actor.accessKey, actor.secretKey, "", actor, Err(InvalidArgument)))
  }

  function CaptureParent(env: Env, g: Graph, ctx: Context, proof: Proof, parent: string): Result<Proof> {
    if proof.epoch != g.epoch % EPOCH_MODULUS || parent !in g.users || parent == env.root then Err(ActionNotAllowed)
    else
      var c := g.users[parent];
      if !c.IsValid(ctx.now) || c.status == ACCOUNT_OFF || !c.IsRegular() || c.parentUser != "" then
        Err(ActionNotAllowed)
      else Ok(proof.(parent := parent, parentCredential := c))
  }

  // ---- Requests ----

  datatype Request =
    | UserRequest(userAction: UserAction, target: string, draft: Draft)
    | GroupRequest(groupAction: GroupAction, target: string, members: seq<string>, draft: Draft)
    | ServiceRequest(serviceAction: ServiceAction, target: string, draft: Draft)
    | BindRequest(kind: Kind, target: string, binding: string, policies: seq<string>, draft: Draft)
    | UserSecretRequest(target: string, secret: string, binding: string, draft: Draft)
    | CreateUser(target: string, secret: string)
    | CreateGroup(target: string, members: seq<string>)
    | RotateSecret(target: string, secret: string)
    | ReplaceBindings(kind: Kind, target: string, binding: string, policies: seq<string>)
    | RotateSelf(target: string, expected: string, secret: string)
    | CreateService(proof: Proof, spec: ServiceSpec)

  predicate InWindow(ctx: Context, expires: int) {
    ctx.now < expires <= ctx.now + DRAFT_LIFETIME
  }

  function DraftCheck(env: Env, g: Graph, ctx: Context, kind: Kind, target: string, draft: Draft): Result<bool> {
    if !ctx.authorized then Err(ActionNotAllowed)
    else if !InWindow(ctx, draft.expires) then Err(Conflict)
    else
      var token :- TokenOf(env, g, kind, target, draft.expires);
      if token != draft.token then Err(Conflict) else Ok(true)
  }

  // ---- Canonical lists of names ----

  /** At most a hundred valid distinct names, sorted. */
  function CanonicalNames(names: seq<string>): Result<seq<string>> {
    var sorted := SortBy(Self, names);
    if || |names| > 100
       || exists i :: 0 <= i < |sorted| && (!ValidName(sorted[i]) || (i > 0 && sorted[i] == sorted[i - 1]))
    then Err(InvalidArgument)
    else Ok(sorted)
  }

  lemma SortedMembers(names: seq<string>)
    ensures forall n :: n in SortBy(Self, names) <==> n in names
    ensures Distinct(SortBy(Self, names)) <==> Distinct(names)
  {
    var sorted := SortBy(Self, names);
    forall n ensures n in sorted <==> n in names {
      assert n in sorted <==> n in multiset(sorted);
      assert n in names <==> n in multiset(names);
    }
    if Distinct(names) {
      forall x ensures multiset(sorted)[x] <= 1 { DistinctCount(names, x); }
      DistinctFromCount(sorted);
    }
    if Distinct(sorted) {
      forall x ensures multiset(names)[x] <= 1 { DistinctCount(sorted, x); }
      DistinctFromCount(names);
    }
  }

  lemma CanonicalNamesAccepts(names: seq<string>)
    ensures CanonicalNames(names).Ok? <==>
            |names| <= 100 && Distinct(names) && forall n :: n in names ==> ValidName(n)
    ensures CanonicalNames(names).Ok? ==> CanonicalNames(names).value == SortedOf(set n | n in names)
  {
    var sorted := SortBy(Self, names);
    SortBySorted(Self, names);
    SortedMembers(names);
    if Distinct(names) {
      SortEnumerates(names, set n | n in names);
      if n :| n in names && !ValidName(n) {
        assert n in sorted;
        var i :| 0 <= i < |sorted| && sorted[i] == n;
      }
    } else {
      AdjacentDuplicate(sorted);
    }
  }

  /** In a sorted list equal names are neighbours, so comparing neighbours finds every duplicate. */
  lemma AdjacentDuplicate(sorted: seq<string>)
    requires SortedBy(Self, sorted) && !Distinct(sorted)
    ensures exists i :: 0 < i < |sorted| && sorted[i] == sorted[i - 1]
  {
    var i, j :| 0 <= i < j < |sorted| && sorted[i] == sorted[j];
    if j > i + 1 {
      assert Le(Self(sorted[i]), Self(sorted[i + 1])) && Le(Self(sorted[i + 1]), Self(sorted[j]));
      LeAntisymmetric(sorted[i], sorted[i + 1]);
    }
    assert sorted[i + 1] == sorted[i + 1 - 1];
  }

  /** Members are looked up one by one; the first that is no regular user decides the error. */
  function MembersCheck(g: Graph, members: seq<string>): (r: Result<bool>)
    ensures r.Ok? <==> forall m :: m in members ==> m in g.users && g.users[m].IsRegular()
  {
    if members == [] then Ok(true)
    else if members[0] !in g.users then assert members[0] in members; Err(NoSuchUser)
    else if !g.users[members[0]].IsRegular() then assert members[0] in members; Err(ActionNotAllowed)
    else
      assert forall m :: m in members <==> m == members[0] || m in members[1..];
      MembersCheck(g, members[1..])
  }

  // ---- Deleting a user ----

  ghost function Holding(g: Graph, user: string): set<string> {
    set n | n in g.groups && (n in g.Index(user) || g.Listed(user, n))
  }

  ghost function Children(g: Graph, user: string): set<string> {
    set k | k in g.users && g.users[k].parentUser == user
  }

  function LeaveStep(g: Graph, user: string, group: string): Step
    requires group in g.groups
  {
    LeaveGroup(group, g.groups[group].(members := Without(g.groups[group].members, user)), user)
  }

  function LeavePlan(g: Graph, user: string, groups: seq<string>): seq<Step>
    requires forall n :: n in groups ==> n in g.groups
  {
    if groups == [] then [] else [LeaveStep(g, user, groups[0])] + LeavePlan(g, user, groups[1..])
  }

  function ChildSteps(g: Graph, child: string): seq<Step>
    requires child in g.users
  {
    var kind := if g.users[child].IsTemp() then Sts else Service;
    (if child in g.userPolicies then [DropMapping(if kind == Sts then Sts else Regular, child)] else [])
    + [DropIdentity(kind, child)]
  }

  function ChildPlan(g: Graph, children: seq<string>): seq<Step>
    requires forall k :: k in children ==> k in g.users
  {
    if children == [] then [] else ChildSteps(g, children[0]) + ChildPlan(g, children[1..])
  }

  /** Groups first, then linked credentials, then the user: nothing is ever left dangling. */
  ghost function DeletePlan(g: Graph, user: string): seq<Step> {
    LeavePlan(g, user, SortedOf(Holding(g, user)))
    + ChildPlan(g, SortedOf(Children(g, user)))
    + [DropMapping(Regular, user), DropIdentity(Regular, user)]
  }

  ghost function UserPlan(env: Env, g: Graph, ctx: Context, action: UserAction, target: string, draft: Draft):
    Result<seq<Step>>
  {
    if !ValidName(target) then Err(InvalidArgument)
    else
      var _ :- DraftCheck(env, g, ctx, UserKind, target, draft);
      var _ :- Impact(env, g, UserKind, target);
      if g.users[target].parentUser != "" then Err(ActionNotAllowed)
      else if exists k :: k in Children(g, target) && g.users[k].IsRegular() then Err(ActionNotAllowed)
      else match action
        case DeleteUser => Ok(DeletePlan(g, target))
        case EnableUser => Ok([SaveIdentity(Regular, target, g.users[target].(status := ACCOUNT_ON), true)])
        case DisableUser => Ok([SaveIdentity(Regular, target, g.users[target].(status := ACCOUNT_OFF), true)])
  }

  // ---- Groups ----

  /** The saved record lists the new members sorted and without repetition. */
  ghost function GroupEdit(group: GroupInfo, action: GroupAction, target: string, names: seq<string>): Step
    requires !action.DeleteGroup?
  {
    var now, asked := (set m | m in group.members), (set m | m in names);
    match action
    case AddMembers => SaveGroup(target, group.(members := SortedOf(now + asked)), asked, {}, false)
    case RemoveMembers => SaveGroup(target, group.(members := SortedOf(now - asked)), {}, asked, false)
    case EnableGroup => SaveGroup(target, GroupInfo(STATUS_ENABLED, SortedOf(now)), {}, {}, false)
    case DisableGroup => SaveGroup(target, GroupInfo(STATUS_DISABLED, SortedOf(now)), {}, {}, false)
  }

  ghost function GroupPlan(env: Env, g: Graph, ctx: Context, action: GroupAction, target: string,
                           members: seq<string>, draft: Draft): Result<seq<Step>>
  {
    if !ValidName(target) || ((action.AddMembers? || action.RemoveMembers?) <==> members == []) then
      Err(InvalidArgument)
    else
      var names :- CanonicalNames(members);
      var _ :- DraftCheck(env, g, ctx, GroupKind, target, draft);
      var _ :- Impact(env, g, GroupKind, target);
      var _ :- MembersCheck(g, names);
      GroupSteps(g.groups[target], action, target, names)
  }

  ghost function GroupSteps(group: GroupInfo, action: GroupAction, target: string,
                            names: seq<string>): Result<seq<Step>> {
    if !action.DeleteGroup? then Ok([GroupEdit(group, action, target, names)])
    else if group.members != [] then Err(GroupNotEmpty)
    else Ok([DropGroupMapping(target), DropGroup(target)])
  }

  ghost function CreateGroupPlan(g: Graph, ctx: Context, target: string, members: seq<string>): Result<seq<Step>> {
    if !ValidName(target) || !ctx.authorized then Err(ActionNotAllowed)
    else if |members| > 100 then Err(InvalidArgument)
    else if target in g.groups then Err(CreateExists)
    else
      var names :- CanonicalNames(members);
      var _ :- MembersCheck(g, names);
      Ok([SaveGroup(target, GroupInfo(STATUS_ENABLED, names), set m | m in names, {}, true)])
  }

  // ---- Service accounts ----

  predicate ValidSecret(secret: string) {
    8 <= Utf8Len(secret) <= 128 && forall c :: c in secret ==> c !in {'\0', '\r', '\n'}
  }

  function ServiceEdit(c: Credential, action: ServiceAction): (r: Result<Credential>)
    ensures r.Ok? ==>
              r.value
              == c.(status := r.value.status, secretKey := r.value.secretKey, sessionToken := r.value.sessionToken)
  {
    match action
    case EnableService => Ok(c.(status := ACCOUNT_ON))
    case DisableService => Ok(c.(status := ACCOUNT_OFF))
    case RotateService(secret) => if secret == c.secretKey then Err(InvalidArgument) else Ok(c.(secretKey := secret))
    case RestrictService(signed) =>
      var token :- signed;
      Ok(c.(sessionToken := token))
    case DeleteService => Ok(c)
  }

  /** `claims` says whether a session token decodes to this parent and a known policy kind. */
  ghost function ServicePlan(env: Env, claims: Credential -> bool, g: Graph, ctx: Context, action: ServiceAction,
                             target: string, draft: Draft): Result<seq<Step>>
  {
    if !ValidName(target) || (action.RotateService? && !ValidSecret(action.secret)) then Err(InvalidArgument)
    else
      var _ :- DraftCheck(env, g, ctx, ServiceKind, target, draft);
      var _ :- Impact(env, g, ServiceKind, target);
      if !claims(g.users[target]) then Err(ActionNotAllowed) else ServiceSteps(g.users[target], action, target)
  }

  function ServiceSteps(c: Credential, action: ServiceAction, target: string): Result<seq<Step>> {
    if action.DeleteService? then Ok([DropMapping(Regular, target), DropIdentity(Service, target)])
    else
      var edited :- ServiceEdit(c, action);
      Ok([SaveIdentity(Service, target, edited, false)])
  }

  function CreateServicePlan(env: Env, g: Graph, ctx: Context, proof: Proof, spec: ServiceSpec): Result<seq<Step>> {
    var _ :- if proof.draft.Ok? then DraftCheck(env, g, ctx, UserKind, proof.parent, proof.draft.value)
             else if !ctx.authorized then Err(ActionNotAllowed) else Ok(true);
    if || proof.epoch != g.epoch % EPOCH_MODULUS || spec.guardKey != proof.actorKey
       || spec.guardSecret != proof.actorSecret
       || proof.parent == "" || spec.caller != proof.actorKey
    then Err(ActionNotAllowed)
    else if proof.parent !in g.users || g.users[proof.parent] != proof.parentCredential then Err(ActionNotAllowed)
    else if !spec.contained then Err(ActionNotAllowed)
    else NewServicePlan(env, g, ctx, proof.parent, spec)
  }

  function NewServicePlan(env: Env, g: Graph, ctx: Context, parent: string, spec: ServiceSpec): Result<seq<Step>>
    requires parent in g.users
  {
    var c := g.users[parent];
    if parent == env.root || !c.IsValid(ctx.now) || c.status == ACCOUNT_OFF || !c.IsRegular() || c.parentUser != ""
    then Err(ActionNotAllowed)
    else if spec.key != "" && spec.key == env.root then Err(ActionNotAllowed)
    else if spec.key != "" && spec.key in g.users then Err(CreateExists)
    else
      var minted :- spec.minted;
      var key := minted.accessKey;
      if key == env.root then Err(ActionNotAllowed)
      else if key in g.users then Err(CreateExists)
      else Ok([SaveIdentity(Service, key,
                 Credential(key, minted.secretKey, 0, minted.sessionToken, ACCOUNT_ON, parent, spec.groups), false)])
  }

  // ---- Bindings and secrets ----

  function MappingStep(g: Graph, kind: Kind, target: string, policies: seq<string>): Result<seq<Step>>
    requires kind != ServiceKind
  {
    if kind == UserKind && target !in g.users then Err(NoSuchUser)
    else if kind == GroupKind && target !in g.groups then Err(NoSuchGroup)
    else if exists p :: p in policies && p !in g.documents then Err(NoSuchPolicy)
    else Ok([if kind == UserKind then SetUserMapping(target, policies) else SetGroupMapping(target, policies)])
  }

  ghost function ReplacePlan(env: Env, g: Graph, ctx: Context, kind: Kind, target: string, binding: string,
                             policies: seq<string>): Result<seq<Step>>
  {
    var names :- CanonicalNames(policies);
    if !ctx.authorized then Err(ActionNotAllowed)
    else
      var current :- Bindings(env, g, kind, target);
      if current != binding then Err(Conflict) else MappingStep(g, kind, target, names)
  }

  /** Both the per-target revision and the whole-graph token must still be current. */
  ghost function BindPlan(env: Env, g: Graph, ctx: Context, kind: Kind, target: string, binding: string,
                          policies: seq<string>, draft: Draft): Result<seq<Step>>
  {
    var names :- CanonicalNames(policies);
    var _ :- DraftCheck(env, g, ctx, kind, target, draft);
    var current :- Bindings(env, g, kind, target);
    if current != binding then Err(Conflict)
    else
      var _ :- Impact(env, g, kind, target);
      MappingStep(g, kind, target, names)
  }

  ghost function UserSecretPlan(env: Env, g: Graph, ctx: Context, target: string, secret: string, binding: string,
                                draft: Draft): Result<seq<Step>>
  {
    if !ValidName(target) || !ValidSecret(secret) then Err(InvalidArgument)
    else
      var _ :- DraftCheck(env, g, ctx, UserKind, target, draft);
      var current :- Bindings(env, g, UserKind, target);
      if current != binding then Err(Conflict)
      else
        var _ :- Impact(env, g, UserKind, target);
        if g.users[target].secretKey == secret then Err(InvalidArgument)
        else Ok([SaveIdentity(Regular, target, g.users[target].(secretKey := secret), true)])
  }

  function CreateUserPlan(env: Env, g: Graph, ctx: Context, target: string, secret: string): Result<seq<Step>> {
    if !ValidName(target) || !ctx.authorized then Err(ActionNotAllowed)
    else if target == env.root || Utf8Len(target) < 3 || Utf8Len(secret) < 8 || Utf8Len(secret) > 128 then
      Err(InvalidArgument)
    else if target in g.users then Err(CreateExists)
    else Ok([SaveIdentity(Regular, target, Credential(target, secret, ZERO_TIME, "", ACCOUNT_ON, "", []), true)])
  }

  function RotateSecretPlan(env: Env, g: Graph, ctx: Context, target: string, secret: string): Result<seq<Step>> {
    if !ValidName(target) || !ValidSecret(secret) then Err(InvalidArgument)
    else if !ctx.authorized then Err(ActionNotAllowed)
    else if target !in g.users then Err(NoSuchUser)
    else if target == env.root || !g.users[target].IsRegular() then Err(ActionNotAllowed)
    else Ok([SaveIdentity(Regular, target, g.users[target].(secretKey := secret), true)])
  }

  /** A user changing their own secret does not move the identity epoch. */
  function RotateSelfPlan(env: Env, g: Graph, ctx: Context, target: string, expected: string, secret: string):
    Result<seq<Step>>
  {
    if target == env.root || !ValidSecret(secret) then Err(ActionNotAllowed)
    else if target !in g.users then Err(NoSuchUser)
    else
      var c := g.users[target];
      if !c.IsRegular() || c.status == ACCOUNT_OFF || !c.IsValid(ctx.now) then Err(ActionNotAllowed)
      else if c.secretKey != expected then Err(SelfSecretConflict)
      else if !ctx.authorized then Err(ActionNotAllowed)
      else if secret == expected then Err(InvalidArgument)
      else Ok([SaveIdentity(Regular, target, c.(secretKey := secret), false)])
  }

  ghost function Plan(env: Env, claims: Credential -> bool, g: Graph, ctx: Context, r: Request): Result<seq<Step>> {
    match r
    case UserRequest(action, target, draft) => UserPlan(env, g, ctx, action, target, draft)
    case GroupRequest(action, target, members, draft) => GroupPlan(env, g, ctx, action, target, members, draft)
    case ServiceRequest(action, target, draft) => ServicePlan(env, claims, g, ctx, action, target, draft)
    case BindRequest(kind, target, binding, policies, draft) =>
      BindPlan(env, g, ctx, kind, target, binding, policies, draft)
    case UserSecretRequest(target, secret, binding, draft) =>
      UserSecretPlan(env, g, ctx, target, secret, binding, draft)
    case CreateUser(target, secret) => CreateUserPlan(env, g, ctx, target, secret)
    case CreateGroup(target, members) => CreateGroupPlan(g, ctx, target, members)
    case RotateSecret(target, secret) => RotateSecretPlan(env, g, ctx, target, secret)
    case ReplaceBindings(kind, target, binding, policies) => ReplacePlan(env, g, ctx, kind, target, binding, policies)
    case RotateSelf(target, expected, secret) => RotateSelfPlan(env, g, ctx, target, expected, secret)
    case CreateService(proof, spec) => CreateServicePlan(env, g, ctx, proof, spec)
  }
}
