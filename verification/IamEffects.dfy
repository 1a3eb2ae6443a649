/**
 What each committed request has done to the graph, said without its steps: who belongs to which group, which
 credentials exist and what they hold, which policies are mapped.
 */
module IamEffects {
  import opened Lex
  import opened IamGraph
  import opened IamPlans
  import opened IamRequests
  import opened IamSafety

  predicate SameGroups(g: Graph, g': Graph) {
    g'.groups == g.groups && g'.memberships == g.memberships
  }

  ghost predicate SamePolicies(g: Graph, g': Graph) {
    g'.userPolicies == g.userPolicies && g'.groupPolicies == g.groupPolicies && g'.documents == g.documents
  }

  /** One credential is set and nothing else happens. */
  ghost predicate CredentialSet(g: Graph, g': Graph, key: string, c: Credential) {
    g'.users == g.users[key := c] && SameGroups(g, g') && SamePolicies(g, g')
  }

  /** Nothing but who belongs to a group, and the group's status. */
  ghost predicate GroupSet(g: Graph, g': Graph, group: string, status: string) {
    && g'.users == g.users && SamePolicies(g, g')
    && g'.groups.Keys == g.groups.Keys + {group} && g'.groups[group].status == status
    && (forall n :: n in g.groups && n != group ==> g'.groups[n] == g.groups[n])
  }

  /** A direct mapping is set and nothing else happens. */
  ghost predicate MappingSet(g: Graph, g': Graph, kind: Kind, target: string, policies: set<string>) {
    && g'.users == g.users && SameGroups(g, g') && g'.documents == g.documents && g'.epoch == g.epoch
    && (forall n :: PolicySet(g'.userPolicies, n)
                    == if kind == UserKind && n == target then policies else PolicySet(g.userPolicies, n))
    && (forall n :: PolicySet(g'.groupPolicies, n)
                    == if kind == GroupKind && n == target then policies else PolicySet(g.groupPolicies, n))
  }

  ghost predicate UserEffect(g: Graph, g': Graph, action: UserAction, target: string) {
    match action
    case DeleteUser => Deleted(g, g', target)
    case EnableUser =>
      target in g.users && CredentialSet(g, g', target, g.users[target].(status := "on"))
        && g'.epoch == g.epoch + 1
    case DisableUser =>
      target in g.users && CredentialSet(g, g', target, g.users[target].(status := "off"))
        && g'.epoch == g.epoch + 1
  }

  ghost predicate GroupEffect(g: Graph, g': Graph, action: GroupAction, target: string, members: seq<string>) {
    && target in g.groups
    && match action
       case AddMembers =>
         && GroupSet(g, g', target, g.groups[target].status) && g'.epoch == g.epoch
         && (forall u, n :: n in g'.Index(u) <==> n in g.Index(u) || (n == target && u in members))
         && forall u :: g'.Listed(u, target) <==> g.Listed(u, target) || u in members
       case RemoveMembers =>
         && GroupSet(g, g', target, g.groups[target].status) && g'.epoch == g.epoch
         && (forall u, n :: n in g'.Index(u) <==> n in g.Index(u) && !(n == target && u in members))
         && forall u :: g'.Listed(u, target) <==> g.Listed(u, target) && u !in members
       case EnableGroup =>
         && GroupSet(g, g', target, "enabled") && g'.epoch == g.epoch
         && (forall u :: g'.Index(u) == g.Index(u)) && forall u :: g'.Listed(u, target) <==> g.Listed(u, target)
       case DisableGroup =>
         && GroupSet(g, g', target, "disabled") && g'.epoch == g.epoch
         && (forall u :: g'.Index(u) == g.Index(u)) && forall u :: g'.Listed(u, target) <==> g.Listed(u, target)
       case DeleteGroup =>
         && g'.users == g.users && g'.groups == g.groups - {target} && g'.userPolicies == g.userPolicies
         && g'.groupPolicies == g.groupPolicies - {target} && g'.documents == g.documents && g'.epoch == g.epoch + 1
         && forall u, n :: n in g'.Index(u) <==> n in g.Index(u) && n != target
  }

  ghost predicate ServiceEffect(g: Graph, g': Graph, action: ServiceAction, target: string) {
    && target in g.users
    && match action
       case EnableService => CredentialSet(g, g', target, g.users[target].(status := "on")) && g'.epoch == g.epoch
       case DisableService =>
         CredentialSet(g, g', target, g.users[target].(status := "off")) && g'.epoch == g.epoch
       case RotateService(secret) =>
         CredentialSet(g, g', target, g.users[target].(secretKey := secret)) && g'.epoch == g.epoch
       case RestrictService(signed) =>
         signed.Ok? && CredentialSet(g, g', target, g.users[target].(sessionToken := signed.value))
           && g'.epoch == g.epoch
       case DeleteService =>
         && g'.users == g.users - {target} && g'.userPolicies == g.userPolicies - {target}
         && g'.groupPolicies == g.groupPolicies && g'.documents == g.documents && g'.groups == g.groups
         && g'.memberships == g.memberships - {target} && g'.epoch == g.epoch + 2
  }

  ghost predicate Effect(g: Graph, g': Graph, r: Request) {
    match r
    case UserRequest(action, target, _) => UserEffect(g, g', action, target)
    case GroupRequest(action, target, members, _) => GroupEffect(g, g', action, target, members)
    case ServiceRequest(action, target, _) => ServiceEffect(g, g', action, target)
    case BindRequest(kind, target, _, policies, _) => MappingSet(g, g', kind, target, set p | p in policies)
    case ReplaceBindings(kind, target, _, policies) => MappingSet(g, g', kind, target, set p | p in policies)
    case UserSecretRequest(target, secret, _, _) =>
      target in g.users && CredentialSet(g, g', target, g.users[target].(secretKey := secret))
        && g'.epoch == g.epoch + 1
    case RotateSecret(target, secret) =>
      target in g.users && CredentialSet(g, g', target, g.users[target].(secretKey := secret))
        && g'.epoch == g.epoch + 1
    case RotateSelf(target, _, secret) =>
      target in g.users && CredentialSet(g, g', target, g.users[target].(secretKey := secret)) && g'.epoch == g.epoch
    case CreateUser(target, secret) =>
      && target !in g.users && g'.epoch == g.epoch + 1
      && CredentialSet(g, g', target, Credential(target, secret, -62_135_596_800_000_000_000, "", "on", "", []))
    case CreateGroup(target, members) =>
      && target !in g.groups && g'.epoch == g.epoch + 1 && GroupSet(g, g', target, "enabled")
      && (forall u, n :: n in g'.Index(u) <==> n in g.Index(u) || (n == target && u in members))
      && forall u :: g'.Listed(u, target) <==> u in members
    case CreateService(proof, spec) =>
      && spec.minted.Ok? && spec.minted.value.accessKey !in g.users && g'.epoch == g.epoch
      && CredentialSet(g, g', spec.minted.value.accessKey,
           Credential(spec.minted.value.accessKey, spec.minted.value.secretKey, 0, spec.minted.value.sessionToken,
                      "on", proof.parent, spec.groups))
  }

  // ---- One step ----

  lemma IdentitySet(s: State, plan: seq<Step>, kind: UserType, key: string, c: Credential, bump: bool)
    requires plan == [SaveIdentity(kind, key, c, bump)]
    ensures CredentialSet(s.mem, ApplyAll(s, plan).mem, key, c)
    ensures ApplyAll(s, plan).mem.epoch == if bump then s.mem.epoch + 1 else s.mem.epoch
  {}

  lemma GroupSaved(s: State, group: string, info: GroupInfo, joins: set<string>, leaves: set<string>, bump: bool)
    requires joins !! leaves
    ensures var g' := ApplyAll(s, [SaveGroup(group, info, joins, leaves, bump)]).mem;
            && g'.groups == s.mem.groups[group := info]
            && GroupSet(s.mem, g', group, info.status) && g'.epoch == (if bump then s.mem.epoch + 1 else s.mem.epoch)
            && forall u, n :: n in g'.Index(u)
                              <==> (n in s.mem.Index(u) || (n == group && u in joins)) && !(n == group && u in leaves)
  {}

  lemma MappingSaved(s: State, kind: Kind, target: string, policies: seq<string>)
    requires kind != ServiceKind && MappingStep(s.mem, kind, target, policies).Ok?
    ensures MappingSet(s.mem, ApplyAll(s, MappingStep(s.mem, kind, target, policies).value).mem, kind, target,
                       set p | p in policies)
  {}

  // ---- Each request ----

  lemma UserCommitted(env: Env, s: State, ctx: Context, action: UserAction, target: string, draft: Draft)
    requires UserPlan(env, s.mem, ctx, action, target, draft).Ok?
    ensures UserEffect(s.mem, ApplyAll(s, UserPlan(env, s.mem, ctx, action, target, draft).value).mem, action, target)
  {
    var plan := UserPlan(env, s.mem, ctx, action, target, draft).value;
    match action
    case DeleteUser => DeletionEffect(s, target);
    case EnableUser => IdentitySet(s, plan, Regular, target, s.mem.users[target].(status := ACCOUNT_ON), true);
    case DisableUser => IdentitySet(s, plan, Regular, target, s.mem.users[target].(status := ACCOUNT_OFF), true);
  }

  lemma GroupEdited(s: State, action: GroupAction, target: string, members: seq<string>, names: seq<string>)
    requires target in s.mem.groups && !action.DeleteGroup? && forall m :: m in names <==> m in members
    ensures GroupEffect(s.mem, ApplyAll(s, [GroupEdit(s.mem.groups[target], action, target, names)]).mem, action,
                        target, members)
  {
    var group := s.mem.groups[target];
    var now, asked := (set m | m in group.members), (set m | m in names);
    match action
    case AddMembers => GroupSaved(s, target, group.(members := SortedOf(now + asked)), asked, {}, false);
    case RemoveMembers => GroupSaved(s, target, group.(members := SortedOf(now - asked)), {}, asked, false);
    case EnableGroup => GroupSaved(s, target, GroupInfo(STATUS_ENABLED, SortedOf(now)), {}, {}, false);
    case DisableGroup => GroupSaved(s, target, GroupInfo(STATUS_DISABLED, SortedOf(now)), {}, {}, false);
  }

  lemma GroupDropped(s: State, target: string, members: seq<string>)
    requires target in s.mem.groups
    ensures GroupEffect(s.mem, ApplyAll(s, [DropGroupMapping(target), DropGroup(target)]).mem, DeleteGroup, target,
                        members)
  {
    var s1 := Apply(s, DropGroupMapping(target));
    assert [DropGroupMapping(target), DropGroup(target)][1..] == [DropGroup(target)];
    OneStep(s1, DropGroup(target));
  }

  lemma GroupPlanIs(env: Env, g: Graph, ctx: Context, action: GroupAction, target: string, members: seq<string>,
                    draft: Draft)
    requires GroupPlan(env, g, ctx, action, target, members, draft).Ok?
    ensures target in g.groups && CanonicalNames(members).Ok?
    ensures GroupPlan(env, g, ctx, action, target, members, draft)
         == GroupSteps(g.groups[target], action, target, CanonicalNames(members).value)
  {}

  lemma GroupPerformed(s: State, action: GroupAction, target: string, members: seq<string>, names: seq<string>)
    requires target in s.mem.groups && forall m :: m in names <==> m in members
    requires GroupSteps(s.mem.groups[target], action, target, names).Ok?
    ensures GroupEffect(s.mem, ApplyAll(s, GroupSteps(s.mem.groups[target], action, target, names).value).mem, action,
                        target, members)
  {
    if action.DeleteGroup? {
      GroupDropped(s, target, members);
    } else {
      GroupEdited(s, action, target, members, names);
    }
  }

  lemma GroupCommitted(env: Env, s: State, ctx: Context, action: GroupAction, target: string, members: seq<string>,
                       draft: Draft)
    requires GroupPlan(env, s.mem, ctx, action, target, members, draft).Ok?
    ensures GroupEffect(s.mem, ApplyAll(s, GroupPlan(env, s.mem, ctx, action, target, members, draft).value).mem,
                        action, target, members)
  {
    GroupPlanIs(env, s.mem, ctx, action, target, members, draft);
    SortedMembers(members);
    GroupPerformed(s, action, target, members, CanonicalNames(members).value);
  }

  lemma ServiceDropped(s: State, target: string)
    requires target in s.mem.users
    ensures ServiceEffect(s.mem, ApplyAll(s, [DropMapping(Regular, target), DropIdentity(Service, target)]).mem,
                          DeleteService, target)
  {
    var a, b := DropMapping(Regular, target), DropIdentity(Service, target);
    var s1 := Apply(s, a);
    assert [a, b][1..] == [b];
    OneStep(s1, b);
  }

  lemma ServiceCommitted(env: Env, claims: Credential -> bool, s: State, ctx: Context, action: ServiceAction,
                         target: string, draft: Draft)
    requires ServicePlan(env, claims, s.mem, ctx, action, target, draft).Ok?
    ensures ServiceEffect(s.mem, ApplyAll(s, ServicePlan(env, claims, s.mem, ctx, action, target, draft).value).mem,
                          action, target)
  {
    var plan := ServicePlan(env, claims, s.mem, ctx, action, target, draft).value;
    if action.DeleteService? {
      ServiceDropped(s, target);
    } else {
      IdentitySet(s, plan, Service, target, ServiceEdit(s.mem.users[target], action).value, false);
    }
  }

  lemma BindingPlanIs(env: Env, claims: Credential -> bool, g: Graph, ctx: Context, r: Request)
    requires r.BindRequest? || r.ReplaceBindings?
    requires Plan(env, claims, g, ctx, r).Ok?
    ensures r.kind != ServiceKind && CanonicalNames(r.policies).Ok?
    ensures Plan(env, claims, g, ctx, r) == MappingStep(g, r.kind, r.target, CanonicalNames(r.policies).value)
  {}

  lemma BindingCommitted(env: Env, claims: Credential -> bool, s: State, ctx: Context, r: Request)
    requires r.BindRequest? || r.ReplaceBindings?
    requires Plan(env, claims, s.mem, ctx, r).Ok?
    ensures MappingSet(s.mem, ApplyAll(s, Plan(env, claims, s.mem, ctx, r).value).mem, r.kind, r.target,
                       set p | p in r.policies)
  {
    BindingPlanIs(env, claims, s.mem, ctx, r);
    MappingNamed(s, r.kind, r.target, r.policies);
  }

  lemma MappingNamed(s: State, kind: Kind, target: string, policies: seq<string>)
    requires kind != ServiceKind && CanonicalNames(policies).Ok?
    requires MappingStep(s.mem, kind, target, CanonicalNames(policies).value).Ok?
    ensures MappingSet(s.mem, ApplyAll(s, MappingStep(s.mem, kind, target, CanonicalNames(policies).value).value).mem,
                       kind, target,
                       set p | p in policies)
  {
    var names := CanonicalNames(policies).value;
    SortedMembers(policies);
    assert (set p | p in names) == (set p | p in policies);
    MappingSaved(s, kind, target, names);
  }

  lemma SecretCommitted(env: Env, claims: Credential -> bool, s: State, ctx: Context, r: Request)
    requires r.UserSecretRequest? || r.RotateSecret? || r.RotateSelf? || r.CreateUser?
    requires Plan(env, claims, s.mem, ctx, r).Ok?
    ensures Effect(s.mem, ApplyAll(s, Plan(env, claims, s.mem, ctx, r).value).mem, r)
  {}

  lemma NewGroup(s: State, target: string, members: seq<string>, names: seq<string>)
    requires target !in s.mem.groups && forall m :: m in names <==> m in members
    ensures Effect(s.mem,
                   ApplyAll(s, [SaveGroup(target, GroupInfo(STATUS_ENABLED, names), set m | m in names, {}, true)]).mem,
                   CreateGroup(target, members))
  {
    GroupSaved(s, target, GroupInfo(STATUS_ENABLED, names), set m | m in names, {}, true);
  }

  lemma GroupCreated(s: State, ctx: Context, target: string, members: seq<string>)
    requires CreateGroupPlan(s.mem, ctx, target, members).Ok?
    ensures Effect(s.mem, ApplyAll(s, CreateGroupPlan(s.mem, ctx, target, members).value).mem,
                   CreateGroup(target, members))
  {
    CreateGroupPlanIs(s.mem, ctx, target, members);
    SortedMembers(members);
    NewGroup(s, target, members, CanonicalNames(members).value);
  }

  lemma ServiceCreated(env: Env, s: State, ctx: Context, proof: Proof, spec: ServiceSpec)
    requires CreateServicePlan(env, s.mem, ctx, proof, spec).Ok?
    ensures Effect(s.mem, ApplyAll(s, CreateServicePlan(env, s.mem, ctx, proof, spec).value).mem,
                   CreateService(proof, spec))
  {}

  /** Main result: a request that commits has exactly its effect, whatever steps it took. */
  lemma CommittedEffect(env: Env, claims: Credential -> bool, s: State, ctx: Context, r: Request)
    requires Plan(env, claims, s.mem, ctx, r).Ok?
    ensures Effect(s.mem, ApplyAll(s, Plan(env, claims, s.mem, ctx, r).value).mem, r)
  {
    match r
    case UserRequest(action, target, draft) => UserCommitted(env, s, ctx, action, target, draft);
    case GroupRequest(action, target, members, draft) => GroupCommitted(env, s, ctx, action, target, members, draft);
    case ServiceRequest(action, target, draft) => ServiceCommitted(env, claims, s, ctx, action, target, draft);
    case BindRequest(_, _, _, _, _) => BindingCommitted(env, claims, s, ctx, r);
    case ReplaceBindings(_, _, _, _) => BindingCommitted(env, claims, s, ctx, r);
    case CreateGroup(target, members) => GroupCreated(s, ctx, target, members);
    case CreateService(proof, spec) => ServiceCreated(env, s, ctx, proof, spec);
    case _ => SecretCommitted(env, claims, s, ctx, r);
  }
}
