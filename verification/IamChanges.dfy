/**
 Which events change the fingerprint of the graph, and so put an end to the drafts issued before them.
 */
module IamChanges {
  import opened Lex
  import opened IamGraph
  import opened IamPlans
  import opened IamRequests
  import opened IamSafety
  import opened IamLinks
  import opened IamEffects
  import opened IamRuns
  import opened IamTokens

  // ---- Which commits change the fingerprint ----

  ghost predicate SameMapping(m: map<string, Policies>, target: string, policies: seq<string>) {
    var names := SortedOf(set p | p in policies);
    if policies == [] then target !in m else target in m && Joined(m[target]) == Joined(names)
  }

  ghost predicate GroupIdle(g: Graph, action: GroupAction, target: string, members: seq<string>) {
    && target in g.groups && Distinct(g.groups[target].members)
    && match action
       case AddMembers => forall m :: m in members ==> g.Listed(m, target) && target in g.Index(m)
       case RemoveMembers =>
         forall m :: m in members ==> !g.Listed(m, target) && m in g.memberships && target !in g.memberships[m]
       case EnableGroup => g.groups[target].status == STATUS_ENABLED
       case DisableGroup => g.groups[target].status == STATUS_DISABLED
       case DeleteGroup => false
  }

  /** The request asks for what is already so. Requests that move the epoch, create or rotate never do. */
  ghost predicate Idle(g: Graph, r: Request) {
    match r
    case GroupRequest(action, target, members, _) => GroupIdle(g, action, target, members)
    case ServiceRequest(EnableService, target, _) => target in g.users && g.users[target].status == ACCOUNT_ON
    case ServiceRequest(DisableService, target, _) => target in g.users && g.users[target].status == ACCOUNT_OFF
    case ServiceRequest(RestrictService(signed), target, _) =>
      target in g.users && signed == Ok(g.users[target].sessionToken)
    case BindRequest(kind, target, _, policies, _) =>
      SameMapping(if kind == UserKind then g.userPolicies else g.groupPolicies, target, policies)
    case ReplaceBindings(kind, target, _, policies) =>
      SameMapping(if kind == UserKind then g.userPolicies else g.groupPolicies, target, policies)
    case _ => false
  }

  lemma EpochShows(g: Graph, g': Graph)
    requires g.epoch < g'.epoch < g.epoch + EPOCH_MODULUS
    ensures Canonical(g') != Canonical(g)
  {
    if g'.epoch % EPOCH_MODULUS == g.epoch % EPOCH_MODULUS { ResidueTellsEpochs(g.epoch, g'.epoch); }
  }

  lemma UserShows(g: Graph, g': Graph, key: string)
    requires key in g.users <==> key !in g'.users
    ensures Canonical(g') != Canonical(g)
  {
    assert key in PrintedUsers(g.users) <==> key !in PrintedUsers(g'.users);
  }

  lemma GroupShows(g: Graph, g': Graph, group: string)
    requires group in g.groups <==> group !in g'.groups
    ensures Canonical(g') != Canonical(g)
  {
    assert group in PrintedGroups(g.groups) <==> group !in PrintedGroups(g'.groups);
  }

  lemma CredentialShows(g: Graph, g': Graph, key: string, c: Credential)
    requires key in g.users && c.groups == g.users[key].groups && CredentialSet(g, g', key, c) && g'.epoch == g.epoch
    ensures Canonical(g') == Canonical(g) <==> c == g.users[key]
  {
    assert PrintedUsers(g'.users)[key].rest == c.(groups := [])
           && PrintedUsers(g.users)[key].rest == g.users[key].(groups := []);
    if c == g.users[key] { assert g'.users == g.users; }
  }

  lemma GroupRecordShows(g: Graph, g': Graph, group: string, info: GroupInfo)
    requires group in g.groups
    requires g' == g.(groups := g.groups[group := info], memberships := g'.memberships)
    ensures Canonical(g') == Canonical(g) <==>
            && info.status == g.groups[group].status && multiset(info.members) == multiset(g.groups[group].members)
            && g'.memberships == g.memberships
  {
    var before, after := PrintedGroups(g.groups), PrintedGroups(g'.groups);
    assert before[group] == PrintedGroup(g.groups[group].status, multiset(g.groups[group].members));
    assert after[group] == PrintedGroup(info.status, multiset(info.members));
    if before[group] == after[group] { assert after == before; }
  }

  lemma SameMultiset(a: seq<string>, b: seq<string>)
    requires Distinct(b) && forall m :: m in a <==> m in b
    ensures multiset(a) == multiset(b) <==> Distinct(a)
  {
    if Distinct(a) {
      forall x ensures multiset(a)[x] == multiset(b)[x] { DistinctCount(a, x); DistinctCount(b, x); }
    }
    if multiset(a) == multiset(b) {
      forall x ensures multiset(a)[x] <= 1 { DistinctCount(b, x); }
      DistinctFromCount(a);
    }
  }

  /** A list and the sorted enumeration of a set agree as multisets when the list has these members, each once. */
  lemma SameAsSorted(a: seq<string>, b: set<string>)
    ensures multiset(a) == multiset(SortedOf(b)) <==> Distinct(a) && b == set m | m in a
  {
    if multiset(a) == multiset(SortedOf(b)) {
      forall m ensures m in a <==> m in b {
        assert m in a <==> m in multiset(a);
        assert m in SortedOf(b) <==> m in multiset(a);
      }
      assert b == set m | m in a;
    }
    if b == (set m | m in a) { SameMultiset(a, SortedOf(b)); }
  }

  lemma JoinedIndex(index: map<string, set<string>>, group: string, joins: set<string>)
    ensures Rejoined(index, group, joins, {}) == index <==> forall m :: m in joins ==> m in index && group in index[m]
  {
    var after := Rejoined(index, group, joins, {});
    if forall m :: m in joins ==> m in index && group in index[m] {
      assert after.Keys == index.Keys;
      forall u | u in index ensures after[u] == index[u] { assert u in joins ==> index[u] + {group} == index[u]; }
      assert after == index;
    }
    if after == index {
      forall m | m in joins ensures m in index && group in index[m] { assert m in after && group in after[m]; }
    }
  }

  lemma LeftIndex(index: map<string, set<string>>, group: string, leaves: set<string>)
    ensures Rejoined(index, group, {}, leaves) == index
       <==> forall m :: m in leaves ==> m in index && group !in index[m]
  {
    var after := Rejoined(index, group, {}, leaves);
    if forall m :: m in leaves ==> m in index && group !in index[m] {
      assert after.Keys == index.Keys;
      forall u | u in index ensures after[u] == index[u] { assert u in leaves ==> index[u] - {group} == index[u]; }
      assert after == index;
    }
    if after == index {
      forall m | m in leaves ensures m in index && group !in index[m] { assert m in after && group !in after[m]; }
    }
  }

  lemma EditedGraph(s: State, action: GroupAction, target: string, names: seq<string>)
    requires target in s.mem.groups && !action.DeleteGroup?
    ensures var step := GroupEdit(s.mem.groups[target], action, target, names);
            var g' := Apply(s, step).mem;
            && g' == s.mem.(groups := s.mem.groups[target := step.info], memberships := g'.memberships)
            && g'.memberships == Rejoined(s.mem.memberships, target, step.joins, step.leaves)
  {}

  lemma NoneRejoined(index: map<string, set<string>>, group: string)
    ensures Rejoined(index, group, {}, {}) == index
  {}

  lemma AskedListed(members: seq<string>, names: seq<string>)
    ensures var now, asked := (set m | m in members), (set m | m in names);
            && (now + asked == now <==> forall m :: m in names ==> m in members)
            && (now - asked == now <==> forall m :: m in names ==> m !in members)
  {
    var now, asked := (set m | m in members), (set m | m in names);
    assert now + asked == now <==> asked <= now;
    if asked <= now { forall m | m in names ensures m in members { assert m in asked; } }
    assert now - asked == now <==> asked !! now;
    if asked !! now { forall m | m in names ensures m !in members { assert m in asked; } }
  }

  lemma AddIdle(g: Graph, target: string, names: seq<string>)
    requires target in g.groups
    ensures var now, asked := (set m | m in g.groups[target].members), (set m | m in names);
            GroupIdle(g, AddMembers, target, names) <==>
            && Distinct(g.groups[target].members) && now + asked == now
            && Rejoined(g.memberships, target, asked, {}) == g.memberships
  {
    AskedListed(g.groups[target].members, names);
    JoinedIndex(g.memberships, target, set m | m in names);
  }

  lemma AddShows(s: State, target: string, names: seq<string>)
    requires target in s.mem.groups
    ensures Canonical(Apply(s, GroupEdit(s.mem.groups[target], AddMembers, target, names)).mem) == Canonical(s.mem)
       <==> GroupIdle(s.mem, AddMembers, target, names)
  {
    var g, group := s.mem, s.mem.groups[target];
    var now, asked := (set m | m in group.members), (set m | m in names);
    EditedGraph(s, AddMembers, target, names);
    GroupRecordShows(g, Apply(s, GroupEdit(group, AddMembers, target, names)).mem, target,
                     group.(members := SortedOf(now + asked)));
    SameAsSorted(group.members, now + asked);
    AddIdle(g, target, names);
  }

  lemma RemoveShows(s: State, target: string, names: seq<string>)
    requires target in s.mem.groups
    ensures Canonical(Apply(s, GroupEdit(s.mem.groups[target], RemoveMembers, target, names)).mem) == Canonical(s.mem)
       <==> GroupIdle(s.mem, RemoveMembers, target, names)
  {
    var g, group := s.mem, s.mem.groups[target];
    var now, asked := (set m | m in group.members), (set m | m in names);
    EditedGraph(s, RemoveMembers, target, names);
    GroupRecordShows(g, Apply(s, GroupEdit(group, RemoveMembers, target, names)).mem, target,
                     group.(members := SortedOf(now - asked)));
    SameAsSorted(group.members, now - asked);
    AskedListed(group.members, names);
    LeftIndex(g.memberships, target, asked);
  }

  lemma StatusShows(s: State, action: GroupAction, target: string, names: seq<string>)
    requires target in s.mem.groups && (action.EnableGroup? || action.DisableGroup?)
    ensures Canonical(Apply(s, GroupEdit(s.mem.groups[target], action, target, names)).mem) == Canonical(s.mem)
       <==> GroupIdle(s.mem, action, target, names)
  {
    var g, group := s.mem, s.mem.groups[target];
    var now := set m | m in group.members;
    EditedGraph(s, action, target, names);
    GroupRecordShows(g, Apply(s, GroupEdit(group, action, target, names)).mem, target,
                     GroupInfo(if action.EnableGroup? then STATUS_ENABLED else STATUS_DISABLED, SortedOf(now)));
    SameAsSorted(group.members, now);
    NoneRejoined(g.memberships, target);
  }

  lemma GroupEditShows(s: State, action: GroupAction, target: string, names: seq<string>)
    requires target in s.mem.groups && !action.DeleteGroup?
    ensures Canonical(Apply(s, GroupEdit(s.mem.groups[target], action, target, names)).mem) == Canonical(s.mem)
       <==> GroupIdle(s.mem, action, target, names)
  {
    match action
    case AddMembers => AddShows(s, target, names);
    case RemoveMembers => RemoveShows(s, target, names);
    case _ => StatusShows(s, action, target, names);
  }

  lemma GroupIdleNames(g: Graph, action: GroupAction, target: string, members: seq<string>, names: seq<string>)
    requires forall m :: m in names <==> m in members
    ensures GroupIdle(g, action, target, names) <==> GroupIdle(g, action, target, members)
  {}

  lemma GroupKeptExactly(env: Env, s: State, ctx: Context, action: GroupAction, target: string, members: seq<string>,
                         draft: Draft)
    requires GroupPlan(env, s.mem, ctx, action, target, members, draft).Ok?
    ensures Canonical(ApplyAll(s, GroupPlan(env, s.mem, ctx, action, target, members, draft).value).mem)
            == Canonical(s.mem)
       <==> GroupIdle(s.mem, action, target, members)
  {
    GroupPlanIs(env, s.mem, ctx, action, target, members, draft);
    var names := CanonicalNames(members).value;
    if action.DeleteGroup? {
      GroupCommitted(env, s, ctx, action, target, members, draft);
      GroupShows(s.mem, ApplyAll(s, GroupPlan(env, s.mem, ctx, action, target, members, draft).value).mem, target);
    } else {
      SortedMembers(members);
      GroupIdleNames(s.mem, action, target, members, names);
      OneStep(s, GroupEdit(s.mem.groups[target], action, target, names));
      GroupEditShows(s, action, target, names);
    }
  }

  function Remapped(m: map<string, Policies>, target: string, names: seq<string>): map<string, Policies> {
    if names == [] then m - {target} else m[target := names]
  }

  lemma MappingsShow(g: Graph, users: map<string, Policies>, groups: map<string, Policies>)
    ensures Canonical(g.(userPolicies := users, groupPolicies := groups)) == Canonical(g)
       <==> PrintedMappings(users) == PrintedMappings(g.userPolicies)
            && PrintedMappings(groups) == PrintedMappings(g.groupPolicies)
  {}

  lemma UserMappingShows(s: State, target: string, names: seq<string>)
    ensures Canonical(Apply(s, SetUserMapping(target, names)).mem) == Canonical(s.mem)
       <==> if names == [] then target !in s.mem.userPolicies
            else target in s.mem.userPolicies && Joined(s.mem.userPolicies[target]) == Joined(names)
  {
    var g, m := s.mem, Remapped(s.mem.userPolicies, target, names);
    assert Apply(s, SetUserMapping(target, names)).mem == g.(userPolicies := m, groupPolicies := g.groupPolicies);
    MappingsShow(g, m, g.groupPolicies);
    MappingTextShows(g.userPolicies, target, names);
  }

  lemma GroupMappingShows(s: State, target: string, names: seq<string>)
    ensures Canonical(Apply(s, SetGroupMapping(target, names)).mem) == Canonical(s.mem)
       <==> if names == [] then target !in s.mem.groupPolicies
            else target in s.mem.groupPolicies && Joined(s.mem.groupPolicies[target]) == Joined(names)
  {
    var g, m := s.mem, Remapped(s.mem.groupPolicies, target, names);
    assert Apply(s, SetGroupMapping(target, names)).mem == g.(userPolicies := g.userPolicies, groupPolicies := m);
    MappingsShow(g, g.userPolicies, m);
    MappingTextShows(g.groupPolicies, target, names);
  }

  lemma MappingTextShows(m: map<string, Policies>, target: string, names: seq<string>)
    ensures PrintedMappings(Remapped(m, target, names)) == PrintedMappings(m) <==>
            if names == [] then target !in m else target in m && Joined(m[target]) == Joined(names)
  {
    var m' := Remapped(m, target, names);
    var x, y := PrintedMappings(m), PrintedMappings(m');
    assert x.Keys == m.Keys && y.Keys == m'.Keys;
    if names == [] {
      if target !in m { assert m' == m; } else { assert target in x && target !in y; }
    } else {
      assert target in y && y[target] == Joined(names);
      if target in m && Joined(m[target]) == Joined(names) { assert y == x; }
    }
  }

  lemma BindingKeptExactly(v: Server, s: State, ctx: Context, r: Request)
    requires (r.BindRequest? || r.ReplaceBindings?) && Plan(v.env, v.claims, s.mem, ctx, r).Ok?
    ensures Canonical(ApplyAll(s, Plan(v.env, v.claims, s.mem, ctx, r).value).mem) == Canonical(s.mem)
       <==> Idle(s.mem, r)
  {
    BindingPlanIs(v.env, v.claims, s.mem, ctx, r);
    CanonicalNamesAccepts(r.policies);
    var names := CanonicalNames(r.policies).value;
    NoNames(r.policies);
    MappingStepShows(s, r.kind, r.target, names);
  }

  lemma NoNames(policies: seq<string>)
    ensures SortedOf(set p | p in policies) == [] <==> policies == []
  {
    var sorted := SortedOf(set p | p in policies);
    if policies != [] { assert policies[0] in sorted; }
    if sorted != [] { assert sorted[0] in sorted; }
  }

  lemma MappingStepShows(s: State, kind: Kind, target: string, names: seq<string>)
    requires kind != ServiceKind && MappingStep(s.mem, kind, target, names).Ok?
    ensures var m := if kind == UserKind then s.mem.userPolicies else s.mem.groupPolicies;
            Canonical(ApplyAll(s, MappingStep(s.mem, kind, target, names).value).mem) == Canonical(s.mem) <==>
            if names == [] then target !in m else target in m && Joined(m[target]) == Joined(names)
  {
    var plan := MappingStep(s.mem, kind, target, names).value;
    OneStep(s, plan[0]);
    assert plan == [plan[0]];
    if kind == UserKind { UserMappingShows(s, target, names); } else { GroupMappingShows(s, target, names); }
  }

  lemma ServiceKeptExactly(v: Server, s: State, ctx: Context, action: ServiceAction, target: string, draft: Draft)
    requires ServicePlan(v.env, v.claims, s.mem, ctx, action, target, draft).Ok?
    ensures Canonical(ApplyAll(s, ServicePlan(v.env, v.claims, s.mem, ctx, action, target, draft).value).mem)
            == Canonical(s.mem)
       <==> Idle(s.mem, ServiceRequest(action, target, draft))
  {
    ServiceCommitted(v.env, v.claims, s, ctx, action, target, draft);
    var g, g' := s.mem, ApplyAll(s, ServicePlan(v.env, v.claims, s.mem, ctx, action, target, draft).value).mem;
    var c := g.users[target];
    match action
    case EnableService => CredentialShows(g, g', target, c.(status := ACCOUNT_ON));
    case DisableService => CredentialShows(g, g', target, c.(status := ACCOUNT_OFF));
    case RotateService(secret) =>
      CredentialShows(g, g', target, c.(secretKey := secret));
      NewSecret(v, g, ctx, secret, target, draft);
    case RestrictService(signed) => CredentialShows(g, g', target, c.(sessionToken := signed.value));
    case DeleteService => UserShows(g, g', target);
  }

  lemma NewSecret(v: Server, g: Graph, ctx: Context, secret: string, target: string, draft: Draft)
    requires ServicePlan(v.env, v.claims, g, ctx, RotateService(secret), target, draft).Ok?
    ensures target in g.users && g.users[target].secretKey != secret
  {}

  lemma SecretShows(v: Server, s: State, ctx: Context, r: Request)
    requires r.UserSecretRequest? || r.RotateSecret? || r.RotateSelf? || r.CreateUser?
    requires Plan(v.env, v.claims, s.mem, ctx, r).Ok?
    ensures Canonical(ApplyAll(s, Plan(v.env, v.claims, s.mem, ctx, r).value).mem) != Canonical(s.mem)
  {
    SecretCommitted(v.env, v.claims, s, ctx, r);
    var g, g' := s.mem, ApplyAll(s, Plan(v.env, v.claims, s.mem, ctx, r).value).mem;
    if r.RotateSelf? {
      CredentialShows(g, g', r.target, g.users[r.target].(secretKey := r.secret));
      NewSelfSecret(v, g, ctx, r);
    } else {
      EpochShows(g, g');
    }
  }

  lemma NewSelfSecret(v: Server, g: Graph, ctx: Context, r: Request)
    requires r.RotateSelf? && Plan(v.env, v.claims, g, ctx, r).Ok?
    ensures r.target in g.users && g.users[r.target].secretKey != r.secret
  {}

  lemma UserRequestShows(v: Server, s: State, ctx: Context, r: Request)
    requires r.UserRequest? && Plan(v.env, v.claims, s.mem, ctx, r).Ok?
    ensures Canonical(ApplyAll(s, Plan(v.env, v.claims, s.mem, ctx, r).value).mem) != Canonical(s.mem)
  {
    UserCommitted(v.env, s, ctx, r.userAction, r.target, r.draft);
    var g, g' := s.mem, ApplyAll(s, Plan(v.env, v.claims, s.mem, ctx, r).value).mem;
    if r.userAction.DeleteUser? {
      UserPlanIs(v.env, g, ctx, r.target, r.draft);
      UserShows(g, g', r.target);
    } else {
      EpochShows(g, g');
    }
  }

  /** A request that commits leaves the fingerprint as it was exactly when it asked for what was so already. */
  lemma CommitKeepsExactly(v: Server, s: State, ctx: Context, r: Request)
    requires Plan(v.env, v.claims, s.mem, ctx, r).Ok?
    ensures Canonical(ApplyAll(s, Plan(v.env, v.claims, s.mem, ctx, r).value).mem) == Canonical(s.mem)
       <==> Idle(s.mem, r)
  {
    match r
    case UserRequest(_, _, _) => UserRequestShows(v, s, ctx, r);
    case GroupRequest(action, target, members, draft) =>
      GroupKeptExactly(v.env, s, ctx, action, target, members, draft);
    case ServiceRequest(action, target, draft) => ServiceKeptExactly(v, s, ctx, action, target, draft);
    case BindRequest(_, _, _, _, _) => BindingKeptExactly(v, s, ctx, r);
    case ReplaceBindings(_, _, _, _) => BindingKeptExactly(v, s, ctx, r);
    case CreateGroup(target, members) =>
      GroupCreated(s, ctx, target, members);
      EpochShows(s.mem, ApplyAll(s, Plan(v.env, v.claims, s.mem, ctx, r).value).mem);
    case CreateService(proof, spec) =>
      ServiceCreated(v.env, s, ctx, proof, spec);
      UserShows(s.mem, ApplyAll(s, Plan(v.env, v.claims, s.mem, ctx, r).value).mem, spec.minted.value.accessKey);
    case _ => SecretShows(v, s, ctx, r);
  }

  // ---- Requests cut short ----

  lemma DropsFew(g: Graph, children: seq<string>)
    requires forall k :: k in children ==> k in g.users
    ensures |ChildPlan(g, children)| <= 2 * |children|
  {}

  lemma {:induction false} LeavesEach(g: Graph, user: string, groups: seq<string>)
    requires forall n :: n in groups ==> n in g.groups
    ensures |LeavePlan(g, user, groups)| == |groups|
  {
    if groups != [] { LeavesEach(g, user, groups[1..]); }
  }

  /** A deletion takes no more steps than the bound on records allows. */
  lemma DeletePlanShort(g: Graph, user: string)
    ensures |DeletePlan(g, user)| <= 2 * RecordCount(g) + 2
  {
    SortedSize(Holding(g, user), g.groups.Keys);
    SortedSize(Children(g, user), g.users.Keys);
    LeavesEach(g, user, SortedOf(Holding(g, user)));
    DropsFew(g, SortedOf(Children(g, user)));
    assert |g.groups.Keys| == |g.groups| && |g.users.Keys| == |g.users|;
  }

  lemma DeletionShows(v: Server, s: State, ctx: Context, target: string, draft: Draft, k: nat)
    requires UserPlan(v.env, s.mem, ctx, DeleteUser, target, draft).Ok?
    requires 0 < k <= |UserPlan(v.env, s.mem, ctx, DeleteUser, target, draft).value|
    ensures s.mem.epoch < Cut(s, UserPlan(v.env, s.mem, ctx, DeleteUser, target, draft).value, k).mem.epoch
            <= s.mem.epoch + 2 * GRAPH_LIMIT + 2
  {
    var plan := UserPlan(v.env, s.mem, ctx, DeleteUser, target, draft).value;
    UserPlanIs(v.env, s.mem, ctx, target, draft);
    DraftedPlanChecks(v, s.mem, ctx, UserRequest(DeleteUser, target, draft));
    DeletePlanShort(s.mem, target);
    DeleteBumps(v, s.mem, ctx, target, draft);
    EpochAdds(s, plan[..k]);
  }

  /** Only three requests take more than one step. */
  lemma LongPlans(v: Server, g: Graph, ctx: Context, r: Request)
    requires Plan(v.env, v.claims, g, ctx, r).Ok? && |Plan(v.env, v.claims, g, ctx, r).value| != 1
    ensures Removing(r) || (r.GroupRequest? && r.groupAction.DeleteGroup?)
  {
    if r.GroupRequest? {
      GroupPlanShape(v.env, g, ctx, r.groupAction, r.target, r.members, r.draft);
    } else if r.CreateGroup? {
      CreateGroupPlanIs(g, ctx, r.target, r.members);
    } else if r.BindRequest? || r.ReplaceBindings? {
      BindingPlanIs(v.env, v.claims, g, ctx, r);
    } else if !Removing(r) {
      SavesOne(v, g, ctx, r);
    }
  }

  lemma HalfDeletedService(s: State, plan: seq<Step>, key: string, k: nat)
    requires plan == [DropMapping(Regular, key), DropIdentity(Service, key)] && 0 < k < |plan|
    ensures Canonical(Cut(s, plan, k).mem) != Canonical(s.mem)
  {
    assert plan[..k] == [plan[0]];
    OneStep(s, plan[0]);
    EpochShows(s.mem, Cut(s, plan, k).mem);
  }

  lemma HalfDeletedGroup(s: State, plan: seq<Step>, group: string, k: nat)
    requires plan == [DropGroupMapping(group), DropGroup(group)] && 0 < k < |plan|
    ensures Canonical(Cut(s, plan, k).mem) == Canonical(s.mem) <==> group !in s.mem.groupPolicies
  {
    assert plan[..k] == [plan[0]];
    OneStep(s, plan[0]);
    var g, m := s.mem, Remapped(s.mem.groupPolicies, group, []);
    assert Apply(s, plan[0]).mem == g.(userPolicies := g.userPolicies, groupPolicies := m);
    MappingsShow(g, g.userPolicies, m);
    MappingTextShows(g.groupPolicies, group, []);
  }

  /** Of the requests that were cut short only the deletion of a group without a mapping shows nothing. */
  predicate CutSilently(g: Graph, r: Request) {
    r.GroupRequest? && r.groupAction.DeleteGroup? && r.target !in g.groupPolicies
  }

  lemma UserCutShows(v: Server, s: State, ctx: Context, target: string, draft: Draft, k: nat)
    requires UserPlan(v.env, s.mem, ctx, DeleteUser, target, draft).Ok?
    requires 0 < k <= |UserPlan(v.env, s.mem, ctx, DeleteUser, target, draft).value|
    ensures Canonical(Cut(s, UserPlan(v.env, s.mem, ctx, DeleteUser, target, draft).value, k).mem) != Canonical(s.mem)
  {
    DeletionShows(v, s, ctx, target, draft, k);
    EpochShows(s.mem, Cut(s, UserPlan(v.env, s.mem, ctx, DeleteUser, target, draft).value, k).mem);
  }

  lemma ServiceCutShows(v: Server, s: State, ctx: Context, target: string, draft: Draft, k: nat)
    requires ServicePlan(v.env, v.claims, s.mem, ctx, DeleteService, target, draft).Ok?
    requires 0 < k < |ServicePlan(v.env, v.claims, s.mem, ctx, DeleteService, target, draft).value|
    ensures Canonical(Cut(s, ServicePlan(v.env, v.claims, s.mem, ctx, DeleteService, target, draft).value, k).mem)
         != Canonical(s.mem)
  {
    ServicePlanIs(v.env, v.claims, s.mem, ctx, target, draft);
    HalfDeletedService(s, ServicePlan(v.env, v.claims, s.mem, ctx, DeleteService, target, draft).value, target, k);
  }

  lemma GroupCutShows(v: Server, s: State, ctx: Context, target: string, members: seq<string>, draft: Draft, k: nat)
    requires GroupPlan(v.env, s.mem, ctx, DeleteGroup, target, members, draft).Ok?
    requires 0 < k < |GroupPlan(v.env, s.mem, ctx, DeleteGroup, target, members, draft).value|
    ensures target !in s.mem.groupPolicies <==>
            Canonical(Cut(s, GroupPlan(v.env, s.mem, ctx, DeleteGroup, target, members, draft).value, k).mem)
            == Canonical(s.mem)
  {
    GroupPlanShape(v.env, s.mem, ctx, DeleteGroup, target, members, draft);
    HalfDeletedGroup(s, GroupPlan(v.env, s.mem, ctx, DeleteGroup, target, members, draft).value, target, k);
  }

  lemma CutKeepsExactly(v: Server, s: State, ctx: Context, r: Request, k: nat)
    requires Plan(v.env, v.claims, s.mem, ctx, r).Ok? && 0 < k < |Plan(v.env, v.claims, s.mem, ctx, r).value|
    ensures Canonical(Cut(s, Plan(v.env, v.claims, s.mem, ctx, r).value, k).mem) == Canonical(s.mem)
       <==> CutSilently(s.mem, r)
  {
    LongPlans(v, s.mem, ctx, r);
    match r
    case UserRequest(_, target, draft) => UserCutShows(v, s, ctx, target, draft, k);
    case ServiceRequest(_, target, draft) => ServiceCutShows(v, s, ctx, target, draft, k);
    case GroupRequest(_, target, members, draft) => GroupCutShows(v, s, ctx, target, members, draft, k);
    case _ =>
  }

  // ---- Every event ----

  /** The event asked for what was so already, or stopped before anything showed. */
  ghost predicate Silent(v: Server, s: State, ev: Event) {
    ev.completed == 0 ||
    match ev
    case Native(ctx, r, completed) =>
      var plan := Plan(v.env, v.claims, s.mem, ctx, r);
      plan.Ok? && if completed < |plan.value| then CutSilently(s.mem, r) else Idle(s.mem, r)
    case Issue(key, _, policies, completed) =>
      && HalfIssued(policies, completed)
      && key in s.mem.userPolicies && Joined(s.mem.userPolicies[key]) == Joined(policies)
  }

  lemma IssueKeepsExactly(s: State, key: string, credential: Credential, policies: Policies, completed: nat)
    requires IssueOk(s.mem, key, credential, policies) && 0 < completed <= IssueCalls(policies)
    ensures Canonical(Issued(s, key, credential, policies, completed).mem) == Canonical(s.mem) <==>
            && HalfIssued(policies, completed)
            && key in s.mem.userPolicies && Joined(s.mem.userPolicies[key]) == Joined(policies)
  {
    var g, t := s.mem, Issued(s, key, credential, policies, completed);
    if HalfIssued(policies, completed) {
      var m := Remapped(g.userPolicies, key, policies);
      assert t.mem == g.(userPolicies := m, groupPolicies := g.groupPolicies);
      MappingsShow(g, m, g.groupPolicies);
      MappingTextShows(g.userPolicies, key, policies);
    } else {
      UserShows(g, t.mem, key);
    }
  }

  lemma NativeKeepsExactly(v: Server, s: State, ctx: Context, r: Request, k: nat)
    requires Plan(v.env, v.claims, s.mem, ctx, r).Ok? && 0 < k <= |Plan(v.env, v.claims, s.mem, ctx, r).value|
    ensures Canonical(Cut(s, Plan(v.env, v.claims, s.mem, ctx, r).value, k).mem) == Canonical(s.mem) <==>
            if k < |Plan(v.env, v.claims, s.mem, ctx, r).value| then CutSilently(s.mem, r) else Idle(s.mem, r)
  {
    var plan := Plan(v.env, v.claims, s.mem, ctx, r).value;
    if k < |plan| {
      CutKeepsExactly(v, s, ctx, r, k);
    } else {
      assert plan[..k] == plan;
      CommitKeepsExactly(v, s, ctx, r);
    }
  }

  /** Main result: an event, committed or cut short anywhere, leaves the fingerprint as it was exactly when it is
      silent. */
  lemma FingerprintKeptExactly(v: Server, s: State, ev: Event, s': State)
    requires Next(v, s, ev, s')
    ensures Canonical(s'.mem) == Canonical(s.mem) <==> Silent(v, s, ev)
  {
    if ev.completed > 0 {
      match ev
      case Native(ctx, r, completed) => NativeKeepsExactly(v, s, ctx, r, completed);
      case Issue(key, credential, policies, completed) => IssueKeepsExactly(s, key, credential, policies, completed);
    }
  }

  lemma SilentAt(v: Server, states: seq<State>, events: seq<Event>, k: nat, l: nat)
    requires Run(v, states, events) && k < l < |states| && l == k + 1 && Silent(v, states[k], events[k])
    ensures Canonical(states[l].mem) == Canonical(states[k].mem)
  {
    FingerprintKeptExactly(v, states[k], events[k], states[k + 1]);
  }

  lemma {:induction false} SameThroughout(states: seq<State>, i: nat, j: nat)
    requires i <= j < |states|
    requires forall k, l :: i <= k < l <= j && l == k + 1 ==> Canonical(states[l].mem) == Canonical(states[k].mem)
    ensures Canonical(states[j].mem) == Canonical(states[i].mem)
    decreases j
  {
    if i < j {
      SameThroughout(states, i, j - 1);
      assert Canonical(states[j].mem) == Canonical(states[j - 1].mem);
    }
  }

  lemma SilentRun(v: Server, states: seq<State>, events: seq<Event>, i: nat, j: nat)
    requires Run(v, states, events) && i <= j < |states|
    requires forall k :: i <= k < j ==> Silent(v, states[k], events[k])
    ensures Canonical(states[j].mem) == Canonical(states[i].mem)
  {
    forall k, l | i <= k < l <= j && l == k + 1 ensures Canonical(states[l].mem) == Canonical(states[k].mem) {
      SilentAt(v, states, events, k, l);
    }
    SameThroughout(states, i, j);
  }

  /** Main result: once anything has shown, be it a whole request or a part of one, every draft issued before it is
      refused, for as long as nothing further shows. */
  lemma ChangeRefusesOtherDrafts(h: Hashing, v: Server, states: seq<State>, events: seq<Event>, i: nat, j: nat,
                                 kind: Kind, target: string, expires: int)
    requires Collisionless(h, v.env)
    requires Run(v, states, events) && i < j < |events| && BringsDraft(events[j])
    requires !Silent(v, states[i], events[i]) && forall k :: i < k < j ==> Silent(v, states[k], events[k])
    ensures TokenOf(v.env, states[i].mem, kind, target, expires) != Ok(DraftOf(events[j].request).token)
  {
    FingerprintKeptExactly(v, states[i], events[i], states[i + 1]);
    SilentRun(v, states, events, i + 1, j);
    if TokenOf(v.env, states[i].mem, kind, target, expires) == Ok(DraftOf(events[j].request).token) {
      CommitsOnlyWhereIssued(h, v, states, events, i, j, kind, target, expires);
    }
  }
}
