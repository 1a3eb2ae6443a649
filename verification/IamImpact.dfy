/** Who is affected by a committed mutation, and when the impact lists the server reports name them all. */
module IamImpact {
  import opened Lex
  import opened IamGraph
  import opened IamPlans
  import opened IamRequests
  import opened IamSafety
  import opened IamLinks

  ghost function Union(a: seq<string>, b: seq<string>): seq<string> {
    SortedOf((set k | k in a) + (set k | k in b))
  }

  /** The affected keys reported once the whole plan has run; `Err` when the server cannot report. */
  ghost function Report(env: Env, before: Graph, after: Graph, r: Request): Result<seq<string>> {
    match r
    case UserRequest(DeleteUser, target, _) => Impact(env, before, UserKind, target)
    case UserRequest(_, target, _) =>
      var a :- Impact(env, before, UserKind, target);
      var b :- Impact(env, after, UserKind, target);
      Ok(Union(a, b))
    case GroupRequest(DeleteGroup, target, _, _) => Impact(env, before, GroupKind, target)
    case GroupRequest(_, target, _, _) =>
      var a :- Impact(env, before, GroupKind, target);
      var b :- Impact(env, after, GroupKind, target);
      Ok(Union(a, b))
    case ServiceRequest(_, target, _) => Impact(env, before, ServiceKind, target)
    case BindRequest(kind, target, _, _, _) => Impact(env, before, kind, target)
    case UserSecretRequest(target, _, _, _) => Impact(env, before, UserKind, target)
    case _ => Err(InvalidArgument)
  }

  lemma ReportSorted(env: Env, before: Graph, after: Graph, r: Request)
    requires Report(env, before, after, r).Ok?
    ensures SortedBy(Self, Report(env, before, after, r).value) && Distinct(Report(env, before, after, r).value)
  {}

  // ---- What policy evaluation depends on ----

  ghost predicate SamePolicyOf(g: Graph, g': Graph, name: string) {
    PolicySet(g.userPolicies, name) == PolicySet(g'.userPolicies, name)
    && (name in g.userPolicies <==> name in g'.userPolicies)
  }

  ghost predicate SameGroup(g: Graph, g': Graph, n: string) {
    && (n in g.groups <==> n in g'.groups)
    && (n in g.groups ==> g.groups[n].status == g'.groups[n].status)
    && PolicySet(g.groupPolicies, n) == PolicySet(g'.groupPolicies, n)
  }

  /** Everything evaluation reads about a name is the same in both graphs. */
  ghost predicate SameView(g: Graph, g': Graph, name: string) {
    && (name in g.users <==> name in g'.users)
    && (name in g.users ==>
        && g.users[name] == g'.users[name]
        && SamePolicyOf(g, g', name)
        && (g.users[name].parentUser != "" ==> SamePolicyOf(g, g', g.users[name].parentUser))
        && g.Index(name) == g'.Index(name)
        && forall n :: n in g.Index(name) ==> SameGroup(g, g', n))
  }

  lemma SameViewSamePolicies(g: Graph, g': Graph, now: int, name: string)
    requires SameView(g, g', name)
    ensures PolicyGet(g, now, name) == PolicyGet(g', now, name)
  {
    if name in g.users {
      assert forall n :: n in g.Index(name) ==> SameGroup(g, g', n);
      assert GroupPolicySet(g, g.Index(name)) == GroupPolicySet(g', g'.Index(name));
    }
  }

  lemma SameViewsSameEffect(g: Graph, g': Graph, now: int, key: string)
    requires SameView(g, g', key)
    requires key in g.users && g.users[key].parentUser != "" ==> SameView(g, g', g.users[key].parentUser)
    ensures Effective(g, now, key) == Effective(g', now, key)
  {
    SameViewSamePolicies(g, g', now, key);
    if key in g.users && g.users[key].parentUser != "" {
      SameViewSamePolicies(g, g', now, g.users[key].parentUser);
    }
  }

  // ---- Changes confined to one user ----

  /** Only the user's own record, mapping and children may differ; groups and other indexes are the same. */
  ghost predicate ConfinedToUser(g: Graph, g': Graph, user: string) {
    && (forall k :: k != user && !(k in g.users && g.users[k].parentUser == user) ==>
        && (k in g.users <==> k in g'.users) && (k in g.users ==> g.users[k] == g'.users[k])
        && SamePolicyOf(g, g', k) && g.Index(k) == g'.Index(k))
    && (forall n :: SameGroup(g, g', n))
  }

  lemma ConfinedUserSound(g: Graph, g': Graph, now: int, user: string, key: string)
    requires FlatBelow(g, user) && user != "" && ConfinedToUser(g, g', user) && key !in Reached(g, {user})
             && key != user
    ensures Effective(g, now, key) == Effective(g', now, key)
  {
    if key in g.users {
      var p := g.users[key].parentUser;
      assert SameView(g, g', key) by {
        assert p != "" ==> !Childless(g, p);
      }
      if p != "" { ParentOutside(g, g', user, key); }
    }
    SameViewsSameEffect(g, g', now, key);
  }

  /** The parent of a credential the user does not reach is outside the change as well. */
  lemma ParentOutside(g: Graph, g': Graph, user: string, key: string)
    requires FlatBelow(g, user) && user != "" && ConfinedToUser(g, g', user) && key in g.users
    requires g.users[key].parentUser != "" && g.users[key].parentUser != user
    ensures SameView(g, g', g.users[key].parentUser)
  {
    var p := g.users[key].parentUser;
    assert !Childless(g, p);
    assert p !in Children(g, user);
    if p in g.users && g.users[p].parentUser != "" {
      assert !Childless(g, g.users[p].parentUser);
      assert g.users[p].parentUser !in Children(g, user);
    }
  }

  lemma DeletedIsConfined(g: Graph, g': Graph, user: string)
    requires Deleted(g, g', user)
    ensures ConfinedToUser(g, g', user)
  {}

  // ---- Changes confined to one group ----

  ghost predicate ConfinedToGroup(g: Graph, g': Graph, group: string) {
    && g'.users == g.users && g'.userPolicies == g.userPolicies
    && (forall k :: g'.Index(k) - {group} == g.Index(k) - {group})
    && (forall n :: n != group ==> SameGroup(g, g', n))
  }

  /** A credential no affected group user reaches, before or after, sees no change. */
  lemma ConfinedGroupSound(g: Graph, g': Graph, now: int, group: string, key: string)
    requires ConfinedToGroup(g, g', group)
    requires key !in Reached(g, GroupUsers(g, group)) && key !in Reached(g', GroupUsers(g', group))
    ensures Effective(g, now, key) == Effective(g', now, key)
  {
    if key in g.users {
      OutsideGroup(g, g', group, key);
      var p := g.users[key].parentUser;
      if p != "" && p in g.users { OutsideGroup(g, g', group, p); }
    }
    SameViewsSameEffect(g, g', now, key);
  }

  lemma OutsideGroup(g: Graph, g': Graph, group: string, key: string)
    requires ConfinedToGroup(g, g', group) && key in g.users
    requires key !in GroupUsers(g, group) && key !in GroupUsers(g', group)
    ensures SameView(g, g', key)
  {
    assert group !in g.Index(key) && group !in g'.Index(key);
    assert g'.Index(key) == g'.Index(key) - {group} == g.Index(key) - {group} == g.Index(key);
    forall n | n in g.Index(key) ensures SameGroup(g, g', n) {}
  }

  lemma SavedGroupIsConfined(s: State, group: string, info: GroupInfo, joins: set<string>, leaves: set<string>)
    ensures ConfinedToGroup(s.mem, Apply(s, SaveGroup(group, info, joins, leaves, false)).mem, group)
  {}

  lemma MappedGroupIsConfined(s: State, group: string, policies: Policies)
    ensures ConfinedToGroup(s.mem, Apply(s, SetGroupMapping(group, policies)).mem, group)
  {}

  lemma DroppedGroupIsConfined(s: State, group: string)
    ensures ConfinedToGroup(s.mem, ApplyAll(s, [DropGroupMapping(group), DropGroup(group)]).mem, group)
  {
    var s1 := Apply(s, DropGroupMapping(group));
    var t := Apply(s1, DropGroup(group));
    assert [DropGroupMapping(group), DropGroup(group)][1..] == [DropGroup(group)];
    assert ApplyAll(s, [DropGroupMapping(group), DropGroup(group)]) == ApplyAll(s1, [DropGroup(group)]) == t;
    forall k ensures t.mem.Index(k) - {group} == s.mem.Index(k) - {group} {
      if k in s.mem.memberships { assert t.mem.memberships[k] == s.mem.memberships[k] - {group}; }
    }
    forall n | n != group ensures SameGroup(s.mem, t.mem, n) {}
  }

  // ---- Soundness per request ----

  ghost predicate Affects(g: Graph, g': Graph, now: int, key: string) {
    Effective(g, now, key) != Effective(g', now, key)
  }

  ghost predicate Sound(g: Graph, g': Graph, now: int, report: seq<string>) {
    forall key :: Affects(g, g', now, key) ==> key in report
  }

  /** A change confined to one user is covered by what the user reaches. */
  lemma UserReachSound(g: Graph, g': Graph, now: int, user: string)
    requires FlatBelow(g, user) && user != "" && user in g.users && ConfinedToUser(g, g', user)
    ensures Sound(g, g', now, SortedOf(Reached(g, {user})))
  {
    forall key | Affects(g, g', now, key) ensures key in SortedOf(Reached(g, {user})) {
      if key !in Reached(g, {user}) {
        assert key != user;
        ConfinedUserSound(g, g', now, user, key);
      }
    }
  }

  /** A change confined to one group is covered by what its users reach before and after. */
  lemma GroupReachSound(g: Graph, g': Graph, now: int, group: string, report: seq<string>)
    requires ConfinedToGroup(g, g', group)
    requires forall k :: k in Reached(g, GroupUsers(g, group)) + Reached(g', GroupUsers(g', group)) ==> k in report
    ensures Sound(g, g', now, report)
  {
    forall key | Affects(g, g', now, key) ensures key in report {
      if key !in Reached(g, GroupUsers(g, group)) && key !in Reached(g', GroupUsers(g', group)) {
        ConfinedGroupSound(g, g', now, group, key);
      }
    }
  }

  lemma DeletedKeys(g: Graph, g': Graph, user: string)
    requires Deleted(g, g', user) && user != "" && user in g.users
    ensures Reached(g, {user}) == g.users.Keys - g'.users.Keys
  {}

  /** A credential that outlives its parent is judged differently. */
  lemma SurvivorAffected(g: Graph, g': Graph, now: int, parent: string, key: string)
    requires key in g.users && key in g'.users && g'.users[key] == g.users[key]
    requires g.users[key].parentUser == parent != "" && parent in g.users && parent !in g'.users
    ensures Affects(g, g', now, key)
  {
    assert Effective(g, now, key).1.Ok? && Effective(g', now, key).1 == Err(NoSuchUser);
  }

  lemma GrandchildMissed(g: Graph, g': Graph, now: int, user: string)
    requires Deleted(g, g', user) && user in g.users && g.users[user].parentUser == "" && user != ""
             && !FlatBelow(g, user)
    ensures !Sound(g, g', now, SortedOf(Reached(g, {user})))
  {
    var c :| c in Children(g, user) && !Childless(g, c);
    var k :| k in g.users && g.users[k].parentUser != "" && g.users[k].parentUser == c;
    SurvivorAffected(g, g', now, c, k);
  }

  lemma DeletedReport(s: State, now: int, user: string)
    requires user in s.mem.users && s.mem.users[user].parentUser == "" && user != ""
    ensures var g' := ApplyAll(s, DeletePlan(s.mem, user)).mem;
            && Reached(s.mem, {user}) == s.mem.users.Keys - g'.users.Keys
            && (Sound(s.mem, g', now, SortedOf(Reached(s.mem, {user}))) <==> FlatBelow(s.mem, user))
  {
    var g, g' := s.mem, ApplyAll(s, DeletePlan(s.mem, user)).mem;
    DeletionEffect(s, user);
    DeletedKeys(g, g', user);
    if FlatBelow(g, user) {
      DeletedIsConfined(g, g', user);
      UserReachSound(g, g', now, user);
    } else {
      GrandchildMissed(g, g', now, user);
    }
  }

  lemma UserImpact(env: Env, g: Graph, ctx: Context, action: UserAction, target: string, draft: Draft)
    requires UserPlan(env, g, ctx, action, target, draft).Ok?
    ensures Impact(env, g, UserKind, target) == Ok(SortedOf(Reached(g, {target})))
  {}

  lemma SameKeys(keys: set<string>)
    ensures (set k | k in SortedOf(keys)) == keys
  {}

  /** Deleting a user reports exactly the keys that disappear from the user map, and everyone affected is among them
      exactly when nothing hangs below a child. */
  lemma DeletionReportExact(env: Env, s: State, ctx: Context, target: string, draft: Draft, now: int)
    requires UserPlan(env, s.mem, ctx, DeleteUser, target, draft).Ok?
    ensures var t := ApplyAll(s, UserPlan(env, s.mem, ctx, DeleteUser, target, draft).value);
            var report := Report(env, s.mem, t.mem, UserRequest(DeleteUser, target, draft));
            && report.Ok?
            && (set k | k in report.value) == s.mem.users.Keys - t.mem.users.Keys
            && (Sound(s.mem, t.mem, now, report.value) <==> FlatBelow(s.mem, target))
  {
    UserPlanIs(env, s.mem, ctx, target, draft);
    UserImpact(env, s.mem, ctx, DeleteUser, target, draft);
    DeletedReport(s, now, target);
    SameKeys(Reached(s.mem, {target}));
  }

  /** Saving a credential changes what is evaluated for itself and for what hangs directly below. */
  lemma SaveSound(s: State, now: int, step: Step)
    requires step.SaveIdentity? && step.key != "" && step.key in s.mem.users
    requires step.credential.parentUser == s.mem.users[step.key].parentUser
    ensures ApplyAll(s, [step]) == Apply(s, step)
    ensures Sound(s.mem, Apply(s, step).mem, now, SortedOf(Reached(s.mem, {step.key})))
  {
    var g, g', reach := s.mem, Apply(s, step).mem, Reached(s.mem, {step.key});
    OneStep(s, step);
    forall key | key !in reach ensures !Affects(g, g', now, key) {
      SavedView(s, now, step, key);
      if key in g.users { SavedView(s, now, step, g.users[key].parentUser); }
    }
    SoundExactly(g, g', now, reach);
  }

  /** A status change leaves the reach of the user as it was, so the report is the same before and after. */
  lemma StatusReportSound(env: Env, s: State, ctx: Context, action: UserAction, target: string, draft: Draft, now: int)
    requires !action.DeleteUser?
    requires UserPlan(env, s.mem, ctx, action, target, draft).Ok?
    ensures var t := ApplyAll(s, UserPlan(env, s.mem, ctx, action, target, draft).value);
            var report := Report(env, s.mem, t.mem, UserRequest(action, target, draft));
            report.Ok? && Sound(s.mem, t.mem, now, report.value)
  {
    var step := UserPlan(env, s.mem, ctx, action, target, draft).value[0];
    SaveSound(s, now, step);
    var g, g' := s.mem, Apply(s, step).mem;
    assert g'.users.Keys == g.users.Keys;
    assert |g'.users| == |g'.users.Keys| == |g.users|;
    var a, b := Impact(env, g, UserKind, target).value, Impact(env, g', UserKind, target).value;
    forall k | k in a ensures k in Union(a, b) { assert k in (set k | k in a) + (set k | k in b); }
  }

  lemma UserSecretReportSound(env: Env, s: State, ctx: Context, target: string, secret: string, binding: string,
                              draft: Draft, now: int)
    requires UserSecretPlan(env, s.mem, ctx, target, secret, binding, draft).Ok?
    ensures var t := ApplyAll(s, UserSecretPlan(env, s.mem, ctx, target, secret, binding, draft).value);
            var report := Report(env, s.mem, t.mem, UserSecretRequest(target, secret, binding, draft));
            report.Ok? && Sound(s.mem, t.mem, now, report.value)
  {
    SaveSound(s, now, UserSecretPlan(env, s.mem, ctx, target, secret, binding, draft).value[0]);
  }

  /** A credential below a child of the user. */
  ghost predicate Grandchild(g: Graph, user: string, key: string) {
    && key in g.users && key != user && g.users[key].parentUser != "" && g.users[key].parentUser != user
    && g.users[key].parentUser in Children(g, user)
  }

  /** A child does not see its parent's policies become the given ones: it has its own mapping, or is not valid, or
      its groups grant the difference. */
  ghost predicate Unseen(g: Graph, now: int, child: string, policies: set<string>)
    requires child in g.users
  {
    var groups := GroupPolicySet(g, g.Index(child));
    || child in g.userPolicies || !g.users[child].IsValid(now)
    || PolicySet(g.userPolicies, g.users[child].parentUser) + groups == policies + groups
  }

  ghost predicate GrandchildrenKept(g: Graph, now: int, user: string, policies: set<string>) {
    forall k :: Grandchild(g, user, k) ==> Unseen(g, now, g.users[k].parentUser, policies)
  }

  lemma RemappedPolicies(m: map<string, Policies>, m': map<string, Policies>, user: string, policies: Policies)
    requires m' == if policies == [] then m - {user} else m[user := policies]
    ensures PolicySet(m', user) == (set p | p in policies)
    ensures forall n :: n != user ==> PolicySet(m', n) == PolicySet(m, n) && (n in m' <==> n in m)
  {}

  lemma MappedPolicies(s: State, user: string, policies: Policies)
    ensures var g, g' := s.mem, Apply(s, SetUserMapping(user, policies)).mem;
            && g'.users == g.users && g'.groups == g.groups && g'.groupPolicies == g.groupPolicies
            && g'.memberships == g.memberships
            && PolicySet(g'.userPolicies, user) == (set p | p in policies)
            && (forall n :: n != user ==> SamePolicyOf(g, g', n))
  {
    var g, g' := s.mem, Apply(s, SetUserMapping(user, policies)).mem;
    RemappedPolicies(g.userPolicies, g'.userPolicies, user, policies);
  }

  /** A credential other than the user sees the new mapping as a child without a mapping of its own. */
  lemma MappedSeen(s: State, now: int, user: string, policies: Policies, name: string)
    requires name != user && name in s.mem.users && user != ""
    ensures var g, g' := s.mem, Apply(s, SetUserMapping(user, policies)).mem;
            PolicyGet(g, now, name) == PolicyGet(g', now, name) <==>
            (name in Children(g, user) ==> Unseen(g, now, name, set p | p in policies))
  {
    var g, g' := s.mem, Apply(s, SetUserMapping(user, policies)).mem;
    MappedPolicies(s, user, policies);
    assert SamePolicyOf(g, g', name);
    if name !in Children(g, user) {
      assert SameView(g, g', name);
      SameViewSamePolicies(g, g', now, name);
    } else {
      assert GroupPolicySet(g, g.Index(name)) == GroupPolicySet(g', g'.Index(name));
    }
  }

  lemma MappedAffects(s: State, now: int, user: string, policies: Policies, key: string)
    requires user != "" && key !in Reached(s.mem, {user})
    ensures var g, g' := s.mem, Apply(s, SetUserMapping(user, policies)).mem;
            Affects(g, g', now, key) <==>
            Grandchild(g, user, key) && !Unseen(g, now, g.users[key].parentUser, set p | p in policies)
  {
    var g, g' := s.mem, Apply(s, SetUserMapping(user, policies)).mem;
    MappedPolicies(s, user, policies);
    if key in g.users {
      MappedSeen(s, now, user, policies, key);
      var p := g.users[key].parentUser;
      if p != "" && p in g.users { MappedSeen(s, now, user, policies, p); }
    }
  }

  lemma MapUserExact(s: State, now: int, user: string, policies: Policies)
    requires user != ""
    ensures Sound(s.mem, ApplyAll(s, [SetUserMapping(user, policies)]).mem, now, SortedOf(Reached(s.mem, {user})))
       <==> GrandchildrenKept(s.mem, now, user, set p | p in policies)
  {
    var g, g', reach := s.mem, Apply(s, SetUserMapping(user, policies)).mem, Reached(s.mem, {user});
    OneStep(s, SetUserMapping(user, policies));
    forall key | key !in reach
      ensures Affects(g, g', now, key)
         <==> Grandchild(g, user, key) && !Unseen(g, now, g.users[key].parentUser, set p | p in policies)
    {
      MappedAffects(s, now, user, policies, key);
    }
    SoundExactly(g, g', now, reach);
    forall k | Grandchild(g, user, k) ensures k !in reach {}
  }

  lemma SoundExactly(g: Graph, g': Graph, now: int, keys: set<string>)
    ensures Sound(g, g', now, SortedOf(keys)) <==> forall key :: key !in keys ==> !Affects(g, g', now, key)
  {}

  lemma MapGroupSound(s: State, now: int, group: string, policies: Policies)
    ensures Sound(s.mem, ApplyAll(s, [SetGroupMapping(group, policies)]).mem, now,
                  SortedOf(Reached(s.mem, GroupUsers(s.mem, group))))
  {
    var t := Apply(s, SetGroupMapping(group, policies));
    MappedGroupIsConfined(s, group, policies);
    assert ApplyAll(s, [SetGroupMapping(group, policies)]) == t;
    SameGroupUsers(s.mem, t.mem, group);
    GroupReachSound(s.mem, t.mem, now, group, SortedOf(Reached(s.mem, GroupUsers(s.mem, group))));
  }

  lemma BindPlanShape(env: Env, g: Graph, ctx: Context, kind: Kind, target: string, binding: string,
                      policies: seq<string>, draft: Draft)
    requires BindPlan(env, g, ctx, kind, target, binding, policies, draft).Ok?
    ensures kind != ServiceKind && target != "" && Impact(env, g, kind, target).Ok? && CanonicalNames(policies).Ok?
    ensures BindPlan(env, g, ctx, kind, target, binding, policies, draft).value ==
            [if kind == UserKind then SetUserMapping(target, CanonicalNames(policies).value)
             else SetGroupMapping(target, CanonicalNames(policies).value)]
  {}

  lemma NamedPolicies(policies: seq<string>)
    requires CanonicalNames(policies).Ok?
    ensures (set p | p in CanonicalNames(policies).value) == (set p | p in policies)
  {
    SortedMembers(policies);
  }

  /** The report taken before a binding change covers everyone affected exactly when no credential below a child of the
      user sees the change. */
  lemma BindReportExact(env: Env, s: State, ctx: Context, kind: Kind, target: string, binding: string,
                        policies: seq<string>, draft: Draft, now: int)
    requires BindPlan(env, s.mem, ctx, kind, target, binding, policies, draft).Ok?
    ensures var t := ApplyAll(s, BindPlan(env, s.mem, ctx, kind, target, binding, policies, draft).value);
            && Impact(env, s.mem, kind, target).Ok?
            && (Sound(s.mem, t.mem, now, Impact(env, s.mem, kind, target).value) <==>
                (kind == UserKind ==> GrandchildrenKept(s.mem, now, target, set p | p in policies)))
  {
    BindPlanShape(env, s.mem, ctx, kind, target, binding, policies, draft);
    var names := CanonicalNames(policies).value;
    if kind == UserKind {
      MapUserExact(s, now, target, names);
      NamedPolicies(policies);
    } else {
      MapGroupSound(s, now, target, names);
    }
  }

  lemma SameGroupUsers(g: Graph, g': Graph, group: string)
    requires g'.users == g.users && g'.groups == g.groups && g'.memberships == g.memberships
    ensures Reached(g', GroupUsers(g', group)) == Reached(g, GroupUsers(g, group))
  {}

  lemma SaveGroupSound(s: State, now: int, step: Step, a: seq<string>, b: seq<string>)
    requires step.SaveGroup? && !step.bump
    requires a == SortedOf(Reached(s.mem, GroupUsers(s.mem, step.group)))
    requires b == SortedOf(Reached(Apply(s, step).mem, GroupUsers(Apply(s, step).mem, step.group)))
    ensures ApplyAll(s, [step]) == Apply(s, step)
    ensures Sound(s.mem, Apply(s, step).mem, now, Union(a, b))
  {
    var t := Apply(s, step);
    SavedGroupIsConfined(s, step.group, step.info, step.joins, step.leaves);
    var all := (set k | k in a) + (set k | k in b);
    assert forall k :: k in Union(a, b) <==> k in all;
    GroupReachSound(s.mem, t.mem, now, step.group, Union(a, b));
  }

  lemma NobodyAfterDrop(s: State, group: string)
    ensures Reached(ApplyAll(s, [DropGroupMapping(group), DropGroup(group)]).mem,
                    GroupUsers(ApplyAll(s, [DropGroupMapping(group), DropGroup(group)]).mem, group)) == {}
  {
    var s1 := Apply(s, DropGroupMapping(group));
    var t := Apply(s1, DropGroup(group));
    assert [DropGroupMapping(group), DropGroup(group)][1..] == [DropGroup(group)];
    assert ApplyAll(s, [DropGroupMapping(group), DropGroup(group)]) == ApplyAll(s1, [DropGroup(group)]) == t;
    forall u ensures group !in t.mem.Index(u) {}
    assert GroupUsers(t.mem, group) == {};
  }

  lemma DropGroupSound(s: State, now: int, group: string)
    ensures Sound(s.mem, ApplyAll(s, [DropGroupMapping(group), DropGroup(group)]).mem, now,
                  SortedOf(Reached(s.mem, GroupUsers(s.mem, group))))
  {
    DroppedGroupIsConfined(s, group);
    NobodyAfterDrop(s, group);
    GroupReachSound(s.mem, ApplyAll(s, [DropGroupMapping(group), DropGroup(group)]).mem, now, group,
                    SortedOf(Reached(s.mem, GroupUsers(s.mem, group))));
  }

  lemma GroupReportSound(env: Env, s: State, ctx: Context, action: GroupAction, target: string,
                         members: seq<string>, draft: Draft, now: int)
    requires GroupPlan(env, s.mem, ctx, action, target, members, draft).Ok?
    ensures var t := ApplyAll(s, GroupPlan(env, s.mem, ctx, action, target, members, draft).value);
            var report := Report(env, s.mem, t.mem, GroupRequest(action, target, members, draft));
            report.Ok? ==> Sound(s.mem, t.mem, now, report.value)
  {
    var plan := GroupPlan(env, s.mem, ctx, action, target, members, draft).value;
    GroupPlanShape(env, s.mem, ctx, action, target, members, draft);
    GroupStepsSound(env, s, action, target, members, draft, plan, now);
  }

  lemma GroupStepsSound(env: Env, s: State, action: GroupAction, target: string, members: seq<string>, draft: Draft,
                        plan: seq<Step>, now: int)
    requires Impact(env, s.mem, GroupKind, target).Ok?
    requires action.DeleteGroup? ==> plan == [DropGroupMapping(target), DropGroup(target)] && target in s.mem.groups
                                     && s.mem.groups[target].members == []
    requires !action.DeleteGroup? ==> |plan| == 1 && plan[0].SaveGroup? && !plan[0].bump && plan[0].group == target
    ensures var t := ApplyAll(s, plan);
            var report := Report(env, s.mem, t.mem, GroupRequest(action, target, members, draft));
            report.Ok? ==> Sound(s.mem, t.mem, now, report.value)
  {
    if action.DeleteGroup? {
      DropGroupSound(s, now, target);
    } else {
      assert plan == [plan[0]];
      GroupSaveReport(env, s, target, plan[0], now);
    }
  }

  lemma GroupSaveReport(env: Env, s: State, target: string, step: Step, now: int)
    requires step.SaveGroup? && !step.bump && step.group == target && Impact(env, s.mem, GroupKind, target).Ok?
    ensures var t := ApplyAll(s, [step]);
            var b := Impact(env, t.mem, GroupKind, target);
            b.Ok? ==> Sound(s.mem, t.mem, now, Union(Impact(env, s.mem, GroupKind, target).value, b.value))
  {
    var t := Apply(s, step);
    assert ApplyAll(s, [step]) == t;
    var a, b := Impact(env, s.mem, GroupKind, target), Impact(env, t.mem, GroupKind, target);
    if b.Ok? { SaveGroupSound(s, now, step, a.value, b.value); }
  }

  lemma PrunedIsConfined(s: State, t: State, key: string)
    requires Pruned(s.mem, t.mem, [key])
    ensures ConfinedToUser(s.mem, t.mem, key)
  {}

  lemma DropServiceSound(s: State, now: int, key: string)
    requires FlatBelow(s.mem, key) && key != "" && key in s.mem.users
    ensures Sound(s.mem, ApplyAll(s, [DropMapping(Regular, key), DropIdentity(Service, key)]).mem, now,
                  SortedOf(Reached(s.mem, {key})))
  {
    DropBothPrunes(s, Regular, Service, key);
    var t := ApplyAll(s, [DropMapping(Regular, key), DropIdentity(Service, key)]);
    PrunedIsConfined(s, t, key);
    UserReachSound(s.mem, t.mem, now, key);
  }

  /** A childless service account reaches nothing but itself. */
  lemma ServiceReach(g: Graph, key: string)
    requires Childless(g, key) && key in g.users && key != ""
    ensures SortedOf(Reached(g, {key})) == [key] && FlatBelow(g, key)
  {
    assert Reached(g, {key}) == {key};
    assert Enumerates([key], {key});
    EnumerationUnique([key], SortedOf({key}), {key});
  }

  lemma ServicePlanShape(env: Env, claims: Credential -> bool, g: Graph, ctx: Context, action: ServiceAction,
                         target: string, draft: Draft)
    requires ServicePlan(env, claims, g, ctx, action, target, draft).Ok?
    ensures target in g.users && target != "" && Impact(env, g, ServiceKind, target) == Ok([target])
    ensures g.users[target].parentUser != target
    ensures ServicePlan(env, claims, g, ctx, action, target, draft) == ServiceSteps(g.users[target], action, target)
  {}

  /** A change of the service account's validity that takes something from, or gives something to, what hangs below. */
  ghost predicate Revalued(g: Graph, now: int, target: string, edited: Credential)
    requires target in g.users
  {
    g.users[target].IsValid(now) != edited.IsValid(now) && Granted(g, target) != {}
  }

  ghost predicate ServiceCovered(g: Graph, now: int, action: ServiceAction, target: string)
    requires target in g.users
  {
    || Childless(g, target)
    || (!action.DeleteService? && ServiceEdit(g.users[target], action).Ok?
        && !Revalued(g, now, target, ServiceEdit(g.users[target], action).value))
  }

  lemma ServiceDropExact(s: State, target: string, now: int)
    requires target in s.mem.users && target != "" && s.mem.users[target].parentUser != target
    ensures Sound(s.mem, ApplyAll(s, [DropMapping(Regular, target), DropIdentity(Service, target)]).mem, now, [target])
       <==> Childless(s.mem, target)
  {
    var g, t := s.mem, ApplyAll(s, [DropMapping(Regular, target), DropIdentity(Service, target)]);
    if Childless(g, target) {
      ServiceReach(g, target);
      DropServiceSound(s, now, target);
    } else {
      DropBothPrunes(s, Regular, Service, target);
      var k :| k in g.users && g.users[k].parentUser != "" && g.users[k].parentUser == target;
      SurvivorAffected(g, t.mem, now, target, k);
    }
  }

  lemma SavedView(s: State, now: int, step: Step, name: string)
    requires step.SaveIdentity? && step.key in s.mem.users
             && step.credential.parentUser == s.mem.users[step.key].parentUser
    ensures name != step.key ==> PolicyGet(Apply(s, step).mem, now, name) == PolicyGet(s.mem, now, name)
    ensures PolicyGet(Apply(s, step).mem, now, step.key) == PolicyGet(s.mem, now, step.key)
       <==> !Revalued(s.mem, now, step.key, step.credential)
  {
    var g, g' := s.mem, Apply(s, step).mem;
    assert GroupPolicySet(g, g.Index(step.key)) == GroupPolicySet(g', g'.Index(step.key));
    assert Granted(g', step.key) == Granted(g, step.key);
    if name != step.key {
      assert SameView(g, g', name);
      SameViewSamePolicies(g, g', now, name);
    }
  }

  lemma ServiceSaveExact(s: State, now: int, step: Step)
    requires step.SaveIdentity? && step.key in s.mem.users && step.key != ""
    requires step.credential.parentUser == s.mem.users[step.key].parentUser != step.key
    ensures Sound(s.mem, Apply(s, step).mem, now, [step.key])
       <==> Childless(s.mem, step.key) || !Revalued(s.mem, now, step.key, step.credential)
  {
    var g, g', target := s.mem, Apply(s, step).mem, step.key;
    forall key | key != target
      ensures Affects(g, g', now, key) <==>
              key in g.users && g.users[key].parentUser == target && Revalued(g, now, target, step.credential)
    {
      SavedView(s, now, step, key);
      if key in g.users { SavedView(s, now, step, g.users[key].parentUser); }
    }
  }

  lemma ServiceStepsExact(s: State, action: ServiceAction, target: string, now: int)
    requires target in s.mem.users && target != "" && s.mem.users[target].parentUser != target
    requires ServiceSteps(s.mem.users[target], action, target).Ok?
    ensures Sound(s.mem, ApplyAll(s, ServiceSteps(s.mem.users[target], action, target).value).mem, now, [target])
       <==> ServiceCovered(s.mem, now, action, target)
  {
    if action.DeleteService? {
      ServiceDropExact(s, target, now);
    } else {
      var edited := ServiceEdit(s.mem.users[target], action).value;
      var step := SaveIdentity(Service, target, edited, false);
      OneStep(s, step);
      ServiceSaveExact(s, now, step);
    }
  }

  /** A change of a service account affects nobody else, exactly when nothing hangs below it or nothing below can see
      the change. */
  lemma ServiceReportExact(env: Env, claims: Credential -> bool, s: State, ctx: Context, action: ServiceAction,
                           target: string, draft: Draft, now: int)
    requires ServicePlan(env, claims, s.mem, ctx, action, target, draft).Ok?
    ensures target in s.mem.users
    ensures var t := ApplyAll(s, ServicePlan(env, claims, s.mem, ctx, action, target, draft).value);
            var report := Report(env, s.mem, t.mem, ServiceRequest(action, target, draft));
            report.Ok? && (Sound(s.mem, t.mem, now, report.value) <==> ServiceCovered(s.mem, now, action, target))
  {
    ServicePlanShape(env, claims, s.mem, ctx, action, target, draft);
    ServiceStepsExact(s, action, target, now);
  }

  /** Nothing further down is touched than the report covers. */
  ghost predicate Covered(g: Graph, now: int, r: Request) {
    match r
    case UserRequest(DeleteUser, target, _) => FlatBelow(g, target)
    case ServiceRequest(action, target, _) => target in g.users && ServiceCovered(g, now, action, target)
    case BindRequest(UserKind, target, _, policies, _) => GrandchildrenKept(g, now, target, set p | p in policies)
    case _ => true
  }

  /** In two tiers there is nothing further down. */
  lemma TwoTierCovers(env: Env, claims: Credential -> bool, g: Graph, ctx: Context, r: Request, now: int)
    requires TwoTier(g, env.root) && Plan(env, claims, g, ctx, r).Ok?
    ensures Covered(g, now, r)
  {
    if r.ServiceRequest? {
      ServicePlanShape(env, claims, g, ctx, r.serviceAction, r.target, r.draft);
      assert g.users[r.target].IsServiceAccount();
    }
  }

  /** Main result, on every graph: once a relationship mutation has fully committed, the reported list holds every
      credential whose effective policies differ, by mapping, by group or by parent, exactly when nothing further
      down than the report looks can see the change. */
  lemma ImpactReportsExact(env: Env, claims: Credential -> bool, s: State, ctx: Context, r: Request, now: int)
    requires Plan(env, claims, s.mem, ctx, r).Ok?
    ensures var t := ApplyAll(s, Plan(env, claims, s.mem, ctx, r).value);
            var report := Report(env, s.mem, t.mem, r);
            report.Ok? ==> (Sound(s.mem, t.mem, now, report.value) <==> Covered(s.mem, now, r))
  {
    match r
    case UserRequest(action, target, draft) =>
      if action.DeleteUser? { DeletionReportExact(env, s, ctx, target, draft, now); }
      else { StatusReportSound(env, s, ctx, action, target, draft, now); }
    case GroupRequest(action, target, members, draft) =>
      GroupReportSound(env, s, ctx, action, target, members, draft, now);
    case ServiceRequest(action, target, draft) => ServiceReportExact(env, claims, s, ctx, action, target, draft, now);
    case BindRequest(kind, target, binding, policies, draft) =>
      BindReportExact(env, s, ctx, kind, target, binding, policies, draft, now);
    case UserSecretRequest(target, secret, binding, draft) =>
      UserSecretReportSound(env, s, ctx, target, secret, binding, draft, now);
    case _ =>
  }
}
