/** Whatever a native request does, and wherever a failing store call stops it, the invariant holds. */
module IamSafety {
  import opened Lex
  import opened IamGraph
  import opened IamPlans
  import opened IamRequests

  lemma OneStepChain(s: State, step: Step)
    requires StepOk(s.mem, step)
    ensures Chain(s, [step])
  {}

  lemma TwoStepChain(s: State, a: Step, b: Step)
    requires StepOk(s.mem, a) && StepOk(Apply(s, a).mem, b)
    ensures Chain(s, [a, b])
  {}

  // ---- Deleting a user, from any graph ----

  /** What the group phase of a deletion has done: the user is out of the listed groups, nothing else moved. */
  ghost predicate Left(g: Graph, g': Graph, user: string, groups: seq<string>) {
    && g' == g.(groups := g'.groups, memberships := g'.memberships, epoch := g.epoch + |groups|)
    && g'.groups.Keys == g.groups.Keys
    && (forall n :: n in g.groups ==>
        g'.groups[n] ==
          if n in groups then g.groups[n].(members := Without(g.groups[n].members, user)) else g.groups[n])
    && g'.memberships - {user} == g.memberships - {user}
  }

  lemma {:induction false} GroupsLeft(g: Graph, s: State, user: string, groups: seq<string>)
    requires Distinct(groups)
    requires forall n :: n in groups ==> n in g.groups && n in s.mem.groups && s.mem.groups[n] == g.groups[n]
    ensures Chain(s, LeavePlan(g, user, groups))
    ensures Left(s.mem, ApplyAll(s, LeavePlan(g, user, groups)).mem, user, groups)
    decreases |groups|
  {
    if groups != [] {
      var step, rest := LeaveStep(g, user, groups[0]), groups[1..];
      assert groups[0] in groups;
      forall n | n in rest ensures n in groups && n != groups[0] {
        var i :| 0 <= i < |rest| && rest[i] == n;
        assert groups[i + 1] == n;
      }
      var s' := Apply(s, step);
      GroupsLeft(g, s', user, rest);
      assert LeavePlan(g, user, groups)[1..] == LeavePlan(g, user, rest);
      assert forall n :: n in groups <==> n == groups[0] || n in rest;
      assert s'.mem.memberships - {user} == s.mem.memberships - {user};
    }
  }

  /** What the child phase has done: the listed credentials, their mappings and their index entries are gone. */
  ghost predicate Pruned(g: Graph, g': Graph, keys: seq<string>) {
    var gone := set k | k in keys;
    && g' == g.(users := g.users - gone, userPolicies := g.userPolicies - gone, memberships := g.memberships - gone,
                epoch := g'.epoch)
    && g'.epoch >= g.epoch + |keys|
  }

  lemma DropIdentityPrunes(s: State, kind: UserType, key: string)
    requires key !in s.mem.userPolicies
    ensures Pruned(s.mem, ApplyAll(s, [DropIdentity(kind, key)]).mem, [key])
  {
    assert (set k | k in [key]) == {key};
  }

  lemma DropBothPrunes(s: State, mapped: UserType, kind: UserType, key: string)
    ensures Pruned(s.mem, ApplyAll(s, [DropMapping(mapped, key), DropIdentity(kind, key)]).mem, [key])
  {
    var s1 := Apply(s, DropMapping(mapped, key));
    assert [DropMapping(mapped, key), DropIdentity(kind, key)][1..] == [DropIdentity(kind, key)];
    DropIdentityPrunes(s1, kind, key);
    assert (set k | k in [key]) == {key};
  }

  /** The child's record is still the one the plan was made for. */
  ghost predicate SameChild(g: Graph, g': Graph, child: string) {
    && child in g.users && child in g'.users && g'.users[child] == g.users[child]
    && (child in g.userPolicies <==> child in g'.userPolicies)
  }

  lemma ChildPruned(g: Graph, s: State, child: string)
    requires SameChild(g, s.mem, child)
    ensures Pruned(s.mem, ApplyAll(s, ChildSteps(g, child)).mem, [child])
  {
    var kind := if g.users[child].IsTemp() then Sts else Service;
    if child in g.userPolicies {
      DropBothPrunes(s, if kind == Sts then Sts else Regular, kind, child);
      assert ChildSteps(g, child)
             == [DropMapping(if kind == Sts then Sts else Regular, child), DropIdentity(kind, child)];
    } else {
      assert ChildSteps(g, child) == [DropIdentity(kind, child)];
      DropIdentityPrunes(s, kind, child);
    }
  }

  lemma PrunedCompose(g: Graph, g1: Graph, g2: Graph, first: string, rest: seq<string>)
    requires Pruned(g, g1, [first]) && Pruned(g1, g2, rest)
    ensures Pruned(g, g2, [first] + rest)
  {
    var gone := set k | k in rest;
    assert (set k | k in [first]) == {first};
    assert (set k | k in [first] + rest) == {first} + gone;
    assert g.users - {first} - gone == g.users - ({first} + gone);
    assert g.userPolicies - {first} - gone == g.userPolicies - ({first} + gone);
    assert g.memberships - {first} - gone == g.memberships - ({first} + gone);
  }

  lemma RestUntouched(g: Graph, h: Graph, h1: Graph, children: seq<string>)
    requires children != [] && Distinct(children) && Pruned(h, h1, [children[0]])
    requires forall k :: k in children ==> SameChild(g, h, k)
    ensures Distinct(children[1..]) && forall k :: k in children[1..] ==> SameChild(g, h1, k)
  {
    var rest := children[1..];
    forall k | k in rest ensures SameChild(g, h1, k) {
      var i :| 0 <= i < |rest| && rest[i] == k;
      assert children[i + 1] == k && children[0] != k;
      assert SameChild(g, h, k);
    }
  }

  lemma {:induction false} ChildrenPruned(g: Graph, s: State, children: seq<string>)
    requires Distinct(children) && forall k :: k in children ==> k in g.users
    requires forall k :: k in children ==> SameChild(g, s.mem, k)
    ensures Pruned(s.mem, ApplyAll(s, ChildPlan(g, children)).mem, children)
    decreases |children|
  {
    if children == [] {
      assert (set k | k in children) == {};
    } else {
      var first, rest := children[0], children[1..];
      ChildPruned(g, s, first);
      var s1 := ApplyAll(s, ChildSteps(g, first));
      RestUntouched(g, s.mem, s1.mem, children);
      ChildrenPruned(g, s1, rest);
      ApplyAllConcat(s, ChildSteps(g, first), ChildPlan(g, rest));
      PrunedCompose(s.mem, s1.mem, ApplyAll(s1, ChildPlan(g, rest)).mem, first, rest);
      assert children == [first] + rest;
    }
  }

  lemma {:induction false} WithoutAbsent(members: seq<string>, user: string)
    requires user !in members
    ensures Without(members, user) == members
  {
    if members != [] {
      WithoutAbsent(members[1..], user);
      assert members == [members[0]] + members[1..];
    }
  }

  /** The user, everything linked below and their mappings and index entries are gone; the user is struck from
      every member list; nothing else is different. */
  ghost predicate Deleted(g: Graph, g': Graph, user: string) {
    var gone := Children(g, user) + {user};
    && g'.users == g.users - gone && g'.userPolicies == g.userPolicies - gone && g'.memberships == g.memberships - gone
    && g'.groupPolicies == g.groupPolicies && g'.documents == g.documents
    && g'.groups.Keys == g.groups.Keys
    && (forall n :: n in g.groups ==> g'.groups[n] == g.groups[n].(members := Without(g.groups[n].members, user)))
    && g'.epoch >= g.epoch + 1
  }

  lemma GroupsWithout(g: Graph, g': Graph, user: string)
    requires Left(g, g', user, SortedOf(Holding(g, user)))
    ensures forall n :: n in g.groups ==> g'.groups[n] == g.groups[n].(members := Without(g.groups[n].members, user))
  {
    forall n | n in g.groups ensures g'.groups[n] == g.groups[n].(members := Without(g.groups[n].members, user)) {
      if n !in Holding(g, user) { WithoutAbsent(g.groups[n].members, user); }
    }
  }

  lemma RemovedKeys(g: Graph, g1: Graph, g2: Graph, g3: Graph, user: string)
    requires Left(g, g1, user, SortedOf(Holding(g, user)))
    requires Pruned(g1, g2, SortedOf(Children(g, user)))
    requires Pruned(g2, g3, [user])
    ensures Deleted(g, g3, user)
  {
    var below := Children(g, user);
    assert (set k | k in SortedOf(below)) == below && (set k | k in [user]) == {user};
    assert g.users - below - {user} == g.users - (below + {user});
    assert g.userPolicies - below - {user} == g.userPolicies - (below + {user});
    assert g1.memberships - below - {user} == g1.memberships - {user} - below;
    assert g.memberships - {user} - below == g.memberships - (below + {user});
    GroupsWithout(g, g1, user);
  }

  /** The states between the phases. */
  lemma DeletePhases(s: State, user: string) returns (s1: State, s2: State)
    ensures s1 == ApplyAll(s, LeavePlan(s.mem, user, SortedOf(Holding(s.mem, user))))
    ensures s2 == ApplyAll(s1, ChildPlan(s.mem, SortedOf(Children(s.mem, user))))
    ensures Chain(s, LeavePlan(s.mem, user, SortedOf(Holding(s.mem, user))))
    ensures Left(s.mem, s1.mem, user, SortedOf(Holding(s.mem, user)))
    ensures Pruned(s1.mem, s2.mem, SortedOf(Children(s.mem, user)))
    ensures ApplyAll(s, DeletePlan(s.mem, user))
            == ApplyAll(s2, [DropMapping(Regular, user), DropIdentity(Regular, user)])
  {
    var groups, children := SortedOf(Holding(s.mem, user)), SortedOf(Children(s.mem, user));
    var a, b := LeavePlan(s.mem, user, groups), ChildPlan(s.mem, children);
    GroupsLeft(s.mem, s, user, groups);
    s1 := ApplyAll(s, a);
    ChildrenPruned(s.mem, s1, children);
    s2 := ApplyAll(s1, b);
    ApplyAllConcat(s, a, b);
    ApplyAllConcat(s, a + b, [DropMapping(Regular, user), DropIdentity(Regular, user)]);
  }

  /** A completed deletion has its whole effect on every graph, also where the group lists and the membership
      index had diverged: the user is left in neither. */
  lemma DeletionEffect(s: State, user: string)
    ensures Deleted(s.mem, ApplyAll(s, DeletePlan(s.mem, user)).mem, user)
    ensures var g' := ApplyAll(s, DeletePlan(s.mem, user)).mem;
            forall n :: !g'.Listed(user, n) && n !in g'.Index(user)
  {
    var s1, s2 := DeletePhases(s, user);
    DropBothPrunes(s2, Regular, Regular, user);
    RemovedKeys(s.mem, s1.mem, s2.mem, ApplyAll(s, DeletePlan(s.mem, user)).mem, user);
  }

  // ---- The cascade keeps the invariant wherever it stops ----

  /** Dropping a mapping and then the identity is admissible for a credential outside all groups. */
  lemma DropBothChain(s: State, key: string)
    requires Inv(s) && key in s.mem.users && forall n :: !s.mem.Listed(key, n)
    ensures Chain(s, [DropMapping(s.mem.MappingKind(key), key), DropIdentity(s.mem.users[key].Kind(), key)])
    ensures Inv(ApplyAll(s, [DropMapping(s.mem.MappingKind(key), key), DropIdentity(s.mem.users[key].Kind(), key)]))
  {
    var a, b := DropMapping(s.mem.MappingKind(key), key), DropIdentity(s.mem.users[key].Kind(), key);
    var s1 := Apply(s, a);
    assert forall n :: s1.mem.Listed(key, n) <==> s.mem.Listed(key, n);
    TwoStepChain(s, a, b);
    ChainPrefixKeeps(s, [a, b], 2);
    assert [a, b][..2] == [a, b];
  }

  lemma LinkedOutside(g: Graph, child: string)
    requires GraphInv(g) && child in g.users && !g.users[child].IsRegular()
    ensures forall n :: !g.Listed(child, n)
  {}

  lemma ChildStepsChain(g: Graph, s: State, child: string)
    requires Inv(s) && SameChild(g, s.mem, child) && !g.users[child].IsRegular()
    ensures Chain(s, ChildSteps(g, child))
    ensures Inv(ApplyAll(s, ChildSteps(g, child)))
  {
    var steps := ChildSteps(g, child);
    LinkedOutside(s.mem, child);
    if child in g.userPolicies {
      DropBothChain(s, child);
      assert steps == [DropMapping(s.mem.MappingKind(child), child), DropIdentity(s.mem.users[child].Kind(), child)];
    } else {
      assert steps == [DropIdentity(s.mem.users[child].Kind(), child)];
      OneStepChain(s, steps[0]);
      ChainPrefixKeeps(s, steps, 1);
      assert steps[..1] == steps;
    }
  }

  lemma {:induction false} ChildChain(g: Graph, s: State, children: seq<string>)
    requires Inv(s) && Distinct(children)
    requires forall k :: k in children ==> k in g.users
    requires forall k :: k in children ==> SameChild(g, s.mem, k) && !g.users[k].IsRegular()
    ensures Chain(s, ChildPlan(g, children)) && Inv(ApplyAll(s, ChildPlan(g, children)))
    decreases |children|
  {
    if children != [] {
      var first, rest := children[0], children[1..];
      assert first in children;
      ChildStepsChain(g, s, first);
      ChildPruned(g, s, first);
      var s1 := ApplyAll(s, ChildSteps(g, first));
      RestUntouched(g, s.mem, s1.mem, children);
      assert forall k :: k in rest ==> k in children;
      ChildChain(g, s1, rest);
      ChainConcat(s, ChildSteps(g, first), ChildPlan(g, rest));
      ApplyAllConcat(s, ChildSteps(g, first), ChildPlan(g, rest));
    }
  }

  ghost predicate Deletable(g: Graph, user: string) {
    && user in g.users && g.users[user].IsRegular() && user !in Children(g, user)
    && forall k :: k in Children(g, user) ==> !g.users[k].IsRegular()
  }

  /** After both phases the user is in no group. */
  lemma StandsAlone(g: Graph, g1: Graph, g2: Graph, user: string)
    requires user in g.users && user !in Children(g, user)
    requires Left(g, g1, user, SortedOf(Holding(g, user)))
    requires Pruned(g1, g2, SortedOf(Children(g, user)))
    ensures user in g2.users && g2.users[user] == g.users[user] && forall n :: !g2.Listed(user, n)
  {
    GroupsWithout(g, g1, user);
  }

  lemma ChildrenAfterLeaving(g: Graph, g1: Graph, user: string, groups: seq<string>)
    requires Deletable(g, user) && Left(g, g1, user, groups)
    ensures forall k :: k in SortedOf(Children(g, user)) ==> SameChild(g, g1, k) && !g.users[k].IsRegular()
  {}

  /** The first two phases, and the invariant behind each. */
  lemma CascadeChain(s: State, s1: State, user: string)
    requires Inv(s) && Deletable(s.mem, user)
    requires Chain(s, LeavePlan(s.mem, user, SortedOf(Holding(s.mem, user))))
    requires s1 == ApplyAll(s, LeavePlan(s.mem, user, SortedOf(Holding(s.mem, user))))
    requires Left(s.mem, s1.mem, user, SortedOf(Holding(s.mem, user)))
    ensures Chain(s1, ChildPlan(s.mem, SortedOf(Children(s.mem, user))))
    ensures Inv(ApplyAll(s1, ChildPlan(s.mem, SortedOf(Children(s.mem, user)))))
  {
    var a := LeavePlan(s.mem, user, SortedOf(Holding(s.mem, user)));
    ChainPrefixKeeps(s, a, |a|);
    assert a[..|a|] == a;
    ChildrenAfterLeaving(s.mem, s1.mem, user, SortedOf(Holding(s.mem, user)));
    ChildChain(s.mem, s1, SortedOf(Children(s.mem, user)));
  }

  /** The whole cascade is admissible, step by step. */
  lemma DeleteChain(s: State, user: string)
    requires Inv(s) && Deletable(s.mem, user)
    ensures Chain(s, DeletePlan(s.mem, user))
  {
    var s1, s2 := DeletePhases(s, user);
    var a := LeavePlan(s.mem, user, SortedOf(Holding(s.mem, user)));
    var b := ChildPlan(s.mem, SortedOf(Children(s.mem, user)));
    CascadeChain(s, s1, user);
    StandsAlone(s.mem, s1.mem, s2.mem, user);
    DropBothChain(s2, user);
    Three(s, a, b, [DropMapping(Regular, user), DropIdentity(Regular, user)]);
  }

  lemma Three(s: State, a: seq<Step>, b: seq<Step>, c: seq<Step>)
    requires Chain(s, a) && Chain(ApplyAll(s, a), b) && Chain(ApplyAll(ApplyAll(s, a), b), c)
    ensures Chain(s, a + b + c)
  {
    ChainConcat(s, a, b);
    ApplyAllConcat(s, a, b);
    ChainConcat(s, a + b, c);
  }

  // ---- Every request ----

  lemma GroupPlanShape(env: Env, g: Graph, ctx: Context, action: GroupAction, target: string,
                       members: seq<string>, draft: Draft)
    requires GroupPlan(env, g, ctx, action, target, members, draft).Ok?
    ensures var plan := GroupPlan(env, g, ctx, action, target, members, draft).value;
            if action.DeleteGroup? then
              plan == [DropGroupMapping(target), DropGroup(target)]
              && target in g.groups && g.groups[target].members == []
            else
              && |plan| == 1 && plan[0].SaveGroup? && !plan[0].bump && plan[0].group == target
              && Regroups(g, target, plan[0].info, plan[0].joins, plan[0].leaves)
    ensures Impact(env, g, GroupKind, target).Ok?
  {}

  lemma GroupPlanChain(env: Env, s: State, ctx: Context, action: GroupAction, target: string,
                       members: seq<string>, draft: Draft)
    requires GroupPlan(env, s.mem, ctx, action, target, members, draft).Ok?
    ensures Chain(s, GroupPlan(env, s.mem, ctx, action, target, members, draft).value)
  {
    var plan := GroupPlan(env, s.mem, ctx, action, target, members, draft).value;
    GroupPlanShape(env, s.mem, ctx, action, target, members, draft);
    if action.DeleteGroup? {
      DropGroupChain(s, target);
    } else {
      SaveGroupChain(s, plan);
    }
  }

  lemma DropGroupChain(s: State, group: string)
    requires group in s.mem.groups && s.mem.groups[group].members == []
    ensures Chain(s, [DropGroupMapping(group), DropGroup(group)])
  {}

  lemma SaveGroupChain(s: State, plan: seq<Step>)
    requires |plan| == 1 && plan[0].SaveGroup?
    requires Regroups(s.mem, plan[0].group, plan[0].info, plan[0].joins, plan[0].leaves)
    ensures Chain(s, plan)
  {}

  lemma CreateGroupPlanIs(g: Graph, ctx: Context, target: string, members: seq<string>)
    requires CreateGroupPlan(g, ctx, target, members).Ok?
    ensures target !in g.groups && CanonicalNames(members).Ok?
    ensures var names := CanonicalNames(members).value;
            CreateGroupPlan(g, ctx, target, members).value
            == [SaveGroup(target, GroupInfo(STATUS_ENABLED, names), set m | m in names, {}, true)]
  {}

  lemma CreateGroupChain(s: State, ctx: Context, target: string, members: seq<string>)
    requires CreateGroupPlan(s.mem, ctx, target, members).Ok?
    ensures Chain(s, CreateGroupPlan(s.mem, ctx, target, members).value)
  {}

  lemma ServicePlanChain(env: Env, claims: Credential -> bool, s: State, ctx: Context, action: ServiceAction,
                         target: string, draft: Draft)
    requires GraphInv(s.mem)
    requires ServicePlan(env, claims, s.mem, ctx, action, target, draft).Ok?
    ensures Chain(s, ServicePlan(env, claims, s.mem, ctx, action, target, draft).value)
  {
    var plan := ServicePlan(env, claims, s.mem, ctx, action, target, draft).value;
    LinkedOutside(s.mem, target);
    if action.DeleteService? {
      var s1 := Apply(s, plan[0]);
      assert forall n :: s1.mem.Listed(target, n) <==> s.mem.Listed(target, n);
      TwoStepChain(s, plan[0], plan[1]);
    } else {
      OneStepChain(s, plan[0]);
    }
  }

  lemma UserPlanChain(env: Env, s: State, ctx: Context, action: UserAction, target: string, draft: Draft)
    requires Inv(s)
    requires UserPlan(env, s.mem, ctx, action, target, draft).Ok?
    ensures Chain(s, UserPlan(env, s.mem, ctx, action, target, draft).value)
  {
    if action.DeleteUser? {
      DeleteChain(s, target);
    } else {
      OneStepChain(s, UserPlan(env, s.mem, ctx, action, target, draft).value[0]);
    }
  }

  lemma MappingChain(env: Env, s: State, kind: Kind, target: string, policies: seq<string>)
    requires Bindings(env, s.mem, kind, target).Ok? && kind != ServiceKind
    requires MappingStep(s.mem, kind, target, policies).Ok?
    ensures Chain(s, MappingStep(s.mem, kind, target, policies).value)
  {}

  lemma BindingChain(env: Env, claims: Credential -> bool, s: State, ctx: Context, r: Request)
    requires r.BindRequest? || r.ReplaceBindings?
    requires Plan(env, claims, s.mem, ctx, r).Ok?
    ensures Chain(s, Plan(env, claims, s.mem, ctx, r).value)
  {
    MappingChain(env, s, r.kind, r.target, CanonicalNames(r.policies).value);
  }

  lemma CreateServiceChain(env: Env, s: State, ctx: Context, proof: Proof, spec: ServiceSpec)
    requires CreateServicePlan(env, s.mem, ctx, proof, spec).Ok?
    ensures Chain(s, CreateServicePlan(env, s.mem, ctx, proof, spec).value)
  {}

  lemma SecretChain(env: Env, claims: Credential -> bool, s: State, ctx: Context, r: Request)
    requires r.UserSecretRequest? || r.RotateSecret? || r.RotateSelf? || r.CreateUser?
    requires Plan(env, claims, s.mem, ctx, r).Ok?
    ensures Chain(s, Plan(env, claims, s.mem, ctx, r).value)
  {}

  /** Every request that passes its checks is an admissible chain of steps. */
  lemma PlanChain(env: Env, claims: Credential -> bool, s: State, ctx: Context, r: Request)
    requires Inv(s)
    requires Plan(env, claims, s.mem, ctx, r).Ok?
    ensures Chain(s, Plan(env, claims, s.mem, ctx, r).value)
  {
    match r
    case UserRequest(action, target, draft) => UserPlanChain(env, s, ctx, action, target, draft);
    case GroupRequest(action, target, members, draft) => GroupPlanChain(env, s, ctx, action, target, members, draft);
    case CreateGroup(target, members) => CreateGroupChain(s, ctx, target, members);
    case ServiceRequest(action, target, draft) => ServicePlanChain(env, claims, s, ctx, action, target, draft);
    case CreateService(proof, spec) => CreateServiceChain(env, s, ctx, proof, spec);
    case BindRequest(_, _, _, _, _) => BindingChain(env, claims, s, ctx, r);
    case ReplaceBindings(_, _, _, _) => BindingChain(env, claims, s, ctx, r);
    case _ => SecretChain(env, claims, s, ctx, r);
  }

  /** Main result: at every exit of every native mutation, whichever store call fails, the group lists
      and the membership index agree, members are regular users, mappings have owners,
      and memory is exactly what is on disk. */
  lemma EveryExitKeepsInvariant(env: Env, claims: Credential -> bool, s: State, ctx: Context, r: Request,
                                completed: nat)
    requires Inv(s)
    requires Plan(env, claims, s.mem, ctx, r).Ok? && completed <= |Plan(env, claims, s.mem, ctx, r).value|
    ensures Inv(ApplyAll(s, Plan(env, claims, s.mem, ctx, r).value[..completed]))
  {
    PlanChain(env, claims, s, ctx, r);
    ChainPrefixKeeps(s, Plan(env, claims, s.mem, ctx, r).value, completed);
  }
}
