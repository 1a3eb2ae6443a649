/**
 Links between credentials and their parents: exactly which requests can take a present parent away, and why the
 native requests alone never do.
 */
module IamLinks {
  import opened Lex
  import opened IamGraph
  import opened IamPlans
  import opened IamRequests
  import opened IamSafety

  /** A linked credential whose parent is not there. */
  ghost predicate Orphan(g: Graph, key: string) {
    key in g.users && g.users[key].parentUser != "" && g.users[key].parentUser !in g.users
  }

  /** No credential whose parent was present, and no new one, is without its parent. */
  ghost predicate NoneOrphaned(g: Graph, g': Graph) { forall k :: Orphan(g', k) ==> Orphan(g, k) }

  ghost predicate Childless(g: Graph, key: string) {
    forall k :: k in g.users && g.users[k].parentUser != "" ==> g.users[k].parentUser != key
  }

  /** Nothing hangs below what hangs below the user. */
  ghost predicate FlatBelow(g: Graph, user: string) { forall c :: c in Children(g, user) ==> Childless(g, c) }

  /** What a deletion removes has no further children. */
  ghost predicate Spares(g: Graph, r: Request) {
    match r
    case UserRequest(DeleteUser, target, _) => FlatBelow(g, target)
    case ServiceRequest(DeleteService, target, _) => Childless(g, target)
    case _ => true
  }

  ghost function Cut(s: State, plan: seq<Step>, k: nat): State
    requires k <= |plan|
  {
    ApplyAll(s, plan[..k])
  }

  lemma CutOne(s: State, plan: seq<Step>)
    requires |plan| == 1
    ensures Cut(s, plan, 1) == Apply(s, plan[0])
  {
    assert plan[..1] == [plan[0]];
    OneStep(s, plan[0]);
  }

  // ---- Steps that only remove ----

  predicate Erases(step: Step) { step.LeaveGroup? || step.DropMapping? || step.DropIdentity? }

  predicate AllErase(steps: seq<Step>) { forall i :: 0 <= i < |steps| ==> Erases(steps[i]) }

  function Dropped(steps: seq<Step>): set<string> {
    if steps == [] then {} else (if steps[0].DropIdentity? then {steps[0].key} else {}) + Dropped(steps[1..])
  }

  lemma {:induction false} ErasedUsers(s: State, steps: seq<Step>)
    requires AllErase(steps)
    ensures ApplyAll(s, steps).mem.users == s.mem.users - Dropped(steps)
    decreases |steps|
  {
    if steps != [] {
      assert Erases(steps[0]);
      assert AllErase(steps[1..]);
      ErasedUsers(Apply(s, steps[0]), steps[1..]);
    }
  }

  lemma {:induction false} DroppedConcat(a: seq<Step>, b: seq<Step>)
    ensures Dropped(a + b) == Dropped(a) + Dropped(b)
  {
    if a == [] {
      assert a + b == b;
    } else {
      assert (a + b)[1..] == a[1..] + b;
      DroppedConcat(a[1..], b);
    }
  }

  lemma DroppedOne(step: Step)
    ensures Dropped([step]) == if step.DropIdentity? then {step.key} else {}
  {}

  lemma DroppedPrefix(steps: seq<Step>, k: nat)
    requires k <= |steps|
    ensures Dropped(steps[..k]) <= Dropped(steps)
  {
    assert steps == steps[..k] + steps[k..];
    DroppedConcat(steps[..k], steps[k..]);
  }

  lemma {:induction false} LeavePlanDrops(g: Graph, user: string, groups: seq<string>)
    requires forall n :: n in groups ==> n in g.groups
    ensures AllErase(LeavePlan(g, user, groups)) && Dropped(LeavePlan(g, user, groups)) == {}
  {
    if groups != [] {
      LeavePlanDrops(g, user, groups[1..]);
      assert LeavePlan(g, user, groups)[1..] == LeavePlan(g, user, groups[1..]);
    }
  }

  lemma ChildStepsDrop(g: Graph, child: string)
    requires child in g.users
    ensures AllErase(ChildSteps(g, child)) && Dropped(ChildSteps(g, child)) == {child}
  {
    var steps := ChildSteps(g, child);
    DroppedOne(steps[0]);
    if child in g.userPolicies {
      DroppedOne(steps[1]);
      assert steps == [steps[0]] + [steps[1]];
      DroppedConcat([steps[0]], [steps[1]]);
    }
  }

  lemma {:induction false} ChildPlanDrops(g: Graph, children: seq<string>)
    requires forall k :: k in children ==> k in g.users
    ensures AllErase(ChildPlan(g, children)) && Dropped(ChildPlan(g, children)) == set k | k in children
  {
    if children != [] {
      ChildPlanDrops(g, children[1..]);
      ChildStepsDrop(g, children[0]);
      DroppedConcat(ChildSteps(g, children[0]), ChildPlan(g, children[1..]));
      assert children == [children[0]] + children[1..];
    }
  }

  /** Everything but the last step. */
  ghost function Body(g: Graph, user: string): seq<Step> {
    LeavePlan(g, user, SortedOf(Holding(g, user))) + ChildPlan(g, SortedOf(Children(g, user)))
    + [DropMapping(Regular, user)]
  }

  lemma BodyThenIdentity(g: Graph, user: string)
    ensures DeletePlan(g, user) == Body(g, user) + [DropIdentity(Regular, user)]
  {}

  lemma BodyDrops(g: Graph, user: string)
    ensures AllErase(Body(g, user)) && Dropped(Body(g, user)) == Children(g, user)
  {
    var groups, children := SortedOf(Holding(g, user)), SortedOf(Children(g, user));
    var a, b, c := LeavePlan(g, user, groups), ChildPlan(g, children), DropMapping(Regular, user);
    LeavePlanDrops(g, user, groups);
    ChildPlanDrops(g, children);
    DroppedConcat(a, b);
    DroppedConcat(a + b, [c]);
    DroppedOne(c);
    assert (set k | k in children) == Children(g, user);
  }

  /** The target goes last: until then only its children have gone. */
  lemma DeletePlanDrops(g: Graph, user: string, k: nat)
    requires k <= |DeletePlan(g, user)|
    ensures AllErase(DeletePlan(g, user)[..k])
    ensures k < |DeletePlan(g, user)| ==> Dropped(DeletePlan(g, user)[..k]) <= Children(g, user)
    ensures k == |DeletePlan(g, user)| ==> Dropped(DeletePlan(g, user)[..k]) == Children(g, user) + {user}
  {
    BodyDrops(g, user);
    BodyThenIdentity(g, user);
    CutLast(Body(g, user), DropIdentity(Regular, user), k);
  }

  lemma CutLast(body: seq<Step>, last: Step, k: nat)
    requires k <= |body| + 1 && AllErase(body) && last.DropIdentity?
    ensures AllErase((body + [last])[..k])
    ensures k <= |body| ==> Dropped((body + [last])[..k]) <= Dropped(body)
    ensures k == |body| + 1 ==> Dropped((body + [last])[..k]) == Dropped(body) + {last.key}
  {
    if k <= |body| {
      assert (body + [last])[..k] == body[..k];
      DroppedPrefix(body, k);
    } else {
      assert (body + [last])[..k] == body + [last];
      DroppedConcat(body, [last]);
      DroppedOne(last);
    }
  }

  // ---- Steps that keep or add ----

  /** Credentials stay, and a new one hangs below a present one or is unlinked. */
  ghost predicate Grown(g: Graph, g': Graph, root: string) {
    && g.users.Keys <= g'.users.Keys
    && (forall k :: k in g.users ==> g'.users[k].parentUser == g.users[k].parentUser)
    && (forall k :: k in g'.users && k !in g.users ==> k != root && NewLink(g, g'.users[k].parentUser))
  }

  /** Unlinked, or below a present unlinked credential. */
  ghost predicate NewLink(g: Graph, parent: string) {
    parent == "" || (parent in g.users && g.users[parent].parentUser == "")
  }

  lemma GrownOrphansNone(g: Graph, g': Graph, root: string)
    requires Grown(g, g', root)
    ensures NoneOrphaned(g, g')
  {
    forall k | Orphan(g', k) ensures Orphan(g, k) {
      assert k in g.users;
    }
  }

  predicate KeepsUsers(step: Step) { !step.SaveIdentity? && !step.DropIdentity? }

  predicate AllKeepUsers(steps: seq<Step>) { forall i :: 0 <= i < |steps| ==> KeepsUsers(steps[i]) }

  lemma {:induction false} UsersKept(s: State, steps: seq<Step>)
    requires AllKeepUsers(steps)
    ensures ApplyAll(s, steps).mem.users == s.mem.users
    decreases |steps|
  {
    if steps != [] {
      assert KeepsUsers(steps[0]);
      UsersKept(Apply(s, steps[0]), steps[1..]);
    }
  }

  ghost predicate Links(g: Graph, root: string, step: Step) {
    && step.SaveIdentity?
    && (if step.key in g.users then step.credential.parentUser == g.users[step.key].parentUser
        else step.key != root && NewLink(g, step.credential.parentUser))
  }

  /** Either one saved credential, or nothing about credentials at all. */
  ghost predicate Grows(g: Graph, root: string, plan: seq<Step>) {
    (|plan| == 1 && Links(g, root, plan[0])) || AllKeepUsers(plan)
  }

  lemma GrowsKeeps(s: State, root: string, plan: seq<Step>, k: nat)
    requires Grows(s.mem, root, plan) && k <= |plan|
    ensures Grown(s.mem, Cut(s, plan, k).mem, root)
  {
    if |plan| == 1 && Links(s.mem, root, plan[0]) {
      if k == 1 { CutOne(s, plan); }
    } else {
      UsersKept(s, plan[..k]);
    }
  }

  predicate Removing(r: Request) {
    (r.UserRequest? && r.userAction.DeleteUser?) || (r.ServiceRequest? && r.serviceAction.DeleteService?)
  }

  lemma GroupEditKeepsUsers(env: Env, claims: Credential -> bool, g: Graph, ctx: Context, r: Request)
    requires r.GroupRequest? && Plan(env, claims, g, ctx, r).Ok?
    ensures AllKeepUsers(Plan(env, claims, g, ctx, r).value)
  {
    GroupPlanShape(env, g, ctx, r.groupAction, r.target, r.members, r.draft);
  }

  lemma NewGroupKeepsUsers(env: Env, claims: Credential -> bool, g: Graph, ctx: Context, r: Request)
    requires r.CreateGroup? && Plan(env, claims, g, ctx, r).Ok?
    ensures AllKeepUsers(Plan(env, claims, g, ctx, r).value)
  {
    CreateGroupPlanIs(g, ctx, r.target, r.members);
  }

  lemma UserGrows(env: Env, claims: Credential -> bool, g: Graph, ctx: Context, r: Request)
    requires r.UserRequest? || r.CreateUser? || r.RotateSecret? || r.RotateSelf? || r.UserSecretRequest?
    requires !Removing(r) && Plan(env, claims, g, ctx, r).Ok?
    ensures Grows(g, env.root, Plan(env, claims, g, ctx, r).value)
  {}

  lemma ServiceGrows(env: Env, claims: Credential -> bool, g: Graph, ctx: Context, r: Request)
    requires (r.ServiceRequest? || r.CreateService?) && !Removing(r) && Plan(env, claims, g, ctx, r).Ok?
    ensures Grows(g, env.root, Plan(env, claims, g, ctx, r).value)
  {}

  lemma MappingKeepsUsers(g: Graph, kind: Kind, target: string, policies: seq<string>)
    requires kind != ServiceKind && MappingStep(g, kind, target, policies).Ok?
    ensures AllKeepUsers(MappingStep(g, kind, target, policies).value)
  {}

  lemma BindingKeepsUsers(env: Env, claims: Credential -> bool, g: Graph, ctx: Context, r: Request)
    requires (r.BindRequest? || r.ReplaceBindings?) && Plan(env, claims, g, ctx, r).Ok?
    ensures AllKeepUsers(Plan(env, claims, g, ctx, r).value)
  {
    MappingKeepsUsers(g, r.kind, r.target, CanonicalNames(r.policies).value);
  }

  lemma PlanGrows(env: Env, claims: Credential -> bool, g: Graph, ctx: Context, r: Request)
    requires !Removing(r) && Plan(env, claims, g, ctx, r).Ok?
    ensures Grows(g, env.root, Plan(env, claims, g, ctx, r).value)
  {
    match r
    case GroupRequest(_, _, _, _) => GroupEditKeepsUsers(env, claims, g, ctx, r);
    case CreateGroup(_, _) => NewGroupKeepsUsers(env, claims, g, ctx, r);
    case ServiceRequest(_, _, _) => ServiceGrows(env, claims, g, ctx, r);
    case CreateService(_, _) => ServiceGrows(env, claims, g, ctx, r);
    case BindRequest(_, _, _, _, _) => BindingKeepsUsers(env, claims, g, ctx, r);
    case ReplaceBindings(_, _, _, _) => BindingKeepsUsers(env, claims, g, ctx, r);
    case _ => UserGrows(env, claims, g, ctx, r);
  }

  // ---- Deletions ----

  /** Some or all children are gone, or all of them and the user. */
  ghost predicate Thinned(g: Graph, g': Graph, user: string) {
    && g'.users.Keys <= g.users.Keys && (forall k :: k in g'.users ==> g'.users[k] == g.users[k])
    && (forall k :: k in g.users && k !in g'.users ==> k == user || k in Children(g, user))
    && (user in g.users && user !in g'.users ==> forall k :: k in Children(g, user) ==> k !in g'.users)
  }

  lemma DeletionThins(s: State, user: string, k: nat)
    requires k <= |DeletePlan(s.mem, user)| && user !in Children(s.mem, user)
    ensures Thinned(s.mem, Cut(s, DeletePlan(s.mem, user), k).mem, user)
    ensures k == |DeletePlan(s.mem, user)| ==>
            Cut(s, DeletePlan(s.mem, user), k).mem.users == s.mem.users - (Children(s.mem, user) + {user})
  {
    DeletePlanDrops(s.mem, user, k);
    ErasedUsers(s, DeletePlan(s.mem, user)[..k]);
  }

  lemma ThinnedOrphansNone(g: Graph, g': Graph, user: string)
    requires Thinned(g, g', user) && FlatBelow(g, user)
    ensures NoneOrphaned(g, g')
  {
    forall k | Orphan(g', k) ensures Orphan(g, k) {
      var p := g.users[k].parentUser;
      assert p == user ==> k in Children(g, user);
      assert !Childless(g, p);
    }
  }

  /** A grandchild outlives its parent. */
  lemma GrandchildOrphaned(g: Graph, g': Graph, user: string)
    requires user in g.users && g.users[user].parentUser == "" && user != ""
    requires g'.users == g.users - (Children(g, user) + {user}) && !FlatBelow(g, user)
    ensures !NoneOrphaned(g, g')
  {
    var c :| c in Children(g, user) && !Childless(g, c);
    var k :| k in g.users && g.users[k].parentUser != "" && g.users[k].parentUser == c;
    assert k in g'.users && Orphan(g', k) && !Orphan(g, k);
  }

  lemma DeletionCuts(s: State, user: string)
    requires user in s.mem.users && s.mem.users[user].parentUser == "" && user != ""
    ensures var plan := DeletePlan(s.mem, user);
            (forall k :: 0 <= k <= |plan| ==> NoneOrphaned(s.mem, Cut(s, plan, k).mem)) <==> FlatBelow(s.mem, user)
  {
    var plan := DeletePlan(s.mem, user);
    if FlatBelow(s.mem, user) {
      forall k | 0 <= k <= |plan| ensures NoneOrphaned(s.mem, Cut(s, plan, k).mem) {
        DeletionThins(s, user, k);
        ThinnedOrphansNone(s.mem, Cut(s, plan, k).mem, user);
      }
    } else {
      DeletionThins(s, user, |plan|);
      GrandchildOrphaned(s.mem, Cut(s, plan, |plan|).mem, user);
    }
  }

  lemma UserPlanIs(env: Env, g: Graph, ctx: Context, target: string, draft: Draft)
    requires UserPlan(env, g, ctx, DeleteUser, target, draft).Ok?
    ensures UserPlan(env, g, ctx, DeleteUser, target, draft).value == DeletePlan(g, target)
    ensures target in g.users && g.users[target].parentUser == "" && target != ""
  {}

  lemma UserDeletionExact(env: Env, s: State, ctx: Context, target: string, draft: Draft)
    requires UserPlan(env, s.mem, ctx, DeleteUser, target, draft).Ok?
    ensures var plan := UserPlan(env, s.mem, ctx, DeleteUser, target, draft).value;
            (forall k :: 0 <= k <= |plan| ==> NoneOrphaned(s.mem, Cut(s, plan, k).mem)) <==> FlatBelow(s.mem, target)
  {
    UserPlanIs(env, s.mem, ctx, target, draft);
    DeletionCuts(s, target);
  }

  lemma ServiceUsers(s: State, key: string)
    ensures var plan := [DropMapping(Regular, key), DropIdentity(Service, key)];
            && Cut(s, plan, 0).mem.users == s.mem.users && Cut(s, plan, 1).mem.users == s.mem.users
            && Cut(s, plan, 2).mem.users == s.mem.users - {key}
  {
    var a, b := DropMapping(Regular, key), DropIdentity(Service, key);
    assert [a, b][..1] == [a] && [a, b][..2] == [a] + [b];
    OneStep(s, a);
    ApplyAllConcat(s, [a], [b]);
    OneStep(Apply(s, a), b);
  }

  lemma ServiceCuts(s: State, key: string)
    requires key in s.mem.users && key != "" && s.mem.users[key].parentUser != key
    ensures var plan := [DropMapping(Regular, key), DropIdentity(Service, key)];
            (forall k :: 0 <= k <= |plan| ==> NoneOrphaned(s.mem, Cut(s, plan, k).mem)) <==> Childless(s.mem, key)
  {
    var plan := [DropMapping(Regular, key), DropIdentity(Service, key)];
    ServiceUsers(s, key);
    ServiceDropOrphans(s.mem, Cut(s, plan, 2).mem, key);
    assert NoneOrphaned(s.mem, Cut(s, plan, 0).mem) && NoneOrphaned(s.mem, Cut(s, plan, 1).mem);
  }

  lemma ServiceDropOrphans(g: Graph, g': Graph, key: string)
    requires key in g.users && key != "" && g.users[key].parentUser != key && g'.users == g.users - {key}
    ensures NoneOrphaned(g, g') <==> Childless(g, key)
  {
    if !Childless(g, key) {
      var k :| k in g.users && g.users[k].parentUser != "" && g.users[k].parentUser == key;
      assert Orphan(g', k) && !Orphan(g, k);
    }
  }

  lemma ServicePlanIs(env: Env, claims: Credential -> bool, g: Graph, ctx: Context, target: string, draft: Draft)
    requires ServicePlan(env, claims, g, ctx, DeleteService, target, draft).Ok?
    ensures ServicePlan(env, claims, g, ctx, DeleteService, target, draft).value
         == [DropMapping(Regular, target), DropIdentity(Service, target)]
    ensures target in g.users && target != "" && g.users[target].parentUser != target
  {}

  lemma ServiceDeletionExact(env: Env, claims: Credential -> bool, s: State, ctx: Context, target: string, draft: Draft)
    requires ServicePlan(env, claims, s.mem, ctx, DeleteService, target, draft).Ok?
    ensures var plan := ServicePlan(env, claims, s.mem, ctx, DeleteService, target, draft).value;
            (forall k :: 0 <= k <= |plan| ==> NoneOrphaned(s.mem, Cut(s, plan, k).mem)) <==> Childless(s.mem, target)
  {
    ServicePlanIs(env, claims, s.mem, ctx, target, draft);
    ServiceCuts(s, target);
  }

  /** Main result, on every graph: no exit of a request leaves a credential without a parent that was present,
      exactly when nothing the request deletes has children of its own. */
  lemma NoneOrphanedExactly(env: Env, claims: Credential -> bool, s: State, ctx: Context, r: Request)
    requires Plan(env, claims, s.mem, ctx, r).Ok?
    ensures var plan := Plan(env, claims, s.mem, ctx, r).value;
            (forall k :: 0 <= k <= |plan| ==> NoneOrphaned(s.mem, Cut(s, plan, k).mem)) <==> Spares(s.mem, r)
  {
    if r.UserRequest? && r.userAction.DeleteUser? {
      UserDeletionExact(env, s, ctx, r.target, r.draft);
    } else if r.ServiceRequest? && r.serviceAction.DeleteService? {
      ServiceDeletionExact(env, claims, s, ctx, r.target, r.draft);
    } else {
      PlanGrows(env, claims, s.mem, ctx, r);
      var plan := Plan(env, claims, s.mem, ctx, r).value;
      forall k | 0 <= k <= |plan| ensures NoneOrphaned(s.mem, Cut(s, plan, k).mem) {
        GrowsKeeps(s, env.root, plan, k);
        GrownOrphansNone(s.mem, Cut(s, plan, k).mem, env.root);
      }
    }
  }

  // ---- Two tiers ----

  /** A linked credential hangs directly below an existing unlinked one, or below the root account. */
  ghost predicate TwoTier(g: Graph, root: string) {
    && root !in g.users
    && forall k :: k in g.users && g.users[k].parentUser != "" ==>
        var p := g.users[k].parentUser;
        p == root || (p in g.users && g.users[p].parentUser == "")
  }

  /** In two tiers nothing hangs below a linked credential, so every request spares parents. */
  lemma TwoTierSpares(env: Env, claims: Credential -> bool, g: Graph, ctx: Context, r: Request)
    requires TwoTier(g, env.root) && Plan(env, claims, g, ctx, r).Ok?
    ensures Spares(g, r)
  {
    if r.ServiceRequest? && r.serviceAction.DeleteService? {
      ServicePlanIs(env, claims, g, ctx, r.target, r.draft);
      assert g.users[r.target].parentUser != "";
    }
  }

  lemma GrownTwoTier(g: Graph, g': Graph, root: string)
    requires TwoTier(g, root) && Grown(g, g', root)
    ensures TwoTier(g', root)
  {}

  lemma ThinnedTwoTier(g: Graph, g': Graph, root: string, user: string)
    requires TwoTier(g, root) && Thinned(g, g', user) && NoneOrphaned(g, g')
    ensures TwoTier(g', root)
  {
    forall k | k in g'.users && g'.users[k].parentUser != "" && g'.users[k].parentUser != root
      ensures g'.users[k].parentUser in g'.users
    {
      assert !Orphan(g, k);
      assert !Orphan(g', k);
    }
  }

  lemma ServiceThins(s: State, key: string, k: nat)
    requires k <= 2 && Childless(s.mem, key)
    ensures Thinned(s.mem, Cut(s, [DropMapping(Regular, key), DropIdentity(Service, key)], k).mem, key) || key == ""
  {
    ServiceUsers(s, key);
  }

  /** Main result: native requests keep the credentials in two tiers at every exit, so by themselves they never
      build the chain that a deletion would cut. */
  lemma RequestKeepsTwoTier(env: Env, claims: Credential -> bool, s: State, ctx: Context, r: Request, k: nat)
    requires TwoTier(s.mem, env.root)
    requires Plan(env, claims, s.mem, ctx, r).Ok? && k <= |Plan(env, claims, s.mem, ctx, r).value|
    ensures TwoTier(Cut(s, Plan(env, claims, s.mem, ctx, r).value, k).mem, env.root)
    ensures NoneOrphaned(s.mem, Cut(s, Plan(env, claims, s.mem, ctx, r).value, k).mem)
  {
    var plan := Plan(env, claims, s.mem, ctx, r).value;
    TwoTierSpares(env, claims, s.mem, ctx, r);
    NoneOrphanedExactly(env, claims, s, ctx, r);
    assert NoneOrphaned(s.mem, Cut(s, plan, k).mem);
    if r.UserRequest? && r.userAction.DeleteUser? {
      DeletionThins(s, r.target, k);
      ThinnedTwoTier(s.mem, Cut(s, plan, k).mem, env.root, r.target);
    } else if r.ServiceRequest? && r.serviceAction.DeleteService? {
      ServicePlanIs(env, claims, s.mem, ctx, r.target, r.draft);
      ServiceThins(s, r.target, k);
      ThinnedTwoTier(s.mem, Cut(s, plan, k).mem, env.root, r.target);
    } else {
      PlanGrows(env, claims, s.mem, ctx, r);
      GrowsKeeps(s, env.root, plan, k);
      GrownTwoTier(s.mem, Cut(s, plan, k).mem, env.root);
    }
  }
}
