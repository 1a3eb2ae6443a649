/**
 Whole runs of native mutations and of issued temporary credentials, in any order, each possibly cut short by a
 failing store call: the invariant, the links between credentials, and what the identity epoch proves.
 */
module IamRuns {
  import opened Lex
  import opened IamGraph
  import opened IamPlans
  import opened IamRequests
  import opened IamSafety
  import opened IamLinks

  /** A request that passed its checks, or a temporary credential being issued, and how many of its persistence
      calls completed. */
  datatype Event =
    | Native(ctx: Context, request: Request, completed: nat)
    | Issue(key: string, credential: Credential, policies: Policies, completed: nat)

  datatype Server = Server(env: Env, claims: Credential -> bool)

  // ---- Temporary credentials ----

  /** Named policies are known when they are looked up. Neither the key nor the parent is looked at. */
  ghost predicate Issuable(g: Graph, credential: Credential, policies: Policies) {
    credential.IsTemp() && (policies != [] ==> Joinable(policies) && exists p :: p in policies && p in g.documents)
  }

  /** In a run the key is one just generated, which no other credential has. */
  ghost predicate IssueOk(g: Graph, key: string, credential: Credential, policies: Policies) {
    Issuable(g, credential, policies) && key !in g.users
  }

  /** The mapping, if there is one, is saved before the identity. */
  function IssueCalls(policies: Policies): nat { if policies == [] then 1 else 2 }

  function Issued(s: State, key: string, credential: Credential, policies: Policies, completed: nat): State {
    var mapped :=
      if policies != [] && completed > 0 then
        State(s.mem.(userPolicies := s.mem.userPolicies[key := policies]),
              s.disk.(mappings := s.disk.mappings[Slot(Sts, key) := policies]))
      else s;
    if completed < IssueCalls(policies) then mapped
    else
      State(mapped.mem.(users := mapped.mem.users[key := credential]),
            mapped.disk.(identities := mapped.disk.identities[Slot(Sts, key) := credential]))
  }

  /** The mapping was saved and the identity was not. */
  predicate HalfIssued(policies: Policies, completed: nat) { policies != [] && completed == 1 }

  ghost predicate Next(v: Server, s: State, ev: Event, s': State) {
    match ev
    case Native(ctx, request, completed) =>
      var plan := Plan(v.env, v.claims, s.mem, ctx, request);
      plan.Ok? && completed <= |plan.value| && s' == Cut(s, plan.value, completed)
    case Issue(key, credential, policies, completed) =>
      IssueOk(s.mem, key, credential, policies) && completed <= IssueCalls(policies)
      && s' == Issued(s, key, credential, policies, completed)
  }

  ghost predicate Run(v: Server, states: seq<State>, events: seq<Event>) {
    && |states| == |events| + 1
    && forall i :: 0 <= i < |events| ==> Next(v, states[i], events[i], states[i + 1])
  }

  // ---- The invariant ----

  lemma IssuedGraph(g: Graph, g': Graph, key: string, credential: Credential, policies: Policies)
    requires GraphInv(g) && credential.IsTemp() && (key in g.users ==> g.users[key].IsTemp())
    requires g' == g.(users := g.users[key := credential], userPolicies := g'.userPolicies)
    requires g'.userPolicies == if policies == [] then g.userPolicies else g.userPolicies[key := policies]
    ensures GraphInv(g')
  {
    forall u, n ensures n in g'.Index(u) <==> g'.Listed(u, n) {
      assert n in g.Index(u) <==> g.Listed(u, n);
    }
    forall u, n | g'.Listed(u, n) ensures u in g'.users && g'.users[u].IsRegular() {
      assert g.Listed(u, n);
    }
  }

  lemma MappedGraph(g: Graph, g': Graph, key: string)
    requires GraphInv(g) && g' == g.(userPolicies := g'.userPolicies) && key in g.users
    requires g'.userPolicies.Keys == g.userPolicies.Keys + {key}
    ensures GraphInv(g')
  {
    forall u, n ensures (n in g'.Index(u) <==> g'.Listed(u, n)) && (g'.Listed(u, n) ==> u in g'.users) {
      assert (n in g.Index(u) <==> g.Listed(u, n)) && (g.Listed(u, n) ==> u in g.users);
    }
    forall u, n | g'.Listed(u, n) ensures g'.users[u].IsRegular() { assert g.Listed(u, n); }
  }

  lemma MappingIssued(g: Graph, g': Graph, mappings: map<Slot, Policies>, key: string, policies: Policies)
    requires MappingsSynced(g, mappings) && g'.MappingKind(key) == Sts
    requires forall n :: n in g.userPolicies ==> g'.MappingKind(n) == g.MappingKind(n)
    requires g'.userPolicies == g.userPolicies[key := policies]
    ensures MappingsSynced(g', mappings[Slot(Sts, key) := policies])
  {}

  lemma KindsUnmoved(g: Graph, g': Graph, key: string, credential: Credential)
    requires GraphInv(g) && credential.IsTemp() && (key in g.users ==> g.users[key].IsTemp())
    requires g'.users == g.users[key := credential]
    ensures g'.MappingKind(key) == Sts && forall n :: n in g.userPolicies ==> g'.MappingKind(n) == g.MappingKind(n)
  {}

  lemma IssuedWhole(s: State, key: string, credential: Credential, policies: Policies)
    requires Inv(s) && credential.IsTemp() && (key in s.mem.users ==> s.mem.users[key].IsTemp())
    ensures Inv(Issued(s, key, credential, policies, IssueCalls(policies)))
  {
    var t := Issued(s, key, credential, policies, IssueCalls(policies));
    IssuedGraph(s.mem, t.mem, key, credential, policies);
    IdentitySaved(s.mem.users, s.disk.identities, key, credential);
    KindsUnmoved(s.mem, t.mem, key, credential);
    if policies == [] {
      MappingsStaySynced(s.mem, t.mem, s.disk.mappings);
    } else {
      MappingIssued(s.mem, t.mem, s.disk.mappings, key, policies);
    }
  }

  lemma IssuedHalf(s: State, key: string, credential: Credential, policies: Policies)
    requires Inv(s) && policies != []
    ensures Inv(Issued(s, key, credential, policies, 1)) <==> key in s.mem.users && s.mem.users[key].IsTemp()
  {
    var t := Issued(s, key, credential, policies, 1);
    if key !in s.mem.users {
      assert key in t.mem.userPolicies;
    } else if s.mem.users[key].IsTemp() {
      MappedGraph(s.mem, t.mem, key);
      MappingIssued(s.mem, t.mem, s.disk.mappings, key, policies);
    } else {
      assert Slot(Sts, key) in t.disk.mappings;
    }
  }

  /** Under a key in use: that of another temporary credential. Under a new key: not by half. */
  predicate Fitting(g: Graph, key: string, policies: Policies, completed: nat) {
    completed == 0 || if key in g.users then g.users[key].IsTemp() else !HalfIssued(policies, completed)
  }

  /** Whatever the key, issuing keeps the invariant exactly when it did nothing, replaced a temporary credential, or
      took a new key and did not stop between the mapping and the identity, which leaves a mapping without an owner. */
  lemma IssueKeepsInvariantExactly(s: State, key: string, credential: Credential, policies: Policies, completed: nat)
    requires Inv(s) && Issuable(s.mem, credential, policies) && completed <= IssueCalls(policies)
    ensures Inv(Issued(s, key, credential, policies, completed)) <==> Fitting(s.mem, key, policies, completed)
  {
    var t := Issued(s, key, credential, policies, completed);
    if HalfIssued(policies, completed) {
      IssuedHalf(s, key, credential, policies);
    } else if completed == IssueCalls(policies) {
      if key in s.mem.users && !s.mem.users[key].IsTemp() {
        assert Slot(s.mem.users[key].Kind(), key) in t.disk.identities && t.mem.users[key].Kind() == Sts;
      } else {
        IssuedWhole(s, key, credential, policies);
      }
    }
  }

  /** As a step of a run, except that a credential may be issued under any key at all. */
  ghost predicate Possible(v: Server, s: State, ev: Event, s': State) {
    match ev
    case Native(_, _, _) => Next(v, s, ev, s')
    case Issue(key, credential, policies, completed) =>
      Issuable(s.mem, credential, policies) && completed <= IssueCalls(policies)
      && s' == Issued(s, key, credential, policies, completed)
  }

  ghost predicate History(v: Server, states: seq<State>, events: seq<Event>) {
    && |states| == |events| + 1
    && forall i :: 0 <= i < |events| ==> Possible(v, states[i], events[i], states[i + 1])
  }

  predicate Harmless(g: Graph, ev: Event) { ev.Issue? ==> Fitting(g, ev.key, ev.policies, ev.completed) }

  lemma StepKeepsInvariantExactly(v: Server, s: State, ev: Event, s': State)
    requires Inv(s) && Possible(v, s, ev, s')
    ensures Inv(s') <==> Harmless(s.mem, ev)
  {
    match ev
    case Native(ctx, request, completed) => EveryExitKeepsInvariant(v.env, v.claims, s, ctx, request, completed);
    case Issue(key, credential, policies, completed) =>
      IssueKeepsInvariantExactly(s, key, credential, policies, completed);
  }

  /** The invariant holds up to a state exactly when every credential issued so far fitted, whatever the keys and
      whatever requests came in between. */
  lemma {:induction false} HistoryKeepsInvariantExactly(v: Server, states: seq<State>, events: seq<Event>, i: nat)
    requires History(v, states, events) && i < |states| && Inv(states[0])
    ensures (forall k :: 0 <= k <= i ==> Inv(states[k]))
       <==> (forall k :: 0 <= k < i ==> Harmless(states[k].mem, events[k]))
  {
    if i > 0 {
      HistoryKeepsInvariantExactly(v, states, events, i - 1);
      if Inv(states[i - 1]) { StepKeepsInvariantExactly(v, states[i - 1], events[i - 1], states[i - 1 + 1]); }
    }
  }

  predicate Whole(ev: Event) { ev.Issue? ==> !HalfIssued(ev.policies, ev.completed) }

  lemma RunIsHistory(v: Server, states: seq<State>, events: seq<Event>)
    requires Run(v, states, events)
    ensures History(v, states, events)
    ensures forall k :: 0 <= k < |events| && Whole(events[k]) ==> Harmless(states[k].mem, events[k])
  {
    forall k | 0 <= k < |events|
      ensures Possible(v, states[k], events[k], states[k + 1])
      ensures Whole(events[k]) ==> Harmless(states[k].mem, events[k])
    {
      assert Next(v, states[k], events[k], states[k + 1]);
    }
  }

  /** The invariant holds in every state of every run in which no credential is issued by half. */
  lemma RunKeepsInvariant(v: Server, states: seq<State>, events: seq<Event>, i: nat)
    requires Run(v, states, events) && i < |states| && Inv(states[0])
    requires forall k :: 0 <= k < i ==> Whole(events[k])
    ensures Inv(states[i])
  {
    RunIsHistory(v, states, events);
    HistoryKeepsInvariantExactly(v, states, events, i);
  }

  // ---- Parents ----

  /** The parent, if any, is the root account or a present unlinked credential. */
  ghost predicate Anchored(g: Graph, root: string, ev: Event) {
    ev.Issue? ==> ev.key != root && (ev.credential.parentUser == root || NewLink(g, ev.credential.parentUser))
  }

  lemma NextKeepsTwoTier(v: Server, s: State, ev: Event, s': State)
    requires TwoTier(s.mem, v.env.root) && Next(v, s, ev, s') && Anchored(s.mem, v.env.root, ev)
    ensures TwoTier(s'.mem, v.env.root)
    ensures ev.Native? ==> NoneOrphaned(s.mem, s'.mem)
  {
    if ev.Native? { RequestKeepsTwoTier(v.env, v.claims, s, ev.ctx, ev.request, ev.completed); }
  }

  /** Main result: as long as every issued credential still has its parent, no request of the run ever takes a
      present parent away, whatever is deleted and wherever it stops. */
  lemma {:induction false} RunKeepsTwoTier(v: Server, states: seq<State>, events: seq<Event>, i: nat)
    requires Run(v, states, events) && i < |states| && TwoTier(states[0].mem, v.env.root)
    requires forall k :: 0 <= k < |events| ==> Anchored(states[k].mem, v.env.root, events[k])
    ensures TwoTier(states[i].mem, v.env.root)
    ensures i < |events| && events[i].Native? ==> NoneOrphaned(states[i].mem, states[i + 1].mem)
  {
    if i > 0 {
      RunKeepsTwoTier(v, states, events, i - 1);
      NextKeepsTwoTier(v, states[i - 1], events[i - 1], states[i - 1 + 1]);
    }
    if i < |events| {
      NextKeepsTwoTier(v, states[i], events[i], states[i + 1]);
    }
  }

  // ---- The epoch ----

  predicate Bumps(step: Step) {
    match step
    case SaveIdentity(_, _, _, bump) => bump
    case SaveGroup(_, _, _, _, bump) => bump
    case DropIdentity(_, _) => true
    case DropMapping(_, _) => true
    case LeaveGroup(_, _, _) => true
    case DropGroup(_) => true
    case _ => false
  }

  lemma StepEpoch(s: State, step: Step)
    ensures Apply(s, step).mem.epoch == s.mem.epoch + if Bumps(step) then 1 else 0
  {}

  lemma {:induction false} EpochCounts(s: State, steps: seq<Step>)
    ensures ApplyAll(s, steps).mem.epoch >= s.mem.epoch
    decreases |steps|
  {
    if steps != [] {
      StepEpoch(s, steps[0]);
      EpochCounts(Apply(s, steps[0]), steps[1..]);
    }
  }

  lemma {:induction false} EpochAdds(s: State, steps: seq<Step>)
    requires forall i :: 0 <= i < |steps| ==> Bumps(steps[i])
    ensures ApplyAll(s, steps).mem.epoch == s.mem.epoch + |steps|
    decreases |steps|
  {
    if steps != [] {
      StepEpoch(s, steps[0]);
      EpochAdds(Apply(s, steps[0]), steps[1..]);
    }
  }

  lemma {:induction false} EpochMoves(s: State, steps: seq<Step>, i: nat)
    requires i < |steps| && Bumps(steps[i])
    ensures ApplyAll(s, steps).mem.epoch > s.mem.epoch
    decreases i
  {
    StepEpoch(s, steps[0]);
    if i > 0 { EpochMoves(Apply(s, steps[0]), steps[1..], i - 1); }
    else { EpochCounts(Apply(s, steps[0]), steps[1..]); }
  }

  lemma {:induction false} LeavePlanBumps(g: Graph, user: string, groups: seq<string>)
    requires forall n :: n in groups ==> n in g.groups
    ensures forall step :: step in LeavePlan(g, user, groups) ==> Bumps(step)
  {
    if groups != [] { LeavePlanBumps(g, user, groups[1..]); }
  }

  lemma {:induction false} ChildPlanBumps(g: Graph, children: seq<string>)
    requires forall k :: k in children ==> k in g.users
    ensures forall step :: step in ChildPlan(g, children) ==> Bumps(step)
  {
    if children != [] { ChildPlanBumps(g, children[1..]); }
  }

  lemma DeletePlanBumps(g: Graph, user: string)
    ensures forall step :: step in DeletePlan(g, user) ==> Bumps(step)
  {
    LeavePlanBumps(g, user, SortedOf(Holding(g, user)));
    ChildPlanBumps(g, SortedOf(Children(g, user)));
  }

  /** The residues of two epochs agree only if the epochs do, while fewer than 2^64 changes lie between. */
  lemma ResidueTellsEpochs(a: nat, b: nat)
    requires a <= b < a + EPOCH_MODULUS && a % EPOCH_MODULUS == b % EPOCH_MODULUS
    ensures a == b
  {}

  // ---- What one event does ----

  /** The same regular users with the same credentials, secrets aside. */
  ghost predicate SameRegulars(g: Graph, g': Graph) {
    forall k ::
      && (k in g.users && g.users[k].IsRegular() <==> k in g'.users && g'.users[k].IsRegular())
      && (k in g.users && g.users[k].IsRegular() ==> g'.users[k] == g.users[k].(secretKey := g'.users[k].secretKey))
  }

  /** A step that neither moves the epoch nor touches more of a regular user than the secret. */
  ghost predicate Calm(g: Graph, step: Step) {
    && !Bumps(step)
    && (step.SaveIdentity? ==>
        if step.kind == Regular then
          && step.key in g.users && g.users[step.key].IsRegular()
          && step.credential == g.users[step.key].(secretKey := step.credential.secretKey)
        else
          && !step.credential.IsRegular() && (step.key in g.users ==> !g.users[step.key].IsRegular()))
  }

  lemma CalmKeepsRegulars(s: State, step: Step)
    requires Calm(s.mem, step)
    ensures SameRegulars(s.mem, Apply(s, step).mem)
  {}

  /** Only the first step of a plan may leave the epoch alone, and then it is calm. */
  ghost predicate CalmOrBumps(g: Graph, plan: seq<Step>) {
    && |plan| > 0 && (Bumps(plan[0]) || Calm(g, plan[0]))
    && forall i :: 0 < i < |plan| ==> Bumps(plan[i])
  }

  lemma DeleteBumps(v: Server, g: Graph, ctx: Context, target: string, draft: Draft)
    requires UserPlan(v.env, g, ctx, DeleteUser, target, draft).Ok?
    ensures var plan := UserPlan(v.env, g, ctx, DeleteUser, target, draft).value;
            |plan| > 0 && forall i :: 0 <= i < |plan| ==> Bumps(plan[i])
  {
    DeletePlanBumps(g, target);
    var plan := DeletePlan(g, target);
    assert forall i :: 0 <= i < |plan| ==> plan[i] in plan;
  }

  lemma GroupCalm(v: Server, g: Graph, ctx: Context, r: Request)
    requires r.GroupRequest? || r.CreateGroup?
    requires Plan(v.env, v.claims, g, ctx, r).Ok?
    ensures CalmOrBumps(g, Plan(v.env, v.claims, g, ctx, r).value)
  {
    if r.GroupRequest? { GroupPlanShape(v.env, g, ctx, r.groupAction, r.target, r.members, r.draft); }
  }

  lemma ServiceCalm(v: Server, g: Graph, ctx: Context, r: Request)
    requires r.ServiceRequest? || r.CreateService?
    requires Plan(v.env, v.claims, g, ctx, r).Ok?
    ensures CalmOrBumps(g, Plan(v.env, v.claims, g, ctx, r).value)
  {}

  lemma UserCalm(v: Server, g: Graph, ctx: Context, r: Request)
    requires r.CreateUser? || r.RotateSecret? || r.RotateSelf? || r.UserSecretRequest?
    requires Plan(v.env, v.claims, g, ctx, r).Ok?
    ensures CalmOrBumps(g, Plan(v.env, v.claims, g, ctx, r).value)
  {}

  lemma MappingCalm(g: Graph, kind: Kind, target: string, policies: seq<string>)
    requires kind != ServiceKind && MappingStep(g, kind, target, policies).Ok?
    ensures CalmOrBumps(g, MappingStep(g, kind, target, policies).value)
  {}

  lemma BindingCalm(v: Server, g: Graph, ctx: Context, r: Request)
    requires r.BindRequest? || r.ReplaceBindings?
    requires Plan(v.env, v.claims, g, ctx, r).Ok?
    ensures CalmOrBumps(g, Plan(v.env, v.claims, g, ctx, r).value)
  {
    MappingCalm(g, r.kind, r.target, CanonicalNames(r.policies).value);
  }

  lemma PlanCalmOrBumps(v: Server, g: Graph, ctx: Context, r: Request)
    requires Plan(v.env, v.claims, g, ctx, r).Ok?
    ensures CalmOrBumps(g, Plan(v.env, v.claims, g, ctx, r).value)
  {
    match r
    case UserRequest(action, target, draft) => if action.DeleteUser? { DeleteBumps(v, g, ctx, target, draft); }
    case GroupRequest(_, _, _, _) => GroupCalm(v, g, ctx, r);
    case CreateGroup(_, _) => GroupCalm(v, g, ctx, r);
    case ServiceRequest(_, _, _) => ServiceCalm(v, g, ctx, r);
    case CreateService(_, _) => ServiceCalm(v, g, ctx, r);
    case BindRequest(_, _, _, _, _) => BindingCalm(v, g, ctx, r);
    case ReplaceBindings(_, _, _, _) => BindingCalm(v, g, ctx, r);
    case _ => UserCalm(v, g, ctx, r);
  }

  /** The epoch never falls; while it stands still the regular users stay, secrets aside. */
  ghost predicate Advances(s: State, s': State) {
    && s.mem.epoch <= s'.mem.epoch
    && (s.mem.epoch == s'.mem.epoch ==> SameRegulars(s.mem, s'.mem))
  }

  lemma PrefixAdvances(s: State, plan: seq<Step>, k: nat)
    requires CalmOrBumps(s.mem, plan) && k <= |plan|
    ensures Advances(s, ApplyAll(s, plan[..k]))
    ensures k > 0 && Bumps(plan[0]) ==> ApplyAll(s, plan[..k]).mem.epoch > s.mem.epoch
  {
    var done := plan[..k];
    EpochCounts(s, done);
    if k >= 1 && Bumps(plan[0]) { EpochMoves(s, done, 0); }
    if k >= 2 { EpochMoves(s, done, 1); }
    if k == 1 && !Bumps(plan[0]) {
      assert done == [plan[0]] && ApplyAll(s, done) == Apply(s, plan[0]);
      CalmKeepsRegulars(s, plan[0]);
    }
  }

  lemma IssueAdvances(s: State, key: string, credential: Credential, policies: Policies, completed: nat)
    requires IssueOk(s.mem, key, credential, policies)
    ensures Advances(s, Issued(s, key, credential, policies, completed))
  {}

  lemma NextAdvances(v: Server, s: State, ev: Event, s': State)
    requires Next(v, s, ev, s')
    ensures Advances(s, s')
  {
    match ev
    case Native(ctx, request, completed) =>
      PlanCalmOrBumps(v, s.mem, ctx, request);
      PrefixAdvances(s, Plan(v.env, v.claims, s.mem, ctx, request).value, completed);
    case Issue(key, credential, policies, completed) => IssueAdvances(s, key, credential, policies, completed);
  }

  lemma DeleteMovesEpoch(v: Server, s: State, ev: Event, s': State)
    requires Next(v, s, ev, s') && ev.Native? && ev.completed > 0
    requires ev.request.UserRequest? && ev.request.userAction.DeleteUser?
    ensures s.mem.epoch < s'.mem.epoch
  {
    PlanCalmOrBumps(v, s.mem, ev.ctx, ev.request);
    DeleteBumps(v, s.mem, ev.ctx, ev.request.target, ev.request.draft);
    PrefixAdvances(s, Plan(v.env, v.claims, s.mem, ev.ctx, ev.request).value, ev.completed);
  }

  // ---- Along a run ----

  ghost predicate AllAdvance(states: seq<State>) {
    forall i, j :: 0 <= i < |states| && 0 <= j < |states| && j == i + 1 ==> Advances(states[i], states[j])
  }

  lemma RunAdvance(v: Server, states: seq<State>, events: seq<Event>)
    requires Run(v, states, events)
    ensures AllAdvance(states)
  {
    forall i, j | 0 <= i < |states| && 0 <= j < |states| && j == i + 1 ensures Advances(states[i], states[j]) {
      NextAdvances(v, states[i], events[i], states[i + 1]);
    }
  }

  lemma {:induction false} EpochNeverFalls(states: seq<State>, i: nat, j: nat)
    requires AllAdvance(states) && i <= j < |states|
    ensures states[i].mem.epoch <= states[j].mem.epoch
    decreases j
  {
    if i < j {
      EpochNeverFalls(states, i, j - 1);
      assert Advances(states[j - 1], states[j]);
    }
  }

  lemma {:induction false} StillRegulars(states: seq<State>, i: nat, j: nat)
    requires AllAdvance(states) && i <= j < |states| && states[i].mem.epoch == states[j].mem.epoch
    ensures SameRegulars(states[i].mem, states[j].mem)
    decreases j
  {
    if i < j {
      EpochNeverFalls(states, i, j - 1);
      assert Advances(states[j - 1], states[j]);
      StillRegulars(states, i, j - 1);
      assert SameRegulars(states[j - 1].mem, states[j].mem);
    }
  }

  // ---- Service-account proofs ----

  /** Main result: a service account is created only if, since its proof was captured, nothing moved the
      epoch: in every state in between, the regular users are the same up to their secrets, and at the
      moment of creation the parent's credential is the captured one to the byte. The request may put a relationship
      draft into the proof between the two captures. */
  lemma ServiceCreatedUnderSameParent(v: Server, states: seq<State>, events: seq<Event>, i: nat, m: nat, j: nat,
                                      actor: Credential, ctx: Context, ctx': Context, proof: Proof,
                                      draft: Result<Draft>, parent: string)
    requires Run(v, states, events) && i <= m <= j < |events| && events[j].Native?
    requires CaptureService(states[i].mem, ctx, actor) == Ok(proof)
    requires events[j].request.CreateService?
    requires CaptureParent(v.env, states[m].mem, ctx', proof.(draft := draft), parent) == Ok(events[j].request.proof)
    requires states[j].mem.epoch < states[i].mem.epoch + EPOCH_MODULUS
    ensures forall l :: i <= l <= j ==> states[l].mem.epoch == states[i].mem.epoch
    ensures forall l :: i <= l <= j ==> SameRegulars(states[i].mem, states[l].mem)
    ensures parent in states[j].mem.users && states[j].mem.users[parent] == states[m].mem.users[parent]
    ensures events[j].completed == 1 ==>
            exists key :: key !in states[j].mem.users && key in states[j + 1].mem.users
                          && states[j + 1].mem.users[key].parentUser == parent
  {
    CreationUsesProof(v, states[j], events[j], states[j + 1]);
    RunAdvance(v, states, events);
    EpochNeverFalls(states, i, j);
    ResidueTellsEpochs(states[i].mem.epoch, states[j].mem.epoch);
    forall l | i <= l <= j
      ensures states[l].mem.epoch == states[i].mem.epoch && SameRegulars(states[i].mem, states[l].mem)
    {
      EpochNeverFalls(states, i, l);
      EpochNeverFalls(states, l, j);
      StillRegulars(states, i, l);
    }
  }

  lemma CreationUsesProof(v: Server, s: State, ev: Event, s': State)
    requires Next(v, s, ev, s') && ev.Native? && ev.request.CreateService?
    ensures var proof := ev.request.proof;
            && proof.epoch == s.mem.epoch % EPOCH_MODULUS
            && proof.parent in s.mem.users && s.mem.users[proof.parent] == proof.parentCredential
            && (ev.completed == 1 ==> exists key :: key !in s.mem.users && key in s'.mem.users
                                                    && s'.mem.users[key].parentUser == proof.parent)
  {
    var plan := Plan(v.env, v.claims, s.mem, ev.ctx, ev.request).value;
    if ev.completed == 1 {
      CutOne(s, plan);
      assert plan[0].key in s'.mem.users;
    }
  }

  // ---- Disabled users ----

  ghost predicate Off(g: Graph, user: string) { user in g.users ==> g.users[user].status == ACCOUNT_OFF }

  /** The events that can give a key another status: enabling it, or making a credential of that name. */
  predicate Reinstates(ev: Event, user: string) {
    match ev
    case Issue(key, _, _, _) => key == user
    case Native(_, request, _) =>
      match request
      case UserRequest(EnableUser, target, _) => target == user
      case ServiceRequest(EnableService, target, _) => target == user
      case CreateUser(target, _) => target == user
      case CreateService(_, spec) => spec.minted.Ok? && spec.minted.value.accessKey == user
      case _ => false
  }

  ghost predicate KeepsOff(step: Step, user: string) {
    step.SaveIdentity? && step.key == user ==> step.credential.status == ACCOUNT_OFF
  }

  lemma {:induction false} StepsKeepOff(s: State, steps: seq<Step>, user: string)
    requires Off(s.mem, user) && forall i :: 0 <= i < |steps| ==> KeepsOff(steps[i], user)
    ensures Off(ApplyAll(s, steps).mem, user)
    decreases |steps|
  {
    if steps != [] {
      assert KeepsOff(steps[0], user);
      assert Off(Apply(s, steps[0]).mem, user);
      StepsKeepOff(Apply(s, steps[0]), steps[1..], user);
    }
  }

  lemma UserKeepsOff(v: Server, g: Graph, ctx: Context, r: Request, completed: nat, user: string)
    requires r.UserRequest? || r.CreateUser? || r.RotateSecret? || r.RotateSelf? || r.UserSecretRequest?
    requires Off(g, user) && !Removing(r) && Plan(v.env, v.claims, g, ctx, r).Ok?
             && !Reinstates(Native(ctx, r, completed), user)
    ensures forall i :: 0 <= i < |Plan(v.env, v.claims, g, ctx, r).value| ==>
              KeepsOff(Plan(v.env, v.claims, g, ctx, r).value[i], user)
  {}

  lemma ServiceKeepsOff(v: Server, g: Graph, ctx: Context, r: Request, completed: nat, user: string)
    requires r.ServiceRequest? || r.CreateService?
    requires Off(g, user) && !Removing(r) && Plan(v.env, v.claims, g, ctx, r).Ok?
             && !Reinstates(Native(ctx, r, completed), user)
    ensures forall i :: 0 <= i < |Plan(v.env, v.claims, g, ctx, r).value| ==>
              KeepsOff(Plan(v.env, v.claims, g, ctx, r).value[i], user)
  {}

  lemma RemovalSavesNobody(v: Server, g: Graph, ctx: Context, r: Request)
    requires Removing(r) && Plan(v.env, v.claims, g, ctx, r).Ok?
    ensures forall i :: 0 <= i < |Plan(v.env, v.claims, g, ctx, r).value| ==>
              !Plan(v.env, v.claims, g, ctx, r).value[i].SaveIdentity?
  {
    if r.UserRequest? {
      UserPlanIs(v.env, g, ctx, r.target, r.draft);
      var plan := DeletePlan(g, r.target);
      DeletePlanDrops(g, r.target, |plan|);
      assert plan[..|plan|] == plan;
      assert forall i :: 0 <= i < |plan| ==> Erases(plan[i]);
    } else {
      ServicePlanIs(v.env, v.claims, g, ctx, r.target, r.draft);
    }
  }

  lemma PlanKeepsOff(v: Server, g: Graph, ctx: Context, r: Request, completed: nat, user: string)
    requires Off(g, user) && Plan(v.env, v.claims, g, ctx, r).Ok? && !Reinstates(Native(ctx, r, completed), user)
    ensures forall i :: 0 <= i < |Plan(v.env, v.claims, g, ctx, r).value| ==>
              KeepsOff(Plan(v.env, v.claims, g, ctx, r).value[i], user)
  {
    if Removing(r) {
      RemovalSavesNobody(v, g, ctx, r);
    } else if r.ServiceRequest? || r.CreateService? {
      ServiceKeepsOff(v, g, ctx, r, completed, user);
    } else if r.GroupRequest? {
      GroupEditKeepsUsers(v.env, v.claims, g, ctx, r);
    } else if r.CreateGroup? {
      NewGroupKeepsUsers(v.env, v.claims, g, ctx, r);
    } else if r.BindRequest? || r.ReplaceBindings? {
      BindingKeepsUsers(v.env, v.claims, g, ctx, r);
    } else {
      UserKeepsOff(v, g, ctx, r, completed, user);
    }
  }

  lemma NextKeepsOff(v: Server, s: State, ev: Event, s': State, user: string)
    requires Off(s.mem, user) && Next(v, s, ev, s') && !Reinstates(ev, user)
    ensures Off(s'.mem, user)
  {
    if ev.Native? {
      PlanKeepsOff(v, s.mem, ev.ctx, ev.request, ev.completed, user);
      StepsKeepOff(s, Plan(v.env, v.claims, s.mem, ev.ctx, ev.request).value[..ev.completed], user);
    }
  }

  lemma {:induction false} StaysOff(v: Server, states: seq<State>, events: seq<Event>, user: string, d: nat, j: nat)
    requires Run(v, states, events) && d <= j < |states| && Off(states[d].mem, user)
    requires forall k :: d <= k < j ==> !Reinstates(events[k], user)
    ensures Off(states[j].mem, user)
    decreases j
  {
    if d < j {
      StaysOff(v, states, events, user, d, j - 1);
      NextKeepsOff(v, states[j - 1], events[j - 1], states[j - 1 + 1], user);
    }
  }

  /** Main result: from the commit that disables a user on, evaluation grants that name nothing, at any time and in
      every state of the run, until the name is enabled or made anew. */
  lemma DisabledHoldsNothing(v: Server, states: seq<State>, events: seq<Event>, d: nat, j: nat, now: int)
    requires Run(v, states, events) && d < j < |states|
    requires events[d].Native? && events[d].completed == 1
    requires events[d].request.UserRequest? && events[d].request.userAction.DisableUser?
    requires forall k :: d < k < j ==> !Reinstates(events[k], events[d].request.target)
    ensures PolicyGet(states[j].mem, now, events[d].request.target)
         == if events[d].request.target in states[j].mem.users then Ok({}) else Err(NoSuchUser)
  {
    DisableSets(v, states[d], events[d], states[d + 1]);
    StaysOff(v, states, events, events[d].request.target, d + 1, j);
  }

  lemma DisableSets(v: Server, s: State, ev: Event, s': State)
    requires Next(v, s, ev, s') && ev.Native? && ev.completed == 1
    requires ev.request.UserRequest? && ev.request.userAction.DisableUser?
    ensures Off(s'.mem, ev.request.target)
  {
    CutOne(s, Plan(v.env, v.claims, s.mem, ev.ctx, ev.request).value);
  }
}
