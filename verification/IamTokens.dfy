/**
 What a relationship token still guarantees later in a run: the digest is a keyed hash of the canonical bytes of the
 graph, so a draft is good exactly where those bytes are the ones it was issued for.
 */
module IamTokens {
  import opened Lex
  import opened IamGraph
  import opened IamPlans
  import opened IamRequests
  import opened IamSafety
  import opened IamLinks
  import IamEffects
  import opened IamRuns
  import opened IamImage
  import J = CanonicalJson

  /** The JSON library and the keyed hash behind a server's digests. */
  datatype Hashing = Hashing(writer: Writer, mac: string -> string)

  /** The digest is the hash of the canonical bytes and neither hash collides. The bound on the encoded length is
      taken before canonicalising, which only reorders. */
  ghost predicate Collisionless(h: Hashing, env: Env) {
    && WriterOk(h.writer)
    && (forall g :: env.digest(g) == h.mac(Bytes(h.writer, g)))
    && (forall x, y :: h.mac(x) == h.mac(y) ==> x == y)
    && (forall g, g' :: Bytes(h.writer, g) == Bytes(h.writer, g') ==> env.encodedLen(g) == env.encodedLen(g'))
    && (forall k, t, e, d, k', t', e', d' :: env.seal(k, t, e, d) == env.seal(k', t', e', d') ==>
        k == k' && t == t' && e == e' && d == d')
  }

  /** A server whose digests are made as the code makes them. */
  ghost function ServerEnv(h: Hashing, root: string, seal: (Kind, string, int, string) -> string,
                           sealBinding: BindingView -> string): Env
  {
    Env(root, g => Utf8Len(Bytes(h.writer, g)), g => h.mac(Bytes(h.writer, g)), seal, sealBinding)
  }

  /** Such a server meets the assumption as soon as its two hashes do not collide. */
  lemma ServerIsCollisionless(h: Hashing, root: string, seal: (Kind, string, int, string) -> string,
                              sealBinding: BindingView -> string)
    requires WriterOk(h.writer) && forall x, y :: h.mac(x) == h.mac(y) ==> x == y
    requires forall k, t, e, d, k', t', e', d' :: seal(k, t, e, d) == seal(k', t', e', d') ==>
             k == k' && t == t' && e == e' && d == d'
    ensures Collisionless(h, ServerEnv(h, root, seal, sealBinding))
  {
    var env := ServerEnv(h, root, seal, sealBinding);
    forall g ensures env.digest(g) == h.mac(Bytes(h.writer, g)) {}
  }

  function Unary(n: nat): string { seq(n + 1, i => '1') }

  /** Numbers and times can be written so that they are told apart. */
  lemma WriterExists() returns (w: Writer)
    ensures WriterOk(w)
  {
    w := Writer((n: nat) => Unary(n), (t: int) => if t < 0 then "-" + Unary(-t) else Unary(t),
                (d: Document) => J.Str(d.text));
    forall m: nat, n: nat | w.number(m) == w.number(n) ensures m == n {
      assert |Unary(m)| == m + 1 && |Unary(n)| == n + 1;
    }
    forall s, t | w.time(s) == w.time(t) ensures s == t { TimesDiffer(s, t); }
  }

  lemma TimesDiffer(s: int, t: int)
    requires (if s < 0 then "-" + Unary(-s) else Unary(s)) == (if t < 0 then "-" + Unary(-t) else Unary(t))
    ensures s == t
  {
    var x, y := (if s < 0 then "-" + Unary(-s) else Unary(s)), (if t < 0 then "-" + Unary(-t) else Unary(t));
    assert s < 0 <==> x[0] == '-';
    assert t < 0 <==> y[0] == '-';
    assert |x| == |y|;
  }

  // ---- Tokens are fingerprints ----

  lemma UserSizes(a: map<string, Credential>, b: map<string, Credential>)
    requires PrintedUsers(a) == PrintedUsers(b)
    ensures |a| == |b| && a.Keys == b.Keys
  {
    SameSize(a, b, PrintedUsers(a), PrintedUsers(b));
  }

  lemma GroupSizes(a: map<string, GroupInfo>, b: map<string, GroupInfo>)
    requires PrintedGroups(a) == PrintedGroups(b)
    ensures |a| == |b|
  {
    SameSize(a, b, PrintedGroups(a), PrintedGroups(b));
  }

  lemma MappingSizes(a: map<string, Policies>, b: map<string, Policies>)
    requires PrintedMappings(a) == PrintedMappings(b)
    ensures |a| == |b|
  {
    SameSize(a, b, PrintedMappings(a), PrintedMappings(b));
  }

  lemma PrintedRecords(g: Graph, g': Graph)
    requires Canonical(g) == Canonical(g')
    ensures RecordCount(g) == RecordCount(g') && (Marshals(g) <==> Marshals(g'))
  {
    UserSizes(g.users, g'.users);
    GroupSizes(g.groups, g'.groups);
    MappingSizes(g.userPolicies, g'.userPolicies);
    MappingSizes(g.groupPolicies, g'.groupPolicies);
    forall k | k in g.users ensures g.users[k].expiration == g'.users[k].expiration {
      assert PrintedUsers(g.users)[k].rest == PrintedUsers(g'.users)[k].rest;
    }
  }

  lemma SameSize<T, U>(a: map<string, T>, b: map<string, T>, x: map<string, U>, y: map<string, U>)
    requires x.Keys == a.Keys && y.Keys == b.Keys && x == y
    ensures |a| == |b| && a.Keys == b.Keys
  {
    assert |a| == |a.Keys| && |b| == |b.Keys|;
  }

  lemma DigestExact(h: Hashing, env: Env, g: Graph, g': Graph)
    requires Collisionless(h, env) && Marshals(g) && Marshals(g')
    ensures env.digest(g) == env.digest(g') <==> Canonical(g) == Canonical(g')
  {
    FingerprintExact(h.writer, g, g');
    assert env.digest(g) == h.mac(Bytes(h.writer, g)) && env.digest(g') == h.mac(Bytes(h.writer, g'));
  }

  /** Graphs with one fingerprint are within the bounds together. */
  lemma TokenableTogether(h: Hashing, env: Env, g: Graph, g': Graph)
    requires Collisionless(h, env) && Canonical(g) == Canonical(g') && Tokenable(env, g)
    ensures Tokenable(env, g') && env.digest(g) == env.digest(g')
  {
    PrintedRecords(g, g');
    FingerprintExact(h.writer, g, g');
    DigestExact(h, env, g, g');
  }

  /** Two graphs give one token exactly when they have one fingerprint. */
  lemma TokensEqualExactly(h: Hashing, env: Env, g: Graph, g': Graph, kind: Kind, target: string, expires: int)
    requires Collisionless(h, env) && Tokenable(env, g)
    ensures TokenOf(env, g', kind, target, expires) == TokenOf(env, g, kind, target, expires)
       <==> Canonical(g') == Canonical(g)
  {
    if Canonical(g') == Canonical(g) {
      TokenableTogether(h, env, g, g');
    } else if Tokenable(env, g') {
      DigestExact(h, env, g, g');
    }
  }

  /** A draft is accepted exactly in graphs with the fingerprint it was issued for, for the same query
      and expiry, inside its window. */
  lemma DraftAcceptedExactly(h: Hashing, env: Env, issued: Graph, g: Graph, ctx: Context, kind: Kind, target: string,
                             kind': Kind, target': string, draft: Draft, expires: int)
    requires Collisionless(h, env)
    requires TokenOf(env, issued, kind', target', expires) == Ok(draft.token)
    ensures DraftCheck(env, g, ctx, kind, target, draft).Ok? <==>
            && ctx.authorized && InWindow(ctx, draft.expires)
            && kind == kind' && target == target' && draft.expires == expires
            && Canonical(g) == Canonical(issued)
  {
    if Canonical(g) == Canonical(issued) {
      TokenableTogether(h, env, issued, g);
    } else if Tokenable(env, g) {
      DigestExact(h, env, issued, g);
    }
  }

  // ---- Mappings along a run ----

  predicate JoinsNames(step: Step) {
    step.SetUserMapping? || step.SetGroupMapping? ==> step.policies == [] || Joinable(step.policies)
  }

  lemma ValidNamesJoin(names: seq<string>)
    requires CanonicalNames(names).Ok?
    ensures var sorted := CanonicalNames(names).value; sorted == [] || Joinable(sorted)
  {
    var sorted := CanonicalNames(names).value;
    forall n | n in sorted ensures n != "" && ',' !in n {
      var i :| 0 <= i < |sorted| && sorted[i] == n;
      assert ValidName(sorted[i]);
    }
  }

  lemma StepJoinable(s: State, step: Step)
    requires GraphJoinable(s.mem) && JoinsNames(step)
    ensures GraphJoinable(Apply(s, step).mem)
  {}

  lemma {:induction false} StepsJoinable(s: State, steps: seq<Step>)
    requires GraphJoinable(s.mem) && forall i :: 0 <= i < |steps| ==> JoinsNames(steps[i])
    ensures GraphJoinable(ApplyAll(s, steps).mem)
    decreases |steps|
  {
    if steps != [] {
      assert JoinsNames(steps[0]);
      StepJoinable(s, steps[0]);
      StepsJoinable(Apply(s, steps[0]), steps[1..]);
    }
  }

  ghost predicate AllJoin(plan: seq<Step>) { forall i :: 0 <= i < |plan| ==> JoinsNames(plan[i]) }

  lemma MappingJoins(g: Graph, kind: Kind, target: string, policies: seq<string>)
    requires kind != ServiceKind && MappingStep(g, kind, target, policies).Ok? && (policies == [] || Joinable(policies))
    ensures AllJoin(MappingStep(g, kind, target, policies).value)
  {}

  lemma BindingJoins(v: Server, g: Graph, ctx: Context, r: Request)
    requires (r.BindRequest? || r.ReplaceBindings?) && Plan(v.env, v.claims, g, ctx, r).Ok?
    ensures AllJoin(Plan(v.env, v.claims, g, ctx, r).value)
  {
    IamEffects.BindingPlanIs(v.env, v.claims, g, ctx, r);
    ValidNamesJoin(r.policies);
    MappingJoins(g, r.kind, r.target, CanonicalNames(r.policies).value);
  }

  lemma GroupEditJoins(v: Server, g: Graph, ctx: Context, r: Request)
    requires r.GroupRequest? && Plan(v.env, v.claims, g, ctx, r).Ok?
    ensures AllJoin(Plan(v.env, v.claims, g, ctx, r).value)
  {
    GroupPlanShape(v.env, g, ctx, r.groupAction, r.target, r.members, r.draft);
  }

  lemma NewGroupJoins(v: Server, g: Graph, ctx: Context, r: Request)
    requires r.CreateGroup? && Plan(v.env, v.claims, g, ctx, r).Ok?
    ensures AllJoin(Plan(v.env, v.claims, g, ctx, r).value)
  {
    CreateGroupPlanIs(g, ctx, r.target, r.members);
  }

  lemma RemovalJoins(v: Server, g: Graph, ctx: Context, r: Request)
    requires Removing(r) && Plan(v.env, v.claims, g, ctx, r).Ok?
    ensures AllJoin(Plan(v.env, v.claims, g, ctx, r).value)
  {
    if r.UserRequest? {
      UserPlanIs(v.env, g, ctx, r.target, r.draft);
      var plan := DeletePlan(g, r.target);
      DeletePlanDrops(g, r.target, |plan|);
      assert plan[..|plan|] == plan;
      assert forall i :: 0 <= i < |plan| ==> Erases(plan[i]);
    } else {
      ServicePlanIs(v.env, v.claims, g, ctx, r.target, r.draft);
    }
  }

  lemma PlanJoins(v: Server, g: Graph, ctx: Context, r: Request)
    requires Plan(v.env, v.claims, g, ctx, r).Ok?
    ensures AllJoin(Plan(v.env, v.claims, g, ctx, r).value)
  {
    if Removing(r) {
      RemovalJoins(v, g, ctx, r);
    } else if r.BindRequest? || r.ReplaceBindings? {
      BindingJoins(v, g, ctx, r);
    } else if r.GroupRequest? {
      GroupEditJoins(v, g, ctx, r);
    } else if r.CreateGroup? {
      NewGroupJoins(v, g, ctx, r);
    } else {
      PlanGrows(v.env, v.claims, g, ctx, r);
      SavesOne(v, g, ctx, r);
    }
  }

  lemma SavesOne(v: Server, g: Graph, ctx: Context, r: Request)
    requires Plan(v.env, v.claims, g, ctx, r).Ok? && !Removing(r)
    requires !r.BindRequest? && !r.ReplaceBindings? && !r.GroupRequest? && !r.CreateGroup?
    ensures |Plan(v.env, v.claims, g, ctx, r).value| == 1 && Plan(v.env, v.claims, g, ctx, r).value[0].SaveIdentity?
  {}

  lemma NextJoinable(v: Server, s: State, ev: Event, s': State)
    requires GraphJoinable(s.mem) && Next(v, s, ev, s')
    ensures GraphJoinable(s'.mem)
  {
    if ev.Native? {
      PlanJoins(v, s.mem, ev.ctx, ev.request);
      StepsJoinable(s, Plan(v.env, v.claims, s.mem, ev.ctx, ev.request).value[..ev.completed]);
    }
  }

  /** Every state of a run keeps its mappings in a form their stored text determines. */
  lemma {:induction false} RunJoinable(v: Server, states: seq<State>, events: seq<Event>, i: nat)
    requires Run(v, states, events) && i < |states| && GraphJoinable(states[0].mem)
    ensures GraphJoinable(states[i].mem)
  {
    if i > 0 {
      RunJoinable(v, states, events, i - 1);
      NextJoinable(v, states[i - 1], events[i - 1], states[i - 1 + 1]);
    }
  }

  // ---- Drafts along a run ----

  /** The request brings a relationship token; creating a service account may do so. */
  predicate Drafted(r: Request) {
    || r.UserRequest? || r.GroupRequest? || r.ServiceRequest? || r.BindRequest? || r.UserSecretRequest?
    || (r.CreateService? && r.proof.draft.Ok?)
  }

  function DraftKind(r: Request): Kind
    requires Drafted(r)
  {
    match r
    case GroupRequest(_, _, _, _) => GroupKind
    case ServiceRequest(_, _, _) => ServiceKind
    case BindRequest(kind, _, _, _, _) => kind
    case _ => UserKind
  }

  function DraftOf(r: Request): Draft
    requires Drafted(r)
  {
    if r.CreateService? then r.proof.draft.value else r.draft
  }

  /** A creation is bound to the parent of the new account. */
  function DraftTarget(r: Request): string
    requires Drafted(r)
  {
    if r.CreateService? then r.proof.parent else r.target
  }

  lemma DraftedPlanChecks(v: Server, g: Graph, ctx: Context, r: Request)
    requires Drafted(r) && Plan(v.env, v.claims, g, ctx, r).Ok?
    ensures DraftCheck(v.env, g, ctx, DraftKind(r), DraftTarget(r), DraftOf(r)).Ok?
  {}

  predicate BringsDraft(ev: Event) { ev.Native? && Drafted(ev.request) }

  lemma EventChecks(v: Server, states: seq<State>, events: seq<Event>, j: nat)
    requires Run(v, states, events) && j < |events| && BringsDraft(events[j])
    ensures var r := events[j].request;
            DraftCheck(v.env, states[j].mem, events[j].ctx, DraftKind(r), DraftTarget(r), DraftOf(r)).Ok?
  {
    assert Next(v, states[j], events[j], states[j + 1]);
    DraftedPlanChecks(v, states[j].mem, events[j].ctx, events[j].request);
  }

  /** Main result: over any interleaving, a drafted request commits only where the canonical graph,
      epoch included, equals the one its token was issued in. */
  lemma CommitsOnlyWhereIssued(h: Hashing, v: Server, states: seq<State>, events: seq<Event>, i: nat, j: nat,
                               kind: Kind, target: string, expires: int)
    requires Collisionless(h, v.env)
    requires Run(v, states, events) && i < |states| && j < |events| && BringsDraft(events[j])
    requires TokenOf(v.env, states[i].mem, kind, target, expires) == Ok(DraftOf(events[j].request).token)
    ensures Canonical(states[j].mem) == Canonical(states[i].mem)
    ensures kind == DraftKind(events[j].request) && target == DraftTarget(events[j].request)
    ensures expires == DraftOf(events[j].request).expires
    ensures GraphJoinable(states[0].mem) ==>
            && states[j].mem.userPolicies == states[i].mem.userPolicies
            && states[j].mem.groupPolicies == states[i].mem.groupPolicies
  {
    var r := events[j].request;
    EventChecks(v, states, events, j);
    DraftAcceptedExactly(h, v.env, states[i].mem, states[j].mem, events[j].ctx, DraftKind(r), DraftTarget(r),
                         kind, target, DraftOf(r), expires);
    if GraphJoinable(states[0].mem) {
      RunJoinable(v, states, events, i);
      RunJoinable(v, states, events, j);
      PrintedMappingsInjective(states[j].mem.userPolicies, states[i].mem.userPolicies);
      PrintedMappingsInjective(states[j].mem.groupPolicies, states[i].mem.groupPolicies);
    }
  }

  /** Once any step moved the epoch, tokens issued before are dead for the rest of the run. */
  lemma EpochKillsTokens(h: Hashing, v: Server, states: seq<State>, events: seq<Event>, i: nat, d: nat, j: nat,
                         kind: Kind, target: string, expires: int)
    requires Collisionless(h, v.env)
    requires Run(v, states, events) && i <= d < j < |events| && BringsDraft(events[j])
    requires states[d].mem.epoch < states[d + 1].mem.epoch
    requires states[j].mem.epoch < states[i].mem.epoch + EPOCH_MODULUS
    ensures TokenOf(v.env, states[i].mem, kind, target, expires) != Ok(DraftOf(events[j].request).token)
  {
    RunAdvance(v, states, events);
    EpochNeverFalls(states, i, d);
    EpochNeverFalls(states, d + 1, j);
    if TokenOf(v.env, states[i].mem, kind, target, expires) == Ok(DraftOf(events[j].request).token) {
      CommitsOnlyWhereIssued(h, v, states, events, i, j, kind, target, expires);
      ResidueTellsEpochs(states[i].mem.epoch, states[j].mem.epoch);
    }
  }

  /** Main result: no token issued before a user deletion made its first change is ever accepted
      after it, not even when an identical user is created again. */
  lemma DeletionKillsTokens(h: Hashing, v: Server, states: seq<State>, events: seq<Event>, i: nat, d: nat, j: nat,
                            kind: Kind, target: string, expires: int)
    requires Collisionless(h, v.env)
    requires Run(v, states, events) && i <= d < j < |events| && BringsDraft(events[j])
    requires events[d].Native? && events[d].completed > 0
    requires events[d].request.UserRequest? && events[d].request.userAction.DeleteUser?
    requires states[j].mem.epoch < states[i].mem.epoch + EPOCH_MODULUS
    ensures TokenOf(v.env, states[i].mem, kind, target, expires) != Ok(DraftOf(events[j].request).token)
  {
    DeleteMovesEpoch(v, states[d], events[d], states[d + 1]);
    EpochKillsTokens(h, v, states, events, i, d, j, kind, target, expires);
  }
}
