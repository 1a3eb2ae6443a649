/**
 When each request is accepted, said in terms of the graph and the request alone, and what an accepted revision proves
 about the state it was read in.
 */
module IamAcceptance {
  import opened Lex
  import opened Text
  import opened IamGraph
  import opened IamPlans
  import opened IamRequests
  import opened IamRuns

  // ---- Names, secrets and credentials ----

  /** 1 to 128 bytes, no white space at either end, and nothing that could end a name in a path, a header or a list. */
  predicate Named(s: string) {
    && 0 < |s| && Utf8Len(s) <= 128 && !IsSpace(s[0]) && !IsSpace(s[|s| - 1])
    && forall i :: 0 <= i < |s| ==>
         s[i] != '/' && s[i] != '\\' && s[i] != ',' && s[i] != '\r' && s[i] != '\n' && s[i] != '\0'
  }

  predicate NameList(names: seq<string>) {
    && |names| <= 100 && (forall i :: 0 <= i < |names| ==> Named(names[i]))
    && forall i, j :: 0 <= i < j < |names| ==> names[i] != names[j]
  }

  predicate Secret(s: string) {
    8 <= Utf8Len(s) <= 128 && forall i :: 0 <= i < |s| ==> s[i] != '\r' && s[i] != '\n' && s[i] != '\0'
  }

  /** The credential expires one day; the zero time and the Unix epoch stand for never. */
  predicate Dated(c: Credential) { c.expiration != 0 && c.expiration != -62_135_596_800_000_000_000 }

  /** Neither a temporary credential nor a service account. */
  predicate Plain(c: Credential) { (c.sessionToken == "" || !Dated(c)) && (c.parentUser == "" || Dated(c)) }

  /** Switched on, long enough and not past its expiry. */
  predicate Usable(c: Credential, now: int) {
    c.status != "off" && Utf8Len(c.accessKey) >= 3 && Utf8Len(c.secretKey) >= 8 && (!Dated(c) || now <= c.expiration)
  }

  lemma NamedExactly(s: string)
    ensures ValidName(s) <==> Named(s)
  {
    if Named(s) {
      forall c | c in s ensures c !in {'\0', '\r', '\n', '/', '\\', ','} {
        var i :| 0 <= i < |s| && s[i] == c;
      }
    } else if ValidName(s) {
      forall i | 0 <= i < |s| ensures s[i] !in {'\0', '\r', '\n', '/', '\\', ','} { assert s[i] in s; }
    }
  }

  lemma SecretExactly(s: string)
    ensures ValidSecret(s) <==> Secret(s)
  {
    if Secret(s) {
      forall c | c in s ensures c !in {'\0', '\r', '\n'} { var i :| 0 <= i < |s| && s[i] == c; }
    } else if ValidSecret(s) {
      forall i | 0 <= i < |s| ensures s[i] !in {'\0', '\r', '\n'} { assert s[i] in s; }
    }
  }

  lemma NameListExactly(names: seq<string>)
    ensures CanonicalNames(names).Ok? <==> NameList(names)
    ensures NameList(names) ==> forall n :: n in CanonicalNames(names).value <==> n in names
  {
    CanonicalNamesAccepts(names);
    forall n ensures ValidName(n) <==> Named(n) { NamedExactly(n); }
    if NameList(names) {
      forall n | n in names ensures ValidName(n) { var i :| 0 <= i < |names| && names[i] == n; }
      SortedMembers(names);
    } else if CanonicalNames(names).Ok? {
      forall i | 0 <= i < |names| ensures Named(names[i]) { assert names[i] in names; }
    }
  }

  lemma CredentialExactly(c: Credential, now: int)
    ensures c.IsRegular() <==> Plain(c)
    ensures c.IsValid(now) <==> Usable(c, now)
  {}

  // ---- Acceptance ----

  /** The draft is for this target and this very graph, was issued at most thirty seconds before its end, and the graph
      is small enough to be hashed. */
  predicate Drafts(env: Env, g: Graph, ctx: Context, kind: Kind, target: string, draft: Draft) {
    && ctx.authorized && ctx.now < draft.expires <= ctx.now + 30_000_000_000
    && |g.users| + |g.groups| + |g.userPolicies| + |g.groupPolicies| + |g.documents| + |g.memberships| <= 4096
    && (forall k :: k in g.users ==> Printable(g.users[k].expiration)) && env.encodedLen(g) <= 4_194_304
    && draft.token == env.seal(kind, target, draft.expires, env.digest(g))
  }

  lemma DraftsExactly(env: Env, g: Graph, ctx: Context, kind: Kind, target: string, draft: Draft)
    ensures DraftCheck(env, g, ctx, kind, target, draft).Ok? <==> Drafts(env, g, ctx, kind, target, draft)
  {}

  predicate AcceptsUser(env: Env, g: Graph, ctx: Context, target: string, draft: Draft) {
    && Named(target) && target != env.root && Drafts(env, g, ctx, UserKind, target, draft)
    && target in g.users && Plain(g.users[target]) && g.users[target].parentUser == ""
    && forall k :: k in g.users && g.users[k].parentUser == target ==> !Plain(g.users[k])
  }

  /** Whoever belongs to the group, by its own list or by the index, is an existing native user. */
  predicate GroupReachable(g: Graph, target: string) {
    && target in g.groups
    && (forall u :: u in g.groups[target].members ==> u in g.users && Plain(g.users[u]))
    && (forall u :: u in g.memberships && target in g.memberships[u] ==> u in g.users && Plain(g.users[u]))
  }

  predicate AcceptsGroup(env: Env, g: Graph, ctx: Context, action: GroupAction, target: string, members: seq<string>,
                         draft: Draft)
  {
    && Named(target) && Drafts(env, g, ctx, GroupKind, target, draft) && GroupReachable(g, target)
    && NameList(members) && (members == [] <==> action.EnableGroup? || action.DisableGroup? || action.DeleteGroup?)
    && (forall i :: 0 <= i < |members| ==> members[i] in g.users && Plain(g.users[members[i]]))
    && (action.DeleteGroup? ==> g.groups[target].members == [])
  }

  predicate AcceptsService(env: Env, claims: Credential -> bool, g: Graph, ctx: Context, action: ServiceAction,
                           target: string, draft: Draft)
  {
    && Named(target) && Drafts(env, g, ctx, ServiceKind, target, draft) && target in g.users
    && var c := g.users[target];
    && c.parentUser != "" && !Dated(c) && c.parentUser in g.users && Plain(g.users[c.parentUser]) && claims(c)
    && (action.RotateService? ==> Secret(action.secret) && action.secret != c.secretKey)
    && (action.RestrictService? ==> action.signed.Ok?)
  }

  /** The target is there and its bindings can be read. */
  predicate Readable(env: Env, g: Graph, kind: Kind, target: string) {
    && Named(target)
    && match kind
       case UserKind => target in g.users && target != env.root && Plain(g.users[target])
       case GroupKind => target in g.groups
       case ServiceKind => false
  }

  predicate AcceptsPolicies(g: Graph, policies: seq<string>) {
    NameList(policies) && forall i :: 0 <= i < |policies| ==> policies[i] in g.documents
  }

  predicate AcceptsCreation(env: Env, g: Graph, ctx: Context, proof: Proof, spec: ServiceSpec) {
    && (if proof.draft.Ok? then Drafts(env, g, ctx, UserKind, proof.parent, proof.draft.value) else ctx.authorized)
    && proof.epoch == g.epoch % 0x1_0000_0000_0000_0000
    && spec.guardKey == proof.actorKey && spec.guardSecret == proof.actorSecret && spec.caller == proof.actorKey
    && proof.parent != "" && proof.parent != env.root && proof.parent in g.users
    && var c := g.users[proof.parent];
    && c == proof.parentCredential && Usable(c, ctx.now) && Plain(c) && c.parentUser == "" && spec.contained
    && (spec.key != "" ==> spec.key != env.root && spec.key !in g.users)
    && spec.minted.Ok? && spec.minted.value.accessKey != env.root && spec.minted.value.accessKey !in g.users
  }

  predicate Accepts(env: Env, claims: Credential -> bool, g: Graph, ctx: Context, r: Request) {
    match r
    case UserRequest(_, target, draft) => AcceptsUser(env, g, ctx, target, draft)
    case GroupRequest(action, target, members, draft) => AcceptsGroup(env, g, ctx, action, target, members, draft)
    case ServiceRequest(action, target, draft) => AcceptsService(env, claims, g, ctx, action, target, draft)
    case BindRequest(kind, target, binding, policies, draft) =>
      && Drafts(env, g, ctx, kind, target, draft) && Readable(env, g, kind, target)
      && Bindings(env, g, kind, target) == Ok(binding) && AcceptsPolicies(g, policies)
      && (kind == GroupKind ==> GroupReachable(g, target))
    case UserSecretRequest(target, secret, binding, draft) =>
      && Drafts(env, g, ctx, UserKind, target, draft) && Readable(env, g, UserKind, target)
      && Bindings(env, g, UserKind, target) == Ok(binding) && Secret(secret) && secret != g.users[target].secretKey
    case CreateUser(target, secret) =>
      && ctx.authorized && Named(target) && Utf8Len(target) >= 3 && target != env.root && target !in g.users
      && 8 <= Utf8Len(secret) <= 128
    case CreateGroup(target, members) =>
      && ctx.authorized && Named(target) && target !in g.groups && NameList(members)
      && forall i :: 0 <= i < |members| ==> members[i] in g.users && Plain(g.users[members[i]])
    case RotateSecret(target, secret) =>
      && ctx.authorized && Named(target) && Secret(secret) && target != env.root
      && target in g.users && Plain(g.users[target])
    case ReplaceBindings(kind, target, binding, policies) =>
      && ctx.authorized && Readable(env, g, kind, target) && Bindings(env, g, kind, target) == Ok(binding)
      && AcceptsPolicies(g, policies)
    case RotateSelf(target, expected, secret) =>
      && ctx.authorized && Secret(secret) && secret != expected && target != env.root && target in g.users
      && Plain(g.users[target]) && Usable(g.users[target], ctx.now) && g.users[target].secretKey == expected
    case CreateService(proof, spec) => AcceptsCreation(env, g, ctx, proof, spec)
  }

  lemma PlainUsers(g: Graph)
    ensures forall u :: u in g.users ==> (g.users[u].IsRegular() <==> Plain(g.users[u]))
  {
    forall u | u in g.users ensures g.users[u].IsRegular() <==> Plain(g.users[u]) {
      CredentialExactly(g.users[u], 0);
    }
  }

  lemma UserAccepted(env: Env, g: Graph, ctx: Context, action: UserAction, target: string, draft: Draft)
    ensures UserPlan(env, g, ctx, action, target, draft).Ok? <==> AcceptsUser(env, g, ctx, target, draft)
  {
    NamedExactly(target);
    DraftsExactly(env, g, ctx, UserKind, target, draft);
    PlainUsers(g);
  }

  lemma ClosedExactly(g: Graph, group: string)
    requires group in g.groups
    ensures GroupClosed(g, group) <==> GroupReachable(g, group)
  {
    PlainUsers(g);
    if GroupClosed(g, group) {
      forall u | u in g.groups[group].members ensures u in g.users && Plain(g.users[u]) { assert g.Listed(u, group); }
      forall u | u in g.memberships && group in g.memberships[u] ensures u in g.users && Plain(g.users[u]) {
        assert group in g.Index(u);
      }
    }
  }

  lemma MembersExactly(g: Graph, members: seq<string>, names: seq<string>)
    requires CanonicalNames(members) == Ok(names)
    ensures MembersCheck(g, names).Ok? <==>
            forall i :: 0 <= i < |members| ==> members[i] in g.users && Plain(g.users[members[i]])
  {
    NameListExactly(members);
    PlainUsers(g);
    if MembersCheck(g, names).Ok? {
      forall i | 0 <= i < |members| ensures members[i] in g.users && Plain(g.users[members[i]]) {
        assert members[i] in names;
      }
    } else if forall i :: 0 <= i < |members| ==> members[i] in g.users && Plain(g.users[members[i]]) {
      forall m | m in names ensures m in g.users && g.users[m].IsRegular() {
        var i :| 0 <= i < |members| && members[i] == m;
      }
    }
  }

  lemma GroupReachedExactly(env: Env, g: Graph, target: string)
    requires |g.users| + |g.groups| + |g.documents| + |g.memberships| <= 4096
    ensures Impact(env, g, GroupKind, target).Ok? <==> ValidName(target) && GroupReachable(g, target)
  {
    if target in g.groups { ClosedExactly(g, target); }
  }

  ghost predicate GroupChecks(env: Env, g: Graph, ctx: Context, action: GroupAction, target: string,
                              members: seq<string>, draft: Draft)
  {
    && ValidName(target) && (members == [] <==> action.EnableGroup? || action.DisableGroup? || action.DeleteGroup?)
    && CanonicalNames(members).Ok? && DraftCheck(env, g, ctx, GroupKind, target, draft).Ok?
    && Impact(env, g, GroupKind, target).Ok? && MembersCheck(g, CanonicalNames(members).value).Ok?
    && (action.DeleteGroup? ==> g.groups[target].members == [])
  }

  lemma GroupChecksExactly(env: Env, g: Graph, ctx: Context, action: GroupAction, target: string,
                           members: seq<string>, draft: Draft)
    ensures GroupPlan(env, g, ctx, action, target, members, draft).Ok?
       <==> GroupChecks(env, g, ctx, action, target, members, draft)
  {}

  lemma GroupAccepted(env: Env, g: Graph, ctx: Context, action: GroupAction, target: string, members: seq<string>,
                      draft: Draft)
    ensures GroupPlan(env, g, ctx, action, target, members, draft).Ok?
       <==> AcceptsGroup(env, g, ctx, action, target, members, draft)
  {
    NamedExactly(target);
    NameListExactly(members);
    DraftsExactly(env, g, ctx, GroupKind, target, draft);
    GroupChecksExactly(env, g, ctx, action, target, members, draft);
    if NameList(members) && Drafts(env, g, ctx, GroupKind, target, draft) {
      GroupReachedExactly(env, g, target);
      MembersExactly(g, members, CanonicalNames(members).value);
    }
  }

  lemma ServiceAccepted(env: Env, claims: Credential -> bool, g: Graph, ctx: Context, action: ServiceAction,
                        target: string, draft: Draft)
    ensures ServicePlan(env, claims, g, ctx, action, target, draft).Ok?
       <==> AcceptsService(env, claims, g, ctx, action, target, draft)
  {
    NamedExactly(target);
    DraftsExactly(env, g, ctx, ServiceKind, target, draft);
    PlainUsers(g);
    if action.RotateService? { SecretExactly(action.secret); }
  }

  lemma ReadableExactly(env: Env, g: Graph, kind: Kind, target: string)
    ensures Bindings(env, g, kind, target).Ok? <==> Readable(env, g, kind, target)
  {
    NamedExactly(target);
    PlainUsers(g);
  }

  lemma PoliciesExactly(g: Graph, kind: Kind, target: string, policies: seq<string>)
    requires kind != ServiceKind && (if kind == UserKind then target in g.users else target in g.groups)
    ensures AcceptsPolicies(g, policies) <==>
            CanonicalNames(policies).Ok? && MappingStep(g, kind, target, CanonicalNames(policies).value).Ok?
  {
    NameListExactly(policies);
    if NameList(policies) {
      var names := CanonicalNames(policies).value;
      if AcceptsPolicies(g, policies) {
        forall p | p in names ensures p in g.documents { var i :| 0 <= i < |policies| && policies[i] == p; }
      } else {
        var i :| 0 <= i < |policies| && policies[i] !in g.documents;
        assert policies[i] in names;
      }
    }
  }

  lemma ReplaceAccepted(env: Env, claims: Credential -> bool, g: Graph, ctx: Context, r: Request)
    requires r.ReplaceBindings?
    ensures Plan(env, claims, g, ctx, r).Ok? <==> Accepts(env, claims, g, ctx, r)
  {
    ReadableExactly(env, g, r.kind, r.target);
    if Readable(env, g, r.kind, r.target) { PoliciesExactly(g, r.kind, r.target, r.policies); }
  }

  lemma BindAccepted(env: Env, claims: Credential -> bool, g: Graph, ctx: Context, r: Request)
    requires r.BindRequest?
    ensures Plan(env, claims, g, ctx, r).Ok? <==> Accepts(env, claims, g, ctx, r)
  {
    DraftsExactly(env, g, ctx, r.kind, r.target, r.draft);
    ReadableExactly(env, g, r.kind, r.target);
    NamedExactly(r.target);
    PlainUsers(g);
    if Readable(env, g, r.kind, r.target) {
      PoliciesExactly(g, r.kind, r.target, r.policies);
      if r.kind == GroupKind { ClosedExactly(g, r.target); }
    }
  }

  lemma SecretAccepted(env: Env, claims: Credential -> bool, g: Graph, ctx: Context, r: Request)
    requires r.UserSecretRequest? || r.CreateUser? || r.RotateSecret? || r.RotateSelf?
    ensures Plan(env, claims, g, ctx, r).Ok? <==> Accepts(env, claims, g, ctx, r)
  {
    NamedExactly(r.target);
    SecretExactly(r.secret);
    PlainUsers(g);
    if r.target in g.users { CredentialExactly(g.users[r.target], ctx.now); }
    if r.UserSecretRequest? {
      DraftsExactly(env, g, ctx, UserKind, r.target, r.draft);
      ReadableExactly(env, g, UserKind, r.target);
    }
  }

  lemma CreateGroupAccepted(env: Env, claims: Credential -> bool, g: Graph, ctx: Context, r: Request)
    requires r.CreateGroup?
    ensures Plan(env, claims, g, ctx, r).Ok? <==> Accepts(env, claims, g, ctx, r)
  {
    NamedExactly(r.target);
    NameListExactly(r.members);
    if NameList(r.members) { MembersExactly(g, r.members, CanonicalNames(r.members).value); }
  }

  lemma CreationAccepted(env: Env, g: Graph, ctx: Context, proof: Proof, spec: ServiceSpec)
    ensures CreateServicePlan(env, g, ctx, proof, spec).Ok? <==> AcceptsCreation(env, g, ctx, proof, spec)
  {
    if proof.draft.Ok? { DraftsExactly(env, g, ctx, UserKind, proof.parent, proof.draft.value); }
    if proof.parent in g.users { CredentialExactly(g.users[proof.parent], ctx.now); }
  }

  /** Main result: a request gets past its checks exactly under the conditions written out above. */
  lemma AcceptedExactly(env: Env, claims: Credential -> bool, g: Graph, ctx: Context, r: Request)
    ensures Plan(env, claims, g, ctx, r).Ok? <==> Accepts(env, claims, g, ctx, r)
  {
    match r
    case UserRequest(action, target, draft) => UserAccepted(env, g, ctx, action, target, draft);
    case GroupRequest(action, target, members, draft) => GroupAccepted(env, g, ctx, action, target, members, draft);
    case ServiceRequest(action, target, draft) => ServiceAccepted(env, claims, g, ctx, action, target, draft);
    case BindRequest(_, _, _, _, _) => BindAccepted(env, claims, g, ctx, r);
    case ReplaceBindings(_, _, _, _) => ReplaceAccepted(env, claims, g, ctx, r);
    case CreateGroup(_, _) => CreateGroupAccepted(env, claims, g, ctx, r);
    case CreateService(proof, spec) => CreationAccepted(env, g, ctx, proof, spec);
    case _ => SecretAccepted(env, claims, g, ctx, r);
  }

  /** A draft is in conflict exactly when it is out of its window or is not the token of this graph. */
  lemma DraftConflictExactly(env: Env, g: Graph, ctx: Context, kind: Kind, target: string, draft: Draft)
    requires Tokenable(env, g)
    ensures DraftCheck(env, g, ctx, kind, target, draft) == Err(Conflict) <==>
            && ctx.authorized
            && (|| !(ctx.now < draft.expires <= ctx.now + 30_000_000_000)
                || draft.token != env.seal(kind, target, draft.expires, env.digest(g)))
  {}

  /** A replacement is in conflict exactly when everything but its revision is in order. */
  lemma RevisionConflictExactly(env: Env, g: Graph, ctx: Context, kind: Kind, target: string, binding: string,
                                policies: seq<string>)
    ensures ReplacePlan(env, g, ctx, kind, target, binding, policies) == Err(Conflict) <==>
            && ctx.authorized && NameList(policies) && Readable(env, g, kind, target)
            && Bindings(env, g, kind, target) != Ok(binding)
  {
    NameListExactly(policies);
    ReadableExactly(env, g, kind, target);
  }

  /** What is captured for the creation of a service account: the actor and the epoch, then a native user on which
      accounts can hang. */
  lemma CaptureExactly(env: Env, g: Graph, ctx: Context, actor: Credential, proof: Proof, parent: string)
    ensures CaptureService(g, ctx, actor).Ok? <==> ctx.authorized
    ensures ctx.authorized ==>
              var p := CaptureService(g, ctx, actor).value;
              && p.epoch == g.epoch % 0x1_0000_0000_0000_0000 && p.actorKey == actor.accessKey
              && p.actorSecret == actor.secretKey
    ensures CaptureParent(env, g, ctx, proof, parent).Ok? <==>
            && proof.epoch == g.epoch % 0x1_0000_0000_0000_0000 && parent in g.users && parent != env.root
            && Usable(g.users[parent], ctx.now) && Plain(g.users[parent]) && g.users[parent].parentUser == ""
    ensures CaptureParent(env, g, ctx, proof, parent).Ok? ==>
              CaptureParent(env, g, ctx, proof, parent).value
              == proof.(parent := parent, parentCredential := g.users[parent])
  {
    if parent in g.users { CredentialExactly(g.users[parent], ctx.now); }
  }

  // ---- What a revision proves ----

  /** The hash that makes a revision does not collide. */
  ghost predicate Revisions(env: Env) { forall a, b :: env.sealBinding(a) == env.sealBinding(b) ==> a == b }

  predicate SameRecord(g: Graph, g': Graph, group: string) {
    && (if group in g.groups then g.groups[group].status else "")
       == (if group in g'.groups then g'.groups[group].status else "")
    && multiset(if group in g.groups then g.groups[group].members else [])
       == multiset(if group in g'.groups then g'.groups[group].members else [])
    && multiset(if group in g.groupPolicies then g.groupPolicies[group] else [])
       == multiset(if group in g'.groupPolicies then g'.groupPolicies[group] else [])
  }

  /** The target has the same direct policies, and is the same: for a user, the credential, the memberships and the
      records of those groups; for a group, its record. */
  predicate SameBinding(g: Graph, g': Graph, kind: Kind, target: string) {
    match kind
    case UserKind =>
      && target in g.users && target in g'.users && g'.users[target] == g.users[target]
      && multiset(if target in g.userPolicies then g.userPolicies[target] else [])
         == multiset(if target in g'.userPolicies then g'.userPolicies[target] else [])
      && g'.Index(target) == g.Index(target) && forall n :: n in g.Index(target) ==> SameRecord(g, g', n)
    case GroupKind => target in g.groups && target in g'.groups && SameRecord(g, g', target)
    case ServiceKind => false
  }

  lemma RecordsEqualExactly(g: Graph, g': Graph, group: string)
    ensures BoundGroupOf(g, group) == BoundGroupOf(g', group) <==> SameRecord(g, g', group)
  {}

  lemma GroupViewsEqualExactly(g: Graph, g': Graph, names: set<string>)
    ensures GroupViews(g, names) == GroupViews(g', names) <==> forall n :: n in names ==> SameRecord(g, g', n)
  {
    forall n ensures BoundGroupOf(g, n) == BoundGroupOf(g', n) <==> SameRecord(g, g', n) {
      RecordsEqualExactly(g, g', n);
    }
    if GroupViews(g, names) == GroupViews(g', names) {
      forall n | n in names ensures SameRecord(g, g', n) { assert GroupViews(g, names)[n] == GroupViews(g', names)[n]; }
    }
  }

  lemma UserViewsEqualExactly(g: Graph, g': Graph, target: string)
    requires target in g.users && target in g'.users
    ensures UserView(g, target) == UserView(g', target) <==> SameBinding(g, g', UserKind, target)
  {
    if g'.Index(target) == g.Index(target) { GroupViewsEqualExactly(g, g', g.Index(target)); }
  }

  function ViewOf(g: Graph, kind: Kind, target: string): BindingView
    requires kind == UserKind ==> target in g.users
  {
    if kind == UserKind then UserView(g, target)
    else GroupBinding(target, multiset(PolicyList(g.groupPolicies, target)), BoundGroupOf(g, target))
  }

  lemma RevisionIs(env: Env, g: Graph, kind: Kind, target: string)
    requires Bindings(env, g, kind, target).Ok?
    ensures kind != ServiceKind && (if kind == UserKind then target in g.users else target in g.groups)
    ensures Bindings(env, g, kind, target) == Ok(env.sealBinding(ViewOf(g, kind, target)))
  {}

  lemma ViewsEqualExactly(g: Graph, g': Graph, kind: Kind, target: string, kind': Kind, target': string)
    requires kind != ServiceKind && kind' != ServiceKind
    requires if kind == UserKind then target in g.users else target in g.groups
    requires if kind' == UserKind then target' in g'.users else target' in g'.groups
    ensures ViewOf(g, kind, target) == ViewOf(g', kind', target') <==>
            kind == kind' && target == target' && SameBinding(g, g', kind, target)
  {
    if kind == kind' && target == target' {
      if kind == UserKind { UserViewsEqualExactly(g, g', target); } else { RecordsEqualExactly(g, g', target); }
    }
  }

  /** Two revisions are equal exactly for the same target with the same bindings. */
  lemma RevisionsEqualExactly(env: Env, g: Graph, g': Graph, kind: Kind, target: string, kind': Kind, target': string)
    requires Revisions(env) && Bindings(env, g, kind, target).Ok? && Bindings(env, g', kind', target').Ok?
    ensures Bindings(env, g, kind, target) == Bindings(env, g', kind', target') <==>
            kind == kind' && target == target' && SameBinding(g, g', kind, target)
  {
    RevisionIs(env, g, kind, target);
    RevisionIs(env, g', kind', target');
    ViewsEqualExactly(g, g', kind, target, kind', target');
  }

  /** Requests that carry a revision of their target's bindings. */
  predicate Revised(r: Request) { r.BindRequest? || r.ReplaceBindings? || r.UserSecretRequest? }

  function RevisedKind(r: Request): Kind
    requires Revised(r)
  {
    if r.UserSecretRequest? then UserKind else r.kind
  }

  /** Main result: in any interleaving, a request that carries a revision read in some state gets past its checks only
      where its target has the policies, credential, memberships and groups it had in that state. */
  lemma RevisionStillCurrent(v: Server, states: seq<State>, events: seq<Event>, i: nat, j: nat, kind: Kind,
                             target: string)
    requires Revisions(v.env) && Run(v, states, events) && i < |states| && j < |events|
    requires events[j].Native? && Revised(events[j].request)
    requires Bindings(v.env, states[i].mem, kind, target) == Ok(events[j].request.binding)
    ensures RevisedKind(events[j].request) == kind && events[j].request.target == target
    ensures SameBinding(states[i].mem, states[j].mem, kind, target)
  {
    var r, g := events[j].request, states[j].mem;
    assert Next(v, states[j], events[j], states[j + 1]);
    AcceptedExactly(v.env, v.claims, g, events[j].ctx, r);
    assert Bindings(v.env, g, RevisedKind(r), r.target) == Ok(r.binding);
    RevisionsEqualExactly(v.env, states[i].mem, g, kind, target, RevisedKind(r), r.target);
  }

  /** A user's own rotation gets past its checks only while the secret is the one the user named. */
  lemma SelfRotationNeedsSecret(v: Server, states: seq<State>, events: seq<Event>, j: nat)
    requires Run(v, states, events) && j < |events| && events[j].Native? && events[j].request.RotateSelf?
    ensures var r := events[j].request;
            r.target in states[j].mem.users && states[j].mem.users[r.target].secretKey == r.expected
  {
    assert Next(v, states[j], events[j], states[j + 1]);
    AcceptedExactly(v.env, v.claims, states[j].mem, events[j].ctx, events[j].request);
  }

  // ---- What refusals tell ----

  /** The error comes from signing a session policy or generating a credential. */
  predicate Foreign(r: Request, e: Error) {
    || (r.ServiceRequest? && r.serviceAction.RestrictService? && r.serviceAction.signed == Err(e))
    || (r.CreateService? && r.spec.minted == Err(e))
  }

  /** What an error says about the graph and the request. */
  ghost predicate Tells(g: Graph, ctx: Context, r: Request, e: Error) {
    match e
    case NoSuchUser =>
      || (!r.CreateService? && r.target !in g.users)
      || ((r.GroupRequest? || r.CreateGroup?) && exists m :: m in r.members && m !in g.users)
    case NoSuchGroup => !r.CreateService? && r.target !in g.groups
    case NoSuchPolicy => (r.BindRequest? || r.ReplaceBindings?) && exists p :: p in r.policies && p !in g.documents
    case GroupNotEmpty =>
      r.GroupRequest? && r.groupAction.DeleteGroup? && r.target in g.groups && g.groups[r.target].members != []
    case CreateExists =>
      || (r.CreateUser? && r.target in g.users) || (r.CreateGroup? && r.target in g.groups)
      || (r.CreateService? && (|| (r.spec.key != "" && r.spec.key in g.users)
                               || (r.spec.minted.Ok? && r.spec.minted.value.accessKey in g.users)))
    case SelfSecretConflict => r.RotateSelf? && r.target in g.users && g.users[r.target].secretKey != r.expected
    case Conflict => ctx.authorized && !r.CreateUser? && !r.CreateGroup? && !r.RotateSecret? && !r.RotateSelf?
    case StoreFailed => false
    case Committed => false
    case _ => true
  }

  lemma {:induction false} MembersTell(g: Graph, members: seq<string>)
    requires MembersCheck(g, members).Err?
    ensures MembersCheck(g, members).error in {NoSuchUser, ActionNotAllowed}
    ensures MembersCheck(g, members).error == NoSuchUser ==> exists m :: m in members && m !in g.users
  {
    if members[0] in g.users && g.users[members[0]].IsRegular() {
      MembersTell(g, members[1..]);
    } else {
      assert members[0] in members;
    }
  }

  lemma CanonicalMembersTell(g: Graph, members: seq<string>, names: seq<string>)
    requires CanonicalNames(members) == Ok(names) && MembersCheck(g, names).Err?
    ensures MembersCheck(g, names).error in {NoSuchUser, ActionNotAllowed}
    ensures MembersCheck(g, names).error == NoSuchUser ==> exists m :: m in members && m !in g.users
  {
    MembersTell(g, names);
    SortedMembers(members);
  }

  lemma DraftTells(env: Env, g: Graph, ctx: Context, kind: Kind, target: string, draft: Draft)
    requires DraftCheck(env, g, ctx, kind, target, draft).Err?
    ensures var e := DraftCheck(env, g, ctx, kind, target, draft).error;
            e == ActionNotAllowed || (e == Conflict && ctx.authorized)
  {}

  lemma ImpactTells(env: Env, g: Graph, kind: Kind, target: string)
    requires Impact(env, g, kind, target).Err?
    ensures var e := Impact(env, g, kind, target).error;
            || e == ActionNotAllowed || (e == NoSuchUser && kind != GroupKind && target !in g.users)
            || (e == NoSuchGroup && kind == GroupKind && target !in g.groups)
  {}

  lemma GroupTells(env: Env, claims: Credential -> bool, g: Graph, ctx: Context, r: Request)
    requires r.GroupRequest? && Plan(env, claims, g, ctx, r).Err?
    ensures Tells(g, ctx, r, Plan(env, claims, g, ctx, r).error)
  {
    var names := CanonicalNames(r.members);
    if DraftCheck(env, g, ctx, GroupKind, r.target, r.draft).Err? {
      DraftTells(env, g, ctx, GroupKind, r.target, r.draft);
    } else if Impact(env, g, GroupKind, r.target).Err? {
      ImpactTells(env, g, GroupKind, r.target);
    } else if names.Ok? && MembersCheck(g, names.value).Err? {
      CanonicalMembersTell(g, r.members, names.value);
    }
  }

  lemma NewGroupTells(env: Env, claims: Credential -> bool, g: Graph, ctx: Context, r: Request)
    requires r.CreateGroup? && Plan(env, claims, g, ctx, r).Err?
    ensures Tells(g, ctx, r, Plan(env, claims, g, ctx, r).error)
  {
    var names := CanonicalNames(r.members);
    if names.Ok? && MembersCheck(g, names.value).Err? { CanonicalMembersTell(g, r.members, names.value); }
  }

  /** What a failed binding says of its target and policies. */
  ghost predicate BindingTells(g: Graph, ctx: Context, kind: Kind, target: string, policies: seq<string>, e: Error) {
    || e == ActionNotAllowed || e == InvalidArgument || (e == Conflict && ctx.authorized)
    || (e == NoSuchUser && target !in g.users) || (e == NoSuchGroup && target !in g.groups)
    || (e == NoSuchPolicy && exists p :: p in policies && p !in g.documents)
  }

  lemma MappingTells(g: Graph, ctx: Context, kind: Kind, target: string, policies: seq<string>, names: seq<string>)
    requires kind != ServiceKind && CanonicalNames(policies) == Ok(names) && MappingStep(g, kind, target, names).Err?
    ensures BindingTells(g, ctx, kind, target, policies, MappingStep(g, kind, target, names).error)
  {
    SortedMembers(policies);
  }

  lemma RevisionTells(env: Env, g: Graph, ctx: Context, kind: Kind, target: string, policies: seq<string>)
    requires Bindings(env, g, kind, target).Err?
    ensures BindingTells(g, ctx, kind, target, policies, Bindings(env, g, kind, target).error)
  {}

  lemma ReplaceTells(env: Env, g: Graph, ctx: Context, kind: Kind, target: string, binding: string,
                     policies: seq<string>)
    requires ReplacePlan(env, g, ctx, kind, target, binding, policies).Err?
    ensures BindingTells(g, ctx, kind, target, policies,
                         ReplacePlan(env, g, ctx, kind, target, binding, policies).error)
  {
    var names, current := CanonicalNames(policies), Bindings(env, g, kind, target);
    if names.Ok? && ctx.authorized {
      if current.Err? {
        RevisionTells(env, g, ctx, kind, target, policies);
      } else if current.value == binding {
        MappingTells(g, ctx, kind, target, policies, names.value);
      }
    }
  }

  lemma BindTells(env: Env, g: Graph, ctx: Context, kind: Kind, target: string, binding: string, policies: seq<string>,
                  draft: Draft)
    requires BindPlan(env, g, ctx, kind, target, binding, policies, draft).Err?
    ensures BindingTells(g, ctx, kind, target, policies,
                         BindPlan(env, g, ctx, kind, target, binding, policies, draft).error)
  {
    var names, current := CanonicalNames(policies), Bindings(env, g, kind, target);
    if names.Ok? {
      if DraftCheck(env, g, ctx, kind, target, draft).Err? {
        DraftTells(env, g, ctx, kind, target, draft);
      } else if current.Err? {
        RevisionTells(env, g, ctx, kind, target, policies);
      } else if current.value == binding {
        if Impact(env, g, kind, target).Err? {
          ImpactTells(env, g, kind, target);
        } else {
          MappingTells(g, ctx, kind, target, policies, names.value);
        }
      }
    }
  }

  lemma OthersTell(env: Env, claims: Credential -> bool, g: Graph, ctx: Context, r: Request)
    requires !r.GroupRequest? && !r.CreateGroup? && !r.BindRequest? && !r.ReplaceBindings?
    requires Plan(env, claims, g, ctx, r).Err? && !Foreign(r, Plan(env, claims, g, ctx, r).error)
    ensures Tells(g, ctx, r, Plan(env, claims, g, ctx, r).error)
  {}

  /** Main result: a refusal tells the truth. What it says is missing is missing, what it says exists exists, and no
      check is ever reported as a failure of the store. */
  lemma ErrorsTell(env: Env, claims: Credential -> bool, g: Graph, ctx: Context, r: Request)
    requires Plan(env, claims, g, ctx, r).Err? && !Foreign(r, Plan(env, claims, g, ctx, r).error)
    ensures Tells(g, ctx, r, Plan(env, claims, g, ctx, r).error)
  {
    if r.GroupRequest? {
      GroupTells(env, claims, g, ctx, r);
    } else if r.CreateGroup? {
      NewGroupTells(env, claims, g, ctx, r);
    } else if r.BindRequest? {
      BindTells(env, g, ctx, r.kind, r.target, r.binding, r.policies, r.draft);
    } else if r.ReplaceBindings? {
      ReplaceTells(env, g, ctx, r.kind, r.target, r.binding, r.policies);
    } else {
      OthersTell(env, claims, g, ctx, r);
    }
  }

  /** A caller whose permission has gone learns nothing about the graph: the answer is the same refusal whatever it
      holds. Users changing their own secret are told about themselves. */
  lemma UnauthorizedLearnNothing(env: Env, claims: Credential -> bool, g: Graph, g': Graph, ctx: Context, r: Request)
    requires !ctx.authorized && !r.RotateSelf?
    ensures Plan(env, claims, g, ctx, r).Err? && Plan(env, claims, g', ctx, r) == Plan(env, claims, g, ctx, r)
  {}

  // ---- What evaluation grants ----

  predicate GroupGrants(g: Graph, n: string, p: string) {
    n in g.groups && g.groups[n].status != "disabled" && n in g.groupPolicies && p in g.groupPolicies[n]
  }

  /** A name is granted a policy by its own mapping, else by its parent's, or by an enabled group of the index. */
  lemma GrantedExactly(g: Graph, name: string, p: string)
    requires name in g.users
    ensures p in Granted(g, name) <==>
            || (name in g.userPolicies && p in g.userPolicies[name])
            || (name !in g.userPolicies && g.users[name].parentUser != "" && g.users[name].parentUser in g.userPolicies
                && p in g.userPolicies[g.users[name].parentUser])
            || exists n :: n in g.Index(name) && GroupGrants(g, n, p)
  {
    var names := g.Index(name);
    if p in GroupPolicySet(g, names) {
      var n :| && n in names && n in g.groups && g.groups[n].status != STATUS_DISABLED
               && p in PolicySet(g.groupPolicies, n);
      assert GroupGrants(g, n, p);
    }
    if n :| n in names && GroupGrants(g, n, p) { assert p in PolicySet(g.groupPolicies, n); }
  }

  /** Only a usable credential is granted anything. */
  lemma PolicyGetExactly(g: Graph, now: int, name: string)
    ensures PolicyGet(g, now, name).Ok? <==> name in g.users
    ensures name in g.users ==>
              PolicyGet(g, now, name).value == if Usable(g.users[name], now) then Granted(g, name) else {}
  {
    if name in g.users { CredentialExactly(g.users[name], now); }
  }

  // ---- Lengths in bytes ----

  lemma {:induction false} Utf8LenJoins(a: string, b: string)
    ensures Utf8Len(a + b) == Utf8Len(a) + Utf8Len(b)
  {
    if a == "" {
      assert a + b == b;
    } else {
      assert (a + b)[1..] == a[1..] + b;
      Utf8LenJoins(a[1..], b);
    }
  }

  lemma Utf8LenOne(c: char)
    ensures Utf8Len([c])
            == if c as int <= 0x7f then 1 else if c as int <= 0x7ff then 2 else if c as int <= 0xffff then 3 else 4
  {
    assert [c][1..] == "";
  }
}
