/**
 When two committed requests in a row bring an earlier fingerprint back, and with it the drafts issued for it.
 */
module IamReturns {
  import opened Lex
  import opened IamGraph
  import opened IamPlans
  import opened IamRequests
  import opened IamSafety
  import opened IamLinks
  import opened IamEffects
  import opened IamRuns
  import opened IamTokens
  import opened IamChanges

  // ---- The part of the fingerprint a request may change ----

  /** Requests that do not move the identity epoch. */
  predicate EpochFree(r: Request) {
    match r
    case GroupRequest(action, _, _, _) => !action.DeleteGroup?
    case ServiceRequest(action, _, _) => !action.DeleteService?
    case BindRequest(_, _, _, _, _) => true
    case ReplaceBindings(_, _, _, _) => true
    case RotateSelf(_, _, _) => true
    case CreateService(_, spec) => spec.minted.Ok?
    case _ => false
  }

  datatype Cell = UserCell(name: string) | GroupCell(name: string) | UserMap(name: string) | GroupMap(name: string) {
    function Users(): set<string> { if UserCell? then {name} else {} }
    function Groups(): set<string> { if GroupCell? then {name} else {} }
    function UserMaps(): set<string> { if UserMap? then {name} else {} }
    function GroupMaps(): set<string> { if GroupMap? then {name} else {} }
  }

  function CellOf(r: Request): Cell
    requires EpochFree(r)
  {
    match r
    case GroupRequest(_, target, _, _) => GroupCell(target)
    case ServiceRequest(_, target, _) => UserCell(target)
    case RotateSelf(target, _, _) => UserCell(target)
    case CreateService(_, spec) => UserCell(spec.minted.value.accessKey)
    case BindRequest(kind, target, _, _, _) => if kind == UserKind then UserMap(target) else GroupMap(target)
    case ReplaceBindings(kind, target, _, _) => if kind == UserKind then UserMap(target) else GroupMap(target)
  }

  /** A group edit changes what the index says of its group, and may add entries; it never drops one. */
  ghost predicate IndexConfined(m: map<string, set<string>>, m': map<string, set<string>>, cell: Cell) {
    if cell.GroupCell? then
      m.Keys <= m'.Keys && forall u :: GroupsOf(m', u) - {cell.name} == GroupsOf(m, u) - {cell.name}
    else m' == m
  }

  ghost predicate Confined(f: Fingerprint, f': Fingerprint, cell: Cell) {
    && f'.epoch == f.epoch && f'.documents == f.documents
    && f'.users - cell.Users() == f.users - cell.Users()
    && f'.groups - cell.Groups() == f.groups - cell.Groups()
    && f'.userPolicies - cell.UserMaps() == f.userPolicies - cell.UserMaps()
    && f'.groupPolicies - cell.GroupMaps() == f.groupPolicies - cell.GroupMaps()
    && IndexConfined(f.memberships, f'.memberships, cell)
  }

  lemma MapsApart<T>(m: map<string, T>, m1: map<string, T>, a: set<string>, b: set<string>)
    requires m1 - a == m - a && m - b == m1 - b && a !! b
    ensures m1 == m
  {
    forall k ensures k in m1 <==> k in m {
      if k in a { assert k in m - b <==> k in m1 - b; } else { assert k in m1 - a <==> k in m - a; }
    }
    forall k | k in m ensures m1[k] == m[k] {
      if k in a { assert (m - b)[k] == (m1 - b)[k]; } else { assert (m1 - a)[k] == (m - a)[k]; }
    }
  }

  lemma IndexesApart(m: map<string, set<string>>, m1: map<string, set<string>>, a: Cell, b: Cell)
    requires IndexConfined(m, m1, a) && IndexConfined(m1, m, b) && a != b
    ensures m1 == m
  {
    if a.GroupCell? && b.GroupCell? {
      forall u | u in m ensures m1[u] == m[u] {
        assert GroupsOf(m1, u) - {a.name} == GroupsOf(m, u) - {a.name};
        assert GroupsOf(m, u) - {b.name} == GroupsOf(m1, u) - {b.name};
        forall n ensures n in m1[u] <==> n in m[u] {
          if n == a.name { assert n in GroupsOf(m, u) - {b.name} <==> n in GroupsOf(m1, u) - {b.name}; }
          else { assert n in GroupsOf(m1, u) - {a.name} <==> n in GroupsOf(m, u) - {a.name}; }
        }
      }
    }
  }

  /** What happens to one cell cannot be undone from another. */
  lemma CellsApart(f: Fingerprint, f1: Fingerprint, a: Cell, b: Cell)
    requires Confined(f, f1, a) && Confined(f1, f, b) && a != b
    ensures f1 == f
  {
    MapsApart(f.users, f1.users, a.Users(), b.Users());
    MapsApart(f.groups, f1.groups, a.Groups(), b.Groups());
    MapsApart(f.userPolicies, f1.userPolicies, a.UserMaps(), b.UserMaps());
    MapsApart(f.groupPolicies, f1.groupPolicies, a.GroupMaps(), b.GroupMaps());
    IndexesApart(f.memberships, f1.memberships, a, b);
  }

  // ---- Each request stays in its cell ----

  lemma CredentialConfined(g: Graph, g': Graph, key: string, c: Credential)
    requires CredentialSet(g, g', key, c) && g'.epoch == g.epoch
    ensures Confined(Canonical(g), Canonical(g'), UserCell(key))
  {
    var x, y := PrintedUsers(g.users), PrintedUsers(g'.users);
    assert y - {key} == x - {key};
  }

  lemma RejoinedConfined(m: map<string, set<string>>, group: string, joins: set<string>, leaves: set<string>)
    ensures IndexConfined(m, Rejoined(m, group, joins, leaves), GroupCell(group))
  {
    var m' := Rejoined(m, group, joins, leaves);
    forall u ensures GroupsOf(m', u) - {group} == GroupsOf(m, u) - {group} {}
  }

  lemma PrintedGroupsElsewhere(groups: map<string, GroupInfo>, group: string, info: GroupInfo)
    ensures PrintedGroups(groups[group := info]) - {group} == PrintedGroups(groups) - {group}
  {
    var x, y := PrintedGroups(groups) - {group}, PrintedGroups(groups[group := info]) - {group};
    assert x.Keys == y.Keys;
  }

  lemma GroupConfined(g: Graph, g': Graph, group: string, info: GroupInfo, joins: set<string>, leaves: set<string>)
    requires g' == g.(groups := g.groups[group := info], memberships := Rejoined(g.memberships, group, joins, leaves))
    ensures Confined(Canonical(g), Canonical(g'), GroupCell(group))
  {
    PrintedGroupsElsewhere(g.groups, group, info);
    RejoinedConfined(g.memberships, group, joins, leaves);
  }

  lemma MappingConfined(g: Graph, g': Graph, kind: Kind, target: string, names: seq<string>)
    requires kind == UserKind ==> g' == g.(userPolicies := Remapped(g.userPolicies, target, names))
    requires kind != UserKind ==> g' == g.(groupPolicies := Remapped(g.groupPolicies, target, names))
    ensures Confined(Canonical(g), Canonical(g'), if kind == UserKind then UserMap(target) else GroupMap(target))
  {
    if kind == UserKind { PrintedElsewhere(g.userPolicies, target, names); }
    else { PrintedElsewhere(g.groupPolicies, target, names); }
  }

  lemma PrintedElsewhere(m: map<string, Policies>, target: string, names: seq<string>)
    ensures PrintedMappings(Remapped(m, target, names)) - {target} == PrintedMappings(m) - {target}
  {
    var x, y := PrintedMappings(m) - {target}, PrintedMappings(Remapped(m, target, names)) - {target};
    assert x.Keys == y.Keys;
  }

  lemma MappingDone(s: State, kind: Kind, target: string, names: seq<string>)
    requires kind != ServiceKind && MappingStep(s.mem, kind, target, names).Ok?
    ensures var g' := ApplyAll(s, MappingStep(s.mem, kind, target, names).value).mem;
            && (kind == UserKind ==> g' == s.mem.(userPolicies := Remapped(s.mem.userPolicies, target, names)))
            && (kind != UserKind ==> g' == s.mem.(groupPolicies := Remapped(s.mem.groupPolicies, target, names)))
  {
    OneStep(s, MappingStep(s.mem, kind, target, names).value[0]);
  }

  /** The graph behind a committed request. */
  ghost function AfterCommit(v: Server, s: State, ctx: Context, r: Request): State
    requires Plan(v.env, v.claims, s.mem, ctx, r).Ok?
  {
    ApplyAll(s, Plan(v.env, v.claims, s.mem, ctx, r).value)
  }

  lemma GroupDone(v: Server, s: State, ctx: Context, r: Request)
    requires r.GroupRequest? && EpochFree(r) && Plan(v.env, v.claims, s.mem, ctx, r).Ok?
    ensures r.target in s.mem.groups && CanonicalNames(r.members).Ok?
    ensures r.groupAction.EnableGroup? || r.groupAction.DisableGroup? ==> r.members == []
    ensures AfterCommit(v, s, ctx, r)
         == Apply(s, GroupEdit(s.mem.groups[r.target], r.groupAction, r.target, CanonicalNames(r.members).value))
  {
    GroupPlanIs(v.env, s.mem, ctx, r.groupAction, r.target, r.members, r.draft);
    OneStep(s, GroupEdit(s.mem.groups[r.target], r.groupAction, r.target, CanonicalNames(r.members).value));
  }

  lemma GroupStays(v: Server, s: State, ctx: Context, r: Request)
    requires r.GroupRequest? && EpochFree(r) && Plan(v.env, v.claims, s.mem, ctx, r).Ok?
    ensures Confined(Canonical(s.mem), Canonical(AfterCommit(v, s, ctx, r).mem), CellOf(r))
  {
    GroupDone(v, s, ctx, r);
    var names := CanonicalNames(r.members).value;
    var step := GroupEdit(s.mem.groups[r.target], r.groupAction, r.target, names);
    EditedGraph(s, r.groupAction, r.target, names);
    GroupConfined(s.mem, Apply(s, step).mem, r.target, step.info, step.joins, step.leaves);
  }

  lemma BindingStays(v: Server, s: State, ctx: Context, r: Request)
    requires (r.BindRequest? || r.ReplaceBindings?) && Plan(v.env, v.claims, s.mem, ctx, r).Ok?
    ensures Confined(Canonical(s.mem), Canonical(AfterCommit(v, s, ctx, r).mem), CellOf(r))
  {
    BindingPlanIs(v.env, v.claims, s.mem, ctx, r);
    var names := CanonicalNames(r.policies).value;
    MappingDone(s, r.kind, r.target, names);
    MappingConfined(s.mem, AfterCommit(v, s, ctx, r).mem, r.kind, r.target, names);
  }

  // ---- One credential ----

  datatype Field = StatusField | SecretField | TokenField

  function Read(c: Credential, f: Field): string {
    match f
    case StatusField => c.status
    case SecretField => c.secretKey
    case TokenField => c.sessionToken
  }

  function Written(c: Credential, f: Field, value: string): Credential {
    match f
    case StatusField => c.(status := value)
    case SecretField => c.(secretKey := value)
    case TokenField => c.(sessionToken := value)
  }

  /** Requests that set one field of an existing credential. */
  predicate SetsField(r: Request) {
    || r.RotateSelf?
    || (r.ServiceRequest? && !r.serviceAction.DeleteService?
       && (r.serviceAction.RestrictService? ==> r.serviceAction.signed.Ok?))
  }

  function FieldOf(r: Request): Field
    requires SetsField(r)
  {
    if r.RotateSelf? then SecretField
    else match r.serviceAction
      case RotateService(_) => SecretField
      case RestrictService(_) => TokenField
      case _ => StatusField
  }

  function ValueOf(r: Request): string
    requires SetsField(r)
  {
    if r.RotateSelf? then r.secret
    else match r.serviceAction
      case EnableService => ACCOUNT_ON
      case DisableService => ACCOUNT_OFF
      case RotateService(secret) => secret
      case RestrictService(signed) => signed.value
      case DeleteService => ""
  }

  lemma FieldSet(v: Server, s: State, ctx: Context, r: Request)
    requires (r.RotateSelf? || (r.ServiceRequest? && EpochFree(r))) && Plan(v.env, v.claims, s.mem, ctx, r).Ok?
    ensures SetsField(r) && r.target in s.mem.users
    ensures CredentialSet(s.mem, AfterCommit(v, s, ctx, r).mem, r.target,
                          Written(s.mem.users[r.target], FieldOf(r), ValueOf(r)))
    ensures AfterCommit(v, s, ctx, r).mem.epoch == s.mem.epoch
  {
    if r.RotateSelf? {
      SecretCommitted(v.env, v.claims, s, ctx, r);
    } else {
      ServiceCommitted(v.env, v.claims, s, ctx, r.serviceAction, r.target, r.draft);
    }
  }

  lemma CreatedSet(v: Server, s: State, ctx: Context, r: Request)
    requires r.CreateService? && Plan(v.env, v.claims, s.mem, ctx, r).Ok?
    ensures EpochFree(r) && r.spec.minted.value.accessKey !in s.mem.users
    ensures AfterCommit(v, s, ctx, r).mem.epoch == s.mem.epoch
    ensures exists c :: CredentialSet(s.mem, AfterCommit(v, s, ctx, r).mem, r.spec.minted.value.accessKey, c)
  {
    ServiceCreated(v.env, s, ctx, r.proof, r.spec);
    var minted := r.spec.minted.value;
    assert CredentialSet(s.mem, AfterCommit(v, s, ctx, r).mem, minted.accessKey,
                         Credential(minted.accessKey, minted.secretKey, 0, minted.sessionToken, ACCOUNT_ON,
                                    r.proof.parent,
                                    r.spec.groups));
  }

  lemma CredentialStays(v: Server, s: State, ctx: Context, r: Request)
    requires r.ServiceRequest? || r.RotateSelf? || r.CreateService?
    requires EpochFree(r) && Plan(v.env, v.claims, s.mem, ctx, r).Ok?
    ensures Confined(Canonical(s.mem), Canonical(AfterCommit(v, s, ctx, r).mem), CellOf(r))
  {
    var g' := AfterCommit(v, s, ctx, r).mem;
    if r.CreateService? {
      CreatedSet(v, s, ctx, r);
      var key := r.spec.minted.value.accessKey;
      var c :| CredentialSet(s.mem, g', key, c);
      CredentialConfined(s.mem, g', key, c);
    } else {
      FieldSet(v, s, ctx, r);
      CredentialConfined(s.mem, g', r.target, Written(s.mem.users[r.target], FieldOf(r), ValueOf(r)));
    }
  }

  lemma StaysInCell(v: Server, s: State, ctx: Context, r: Request)
    requires EpochFree(r) && Plan(v.env, v.claims, s.mem, ctx, r).Ok?
    ensures Confined(Canonical(s.mem), Canonical(AfterCommit(v, s, ctx, r).mem), CellOf(r))
  {
    match r
    case GroupRequest(_, _, _, _) => GroupStays(v, s, ctx, r);
    case BindRequest(_, _, _, _, _) => BindingStays(v, s, ctx, r);
    case ReplaceBindings(_, _, _, _) => BindingStays(v, s, ctx, r);
    case _ => CredentialStays(v, s, ctx, r);
  }

  // ---- Two requests on one cell ----

  /** The last value of each written field is the value it had. */
  ghost predicate FieldsReturn(c: Credential, f: Field, x: string, f': Field, y: string) {
    y == Read(c, f') && (f != f' ==> x == Read(c, f))
  }

  lemma WrittenTwice(c: Credential, f: Field, x: string, f': Field, y: string)
    ensures Written(Written(c, f, x), f', y) == c <==> FieldsReturn(c, f, x, f', y)
  {}

  /** Whether a member is in, after an edit that names some. */
  function BitAfter(action: GroupAction, members: seq<string>, u: string, bit: bool): bool {
    if u in members then action.AddMembers? else bit
  }

  function StatusAfter(action: GroupAction, status: string): string {
    if action.EnableGroup? then STATUS_ENABLED else if action.DisableGroup? then STATUS_DISABLED else status
  }

  /** Every named member ends as they were, in the list and in an index entry that was there before; so does the
      status; and the list had no repetitions to lose. */
  ghost predicate GroupReturns(g: Graph, target: string, a: GroupAction, ms: seq<string>, b: GroupAction,
                               ns: seq<string>) {
    && target in g.groups && Distinct(g.groups[target].members)
    && StatusAfter(b, StatusAfter(a, g.groups[target].status)) == g.groups[target].status
    && forall u :: u in ms || u in ns ==>
        && u in g.memberships
        && BitAfter(b, ns, u, BitAfter(a, ms, u, g.Listed(u, target))) == g.Listed(u, target)
        && BitAfter(b, ns, u, BitAfter(a, ms, u, target in g.memberships[u])) == (target in g.memberships[u])
  }

  /** What two requests on one cell leave in it is what was there. */
  ghost predicate CellReturns(g: Graph, r: Request, r': Request) {
    match r'
    case GroupRequest(action, target, members, _) =>
      r.GroupRequest? && GroupReturns(g, target, r.groupAction, r.members, action, members)
    case BindRequest(kind, target, _, policies, _) =>
      SameMapping(if kind == UserKind then g.userPolicies else g.groupPolicies, target, policies)
    case ReplaceBindings(kind, target, _, policies) =>
      SameMapping(if kind == UserKind then g.userPolicies else g.groupPolicies, target, policies)
    case _ =>
      && SetsField(r) && SetsField(r') && r.target in g.users
      && FieldsReturn(g.users[r.target], FieldOf(r), ValueOf(r), FieldOf(r'), ValueOf(r'))
  }

  lemma TwoFields(g: Graph, g1: Graph, g2: Graph, key: string, f: Field, x: string, f': Field, y: string)
    requires key in g.users && CredentialSet(g, g1, key, Written(g.users[key], f, x)) && g1.epoch == g.epoch
    requires CredentialSet(g1, g2, key, Written(g1.users[key], f', y)) && g2.epoch == g1.epoch
    ensures Canonical(g2) == Canonical(g) <==> FieldsReturn(g.users[key], f, x, f', y)
  {
    var c := g.users[key];
    WrittenTwice(c, f, x, f', y);
    CredentialShows(g, g2, key, Written(Written(c, f, x), f', y));
  }

  lemma FieldsReturnExactly(v: Server, s: State, ctx: Context, r: Request, ctx': Context, r': Request)
    requires (r.RotateSelf? || (r.ServiceRequest? && EpochFree(r)))
             && (r'.RotateSelf? || (r'.ServiceRequest? && EpochFree(r')))
    requires r.target == r'.target && Plan(v.env, v.claims, s.mem, ctx, r).Ok?
    requires Plan(v.env, v.claims, AfterCommit(v, s, ctx, r).mem, ctx', r').Ok?
    ensures var s' := AfterCommit(v, AfterCommit(v, s, ctx, r), ctx', r');
            Canonical(s'.mem) == Canonical(s.mem) <==> CellReturns(s.mem, r, r')
  {
    var s1 := AfterCommit(v, s, ctx, r);
    FieldSet(v, s, ctx, r);
    FieldSet(v, s1, ctx', r');
    TwoFields(s.mem, s1.mem, AfterCommit(v, s1, ctx', r').mem, r.target, FieldOf(r), ValueOf(r), FieldOf(r'),
              ValueOf(r'));
  }

  /** A new account does not go away without a move of the epoch. */
  lemma CreationStays(v: Server, s: State, ctx: Context, r: Request, ctx': Context, r': Request)
    requires EpochFree(r) && EpochFree(r') && CellOf(r) == CellOf(r') && CellOf(r).UserCell?
    requires r.CreateService? || r'.CreateService?
    requires Plan(v.env, v.claims, s.mem, ctx, r).Ok?
    requires Plan(v.env, v.claims, AfterCommit(v, s, ctx, r).mem, ctx', r').Ok?
    ensures Canonical(AfterCommit(v, AfterCommit(v, s, ctx, r), ctx', r').mem) != Canonical(s.mem)
  {
    var s1, key := AfterCommit(v, s, ctx, r), CellOf(r).name;
    KeptKeys(v, s, ctx, r, key);
    KeptKeys(v, s1, ctx', r', key);
    if r.CreateService? { CreatedSet(v, s, ctx, r); } else { CreatedSet(v, s1, ctx', r'); }
    UserShows(s.mem, AfterCommit(v, s1, ctx', r').mem, key);
  }

  /** The credentials that were there stay, and the one the request is about is there. */
  lemma KeptKeys(v: Server, s: State, ctx: Context, r: Request, key: string)
    requires r.ServiceRequest? || r.RotateSelf? || r.CreateService?
    requires EpochFree(r) && Plan(v.env, v.claims, s.mem, ctx, r).Ok?
    ensures key in s.mem.users || key == CellOf(r).name ==> key in AfterCommit(v, s, ctx, r).mem.users
  {
    if r.CreateService? { CreatedSet(v, s, ctx, r); } else { FieldSet(v, s, ctx, r); }
  }

  lemma RemappedTwice(m: map<string, Policies>, target: string, x: seq<string>, y: seq<string>)
    ensures Remapped(Remapped(m, target, x), target, y) == Remapped(m, target, y)
  {}

  lemma BindingReturns(v: Server, s: State, ctx: Context, r: Request, ctx': Context, r': Request)
    requires (r.BindRequest? || r.ReplaceBindings?) && (r'.BindRequest? || r'.ReplaceBindings?)
             && CellOf(r) == CellOf(r')
    requires Plan(v.env, v.claims, s.mem, ctx, r).Ok?
    requires Plan(v.env, v.claims, AfterCommit(v, s, ctx, r).mem, ctx', r').Ok?
    ensures var s' := AfterCommit(v, AfterCommit(v, s, ctx, r), ctx', r');
            Canonical(s'.mem) == Canonical(s.mem) <==> CellReturns(s.mem, r, r')
  {
    var s1 := AfterCommit(v, s, ctx, r);
    BindingPlanIs(v.env, v.claims, s.mem, ctx, r);
    BindingPlanIs(v.env, v.claims, s1.mem, ctx', r');
    CanonicalNamesAccepts(r'.policies);
    NoNames(r'.policies);
    var x, y := CanonicalNames(r.policies).value, CanonicalNames(r'.policies).value;
    MappingDone(s, r.kind, r.target, x);
    MappingDone(s1, r'.kind, r'.target, y);
    RemappedReturns(s.mem, s1.mem, AfterCommit(v, s1, ctx', r').mem, r.kind, r.target, x, y);
  }

  lemma RemappedReturns(g: Graph, g1: Graph, g2: Graph, kind: Kind, target: string, x: seq<string>, y: seq<string>)
    requires kind == UserKind ==> g1 == g.(userPolicies := Remapped(g.userPolicies, target, x))
                                  && g2 == g1.(userPolicies := Remapped(g1.userPolicies, target, y))
    requires kind != UserKind ==> g1 == g.(groupPolicies := Remapped(g.groupPolicies, target, x))
                                  && g2 == g1.(groupPolicies := Remapped(g1.groupPolicies, target, y))
    ensures var m := if kind == UserKind then g.userPolicies else g.groupPolicies;
            Canonical(g2) == Canonical(g) <==>
            if y == [] then target !in m else target in m && Joined(m[target]) == Joined(y)
  {
    if kind == UserKind {
      RemappedTwice(g.userPolicies, target, x, y);
      MappingsShow(g, Remapped(g.userPolicies, target, y), g.groupPolicies);
      MappingTextShows(g.userPolicies, target, y);
    } else {
      RemappedTwice(g.groupPolicies, target, x, y);
      MappingsShow(g, g.userPolicies, Remapped(g.groupPolicies, target, y));
      MappingTextShows(g.groupPolicies, target, y);
    }
  }

  // ---- Two edits of one group ----

  function Bit(joins: set<string>, leaves: set<string>, u: string, bit: bool): bool {
    if u in joins then true else if u in leaves then false else bit
  }

  lemma RejoinedBit(index: map<string, set<string>>, group: string, joins: set<string>, leaves: set<string>, u: string)
    ensures var after := Rejoined(index, group, joins, leaves);
            && (u in after <==> u in index || u in joins || u in leaves)
            && (group in GroupsOf(after, u) <==> Bit(joins, leaves, u, group in GroupsOf(index, u)))
            && GroupsOf(after, u) - {group} == GroupsOf(index, u) - {group}
  {}

  lemma RejoinedTwice(index: map<string, set<string>>, group: string, j: set<string>, l: set<string>, j': set<string>,
                      l': set<string>)
    ensures Rejoined(Rejoined(index, group, j, l), group, j', l') == index <==>
            forall u :: u in j + l + j' + l' ==>
              u in index && Bit(j', l', u, Bit(j, l, u, group in index[u])) == (group in index[u])
  {
    var m1 := Rejoined(index, group, j, l);
    var m2 := Rejoined(m1, group, j', l');
    forall u ensures (u in m2 <==> u in index || u in j + l + j' + l')
                     && GroupsOf(m2, u) - {group} == GroupsOf(index, u) - {group}
                     && (group in GroupsOf(m2, u) <==> Bit(j', l', u, Bit(j, l, u, group in GroupsOf(index, u))))
    {
      RejoinedBit(index, group, j, l, u);
      RejoinedBit(m1, group, j', l', u);
    }
    SameIndex(index, m2, group);
    if forall u :: u in j + l + j' + l' ==>
              u in index && Bit(j', l', u, Bit(j, l, u, group in index[u])) == (group in index[u]) {
      forall u ensures (u in m2 <==> u in index) && (group in GroupsOf(m2, u) <==> group in GroupsOf(index, u)) {}
    }
  }

  lemma SameIndex(m: map<string, set<string>>, m': map<string, set<string>>, group: string)
    requires forall u :: GroupsOf(m', u) - {group} == GroupsOf(m, u) - {group}
    ensures m' == m <==> forall u :: (u in m' <==> u in m) && (group in GroupsOf(m', u) <==> group in GroupsOf(m, u))
  {
    if forall u :: (u in m' <==> u in m) && (group in GroupsOf(m', u) <==> group in GroupsOf(m, u)) {
      assert m'.Keys == m.Keys;
      forall u | u in m ensures m'[u] == m[u] {
        assert GroupsOf(m', u) - {group} == GroupsOf(m, u) - {group};
        forall n ensures n in m'[u] <==> n in m[u] {
          if n != group { assert n in GroupsOf(m', u) - {group} <==> n in GroupsOf(m, u) - {group}; }
        }
      }
    }
  }

  ghost function MembersAfter(action: GroupAction, now: set<string>, asked: set<string>): set<string> {
    if action.AddMembers? then now + asked else if action.RemoveMembers? then now - asked else now
  }

  lemma EditIs(info: GroupInfo, action: GroupAction, target: string, names: seq<string>)
    requires !action.DeleteGroup? && (action.EnableGroup? || action.DisableGroup? ==> names == [])
    ensures var step := GroupEdit(info, action, target, names);
            var now, asked := (set m | m in info.members), (set m | m in names);
            && step.info == GroupInfo(StatusAfter(action, info.status), SortedOf(MembersAfter(action, now, asked)))
            && step.joins == (if action.AddMembers? then asked else {})
            && step.leaves == (if action.AddMembers? then {} else asked)
  {}

  /** Two edits of one group, seen from the first graph. */
  lemma EditTwice(s: State, target: string, a: GroupAction, ms: seq<string>, b: GroupAction, ns: seq<string>)
    requires target in s.mem.groups && !a.DeleteGroup? && !b.DeleteGroup?
    requires (a.EnableGroup? || a.DisableGroup? ==> ms == []) && (b.EnableGroup? || b.DisableGroup? ==> ns == [])
    ensures var s1 := Apply(s, GroupEdit(s.mem.groups[target], a, target, ms));
            target in s1.mem.groups &&
            var g2 := Apply(s1, GroupEdit(s1.mem.groups[target], b, target, ns)).mem;
            var info, x, y := s.mem.groups[target], (set m | m in ms), (set m | m in ns);
            && g2 == s.mem.(groups := s.mem.groups[target := g2.groups[target]], memberships := g2.memberships)
            && g2.groups[target] == GroupInfo(StatusAfter(b, StatusAfter(a, info.status)),
                 SortedOf(MembersAfter(b, MembersAfter(a, (set m | m in info.members), x), y)))
            && g2.memberships
               == Rejoined(Rejoined(s.mem.memberships, target, if a.AddMembers? then x else {},
                                    if a.AddMembers? then {} else x),
                           target, if b.AddMembers? then y else {}, if b.AddMembers? then {} else y)
  {
    EditIs(s.mem.groups[target], a, target, ms);
    EditedGraph(s, a, target, ms);
    var s1 := Apply(s, GroupEdit(s.mem.groups[target], a, target, ms));
    EditIs(s1.mem.groups[target], b, target, ns);
    EditedGraph(s1, b, target, ns);
    var now := MembersAfter(a, (set m | m in s.mem.groups[target].members), (set m | m in ms));
    assert (set m | m in SortedOf(now)) == now;
  }

  /** The list returns exactly when each named member does. */
  lemma MembersReturn(members: seq<string>, a: GroupAction, ms: seq<string>, b: GroupAction, ns: seq<string>)
    requires !a.DeleteGroup? && !b.DeleteGroup?
    requires (a.EnableGroup? || a.DisableGroup? ==> ms == []) && (b.EnableGroup? || b.DisableGroup? ==> ns == [])
    ensures MembersAfter(b, MembersAfter(a, (set m | m in members), (set m | m in ms)), (set m | m in ns))
            == (set m | m in members)
       <==> forall u :: u in ms || u in ns ==> BitAfter(b, ns, u, BitAfter(a, ms, u, u in members)) == (u in members)
  {
    var now := set m | m in members;
    var after := MembersAfter(b, MembersAfter(a, now, (set m | m in ms)), (set m | m in ns));
    forall u ensures u in after <==> BitAfter(b, ns, u, BitAfter(a, ms, u, u in members)) {}
    if forall u :: u in ms || u in ns ==> BitAfter(b, ns, u, BitAfter(a, ms, u, u in members)) == (u in members) {
      forall u ensures u in after <==> u in now {}
    }
    if after == now {
      forall u ensures BitAfter(b, ns, u, BitAfter(a, ms, u, u in members)) == (u in members) {
        assert u in after <==> u in now;
      }
    }
  }

  lemma IndexReturns(index: map<string, set<string>>, target: string, a: GroupAction, ms: seq<string>, b: GroupAction,
                     ns: seq<string>)
    ensures var x, y := (set m | m in ms), (set m | m in ns);
            Rejoined(Rejoined(index, target, if a.AddMembers? then x else {}, if a.AddMembers? then {} else x),
                     target, if b.AddMembers? then y else {}, if b.AddMembers? then {} else y) == index <==>
            forall u :: u in ms || u in ns ==>
              u in index && BitAfter(b, ns, u, BitAfter(a, ms, u, target in index[u])) == (target in index[u])
  {
    var x, y := (set m | m in ms), (set m | m in ns);
    var j, l := (if a.AddMembers? then x else {}), (if a.AddMembers? then {} else x);
    var j', l' := (if b.AddMembers? then y else {}), (if b.AddMembers? then {} else y);
    RejoinedTwice(index, target, j, l, j', l');
    forall u ensures (u in j + l + j' + l' <==> u in ms || u in ns)
                     && forall bit :: Bit(j', l', u, Bit(j, l, u, bit)) ==
                          BitAfter(b, ns, u, BitAfter(a, ms, u, bit)) {}
  }

  ghost predicate BitsReturn(a: GroupAction, ms: seq<string>, b: GroupAction, ns: seq<string>, u: string, bit: bool) {
    BitAfter(b, ns, u, BitAfter(a, ms, u, bit)) == bit
  }

  /** The record and the index, each for itself. */
  lemma ReturnsByParts(g: Graph, target: string, a: GroupAction, ms: seq<string>, b: GroupAction, ns: seq<string>)
    requires target in g.groups
    ensures GroupReturns(g, target, a, ms, b, ns) <==>
            && Distinct(g.groups[target].members)
            && StatusAfter(b, StatusAfter(a, g.groups[target].status)) == g.groups[target].status
            && (forall u :: u in ms || u in ns ==> BitsReturn(a, ms, b, ns, u, u in g.groups[target].members))
            && (forall u :: u in ms || u in ns ==>
                  u in g.memberships && BitsReturn(a, ms, b, ns, u, target in g.memberships[u]))
  {}

  /** The record returns exactly when its list had no repetitions and status and members do. */
  lemma RecordReturns(info: GroupInfo, info2: GroupInfo, a: GroupAction, ms: seq<string>, b: GroupAction,
                      ns: seq<string>)
    requires !a.DeleteGroup? && !b.DeleteGroup?
    requires (a.EnableGroup? || a.DisableGroup? ==> ms == []) && (b.EnableGroup? || b.DisableGroup? ==> ns == [])
    requires info2 == GroupInfo(StatusAfter(b, StatusAfter(a, info.status)),
                                SortedOf(MembersAfter(b, MembersAfter(a, (set m | m in info.members),
                                                                      (set m | m in ms)),
                                                      (set m | m in ns))))
    ensures info2.status == info.status && multiset(info2.members) == multiset(info.members) <==>
            && Distinct(info.members) && StatusAfter(b, StatusAfter(a, info.status)) == info.status
            && (forall u :: u in ms || u in ns ==> BitsReturn(a, ms, b, ns, u, u in info.members))
  {
    var after := MembersAfter(b, MembersAfter(a, (set m | m in info.members), (set m | m in ms)), (set m | m in ns));
    SameAsSorted(info.members, after);
    MembersReturn(info.members, a, ms, b, ns);
  }

  lemma EditsReturnIn(g: Graph, g2: Graph, target: string, a: GroupAction, ms: seq<string>, b: GroupAction,
                      ns: seq<string>)
    requires target in g.groups && target in g2.groups && !a.DeleteGroup? && !b.DeleteGroup?
    requires (a.EnableGroup? || a.DisableGroup? ==> ms == []) && (b.EnableGroup? || b.DisableGroup? ==> ns == [])
    requires g2 == g.(groups := g.groups[target := g2.groups[target]], memberships := g2.memberships)
    requires var members, x, y := g.groups[target].members, (set m | m in ms), (set m | m in ns);
             && g2.groups[target] == GroupInfo(StatusAfter(b, StatusAfter(a, g.groups[target].status)),
                                               SortedOf(MembersAfter(b, MembersAfter(a, (set m | m in members), x), y)))
             && g2.memberships
                == Rejoined(Rejoined(g.memberships, target, if a.AddMembers? then x else {},
                                     if a.AddMembers? then {} else x),
                            target, if b.AddMembers? then y else {}, if b.AddMembers? then {} else y)
    ensures Canonical(g2) == Canonical(g) <==> GroupReturns(g, target, a, ms, b, ns)
  {
    GroupRecordShows(g, g2, target, g2.groups[target]);
    RecordReturns(g.groups[target], g2.groups[target], a, ms, b, ns);
    IndexReturns(g.memberships, target, a, ms, b, ns);
    ReturnsByParts(g, target, a, ms, b, ns);
  }

  lemma EditsReturn(s: State, target: string, a: GroupAction, ms: seq<string>, b: GroupAction, ns: seq<string>)
    requires target in s.mem.groups && !a.DeleteGroup? && !b.DeleteGroup?
    requires (a.EnableGroup? || a.DisableGroup? ==> ms == []) && (b.EnableGroup? || b.DisableGroup? ==> ns == [])
    ensures var s1 := Apply(s, GroupEdit(s.mem.groups[target], a, target, ms));
            target in s1.mem.groups &&
            (Canonical(Apply(s1, GroupEdit(s1.mem.groups[target], b, target, ns)).mem) == Canonical(s.mem) <==>
             GroupReturns(s.mem, target, a, ms, b, ns))
  {
    EditTwice(s, target, a, ms, b, ns);
    var s1 := Apply(s, GroupEdit(s.mem.groups[target], a, target, ms));
    EditsReturnIn(s.mem, Apply(s1, GroupEdit(s1.mem.groups[target], b, target, ns)).mem, target, a, ms, b, ns);
  }

  // ---- Any two requests ----

  lemma SameDistinct(a: seq<string>, b: seq<string>)
    requires multiset(a) == multiset(b)
    ensures (Distinct(a) <==> Distinct(b)) && forall m :: m in a <==> m in b
  {
    forall m ensures m in a <==> m in b { assert m in a <==> m in multiset(a); assert m in b <==> m in multiset(b); }
    if Distinct(a) {
      forall x ensures multiset(b)[x] <= 1 { DistinctCount(a, x); }
      DistinctFromCount(b);
    }
    if Distinct(b) {
      forall x ensures multiset(a)[x] <= 1 { DistinctCount(b, x); }
      DistinctFromCount(a);
    }
  }

  lemma PrintedParts(g: Graph, g': Graph, name: string)
    requires Canonical(g) == Canonical(g')
    ensures g.memberships == g'.memberships
    ensures name in g.users <==> name in g'.users
    ensures name in g.users ==> g.users[name].(groups := []) == g'.users[name].(groups := [])
    ensures name in g.groups <==> name in g'.groups
    ensures name in g.groups ==> g.groups[name].status == g'.groups[name].status
                                 && multiset(g.groups[name].members) == multiset(g'.groups[name].members)
    ensures (name in g.userPolicies <==> name in g'.userPolicies)
            && (name in g.groupPolicies <==> name in g'.groupPolicies)
    ensures name in g.userPolicies ==> Joined(g.userPolicies[name]) == Joined(g'.userPolicies[name])
    ensures name in g.groupPolicies ==> Joined(g.groupPolicies[name]) == Joined(g'.groupPolicies[name])
  {
    assert name in g.users <==> name in PrintedUsers(g.users);
    assert name in g'.users <==> name in PrintedUsers(g'.users);
    assert name in g.groups <==> name in PrintedGroups(g.groups);
    assert name in g'.groups <==> name in PrintedGroups(g'.groups);
    assert name in g.userPolicies <==> name in PrintedMappings(g.userPolicies);
    assert name in g'.userPolicies <==> name in PrintedMappings(g'.userPolicies);
    assert name in g.groupPolicies <==> name in PrintedMappings(g.groupPolicies);
    assert name in g'.groupPolicies <==> name in PrintedMappings(g'.groupPolicies);
    if name in g.users {
      assert PrintedUsers(g.users)[name].rest == PrintedUsers(g'.users)[name].rest;
    }
    if name in g.groups {
      assert PrintedGroups(g.groups)[name] == PrintedGroups(g'.groups)[name];
    }
  }

  lemma GroupIdleByFingerprint(g: Graph, g': Graph, action: GroupAction, target: string, members: seq<string>)
    requires Canonical(g) == Canonical(g')
    ensures GroupIdle(g, action, target, members) <==> GroupIdle(g', action, target, members)
  {
    PrintedParts(g, g', target);
    if target in g.groups {
      SameDistinct(g.groups[target].members, g'.groups[target].members);
      assert forall m :: (g.Listed(m, target) <==> g'.Listed(m, target)) && g.Index(m) == g'.Index(m);
    }
  }

  lemma MappingIdleByFingerprint(g: Graph, g': Graph, kind: Kind, target: string, policies: seq<string>)
    requires Canonical(g) == Canonical(g')
    ensures SameMapping(if kind == UserKind then g.userPolicies else g.groupPolicies, target, policies)
       <==> SameMapping(if kind == UserKind then g'.userPolicies else g'.groupPolicies, target, policies)
  {
    PrintedParts(g, g', target);
  }

  lemma ServiceIdleByFingerprint(g: Graph, g': Graph, r: Request)
    requires Canonical(g) == Canonical(g') && r.ServiceRequest?
    ensures Idle(g, r) <==> Idle(g', r)
  {
    PrintedParts(g, g', r.target);
  }

  /** Whether a request asks for what is already so can be read off the fingerprint. */
  lemma IdleByFingerprint(g: Graph, g': Graph, r: Request)
    requires Canonical(g) == Canonical(g')
    ensures Idle(g, r) <==> Idle(g', r)
  {
    match r
    case GroupRequest(action, target, members, _) => GroupIdleByFingerprint(g, g', action, target, members);
    case ServiceRequest(_, _, _) => ServiceIdleByFingerprint(g, g', r);
    case BindRequest(kind, target, _, policies, _) => MappingIdleByFingerprint(g, g', kind, target, policies);
    case ReplaceBindings(kind, target, _, policies) => MappingIdleByFingerprint(g, g', kind, target, policies);
    case _ =>
  }

  lemma EpochOfDeletion(v: Server, s: State, ctx: Context, target: string, draft: Draft)
    requires UserPlan(v.env, s.mem, ctx, DeleteUser, target, draft).Ok?
    ensures s.mem.epoch < ApplyAll(s, UserPlan(v.env, s.mem, ctx, DeleteUser, target, draft).value).mem.epoch
            <= s.mem.epoch + 2 * GRAPH_LIMIT + 2
  {
    var plan := UserPlan(v.env, s.mem, ctx, DeleteUser, target, draft).value;
    UserPlanIs(v.env, s.mem, ctx, target, draft);
    assert plan[..|plan|] == plan;
    DeletionShows(v, s, ctx, target, draft, |plan|);
  }

  lemma EpochOfEffect(g: Graph, g': Graph, r: Request)
    requires Effect(g, g', r) && !(r.UserRequest? && r.userAction.DeleteUser?)
    ensures if EpochFree(r) then g'.epoch == g.epoch else g.epoch < g'.epoch <= g.epoch + 2
  {}

  lemma EpochOfCommit(v: Server, s: State, ctx: Context, r: Request)
    requires Plan(v.env, v.claims, s.mem, ctx, r).Ok?
    ensures if EpochFree(r) then AfterCommit(v, s, ctx, r).mem.epoch == s.mem.epoch
            else s.mem.epoch < AfterCommit(v, s, ctx, r).mem.epoch <= s.mem.epoch + 2 * GRAPH_LIMIT + 2
  {
    if r.UserRequest? && r.userAction.DeleteUser? {
      EpochOfDeletion(v, s, ctx, r.target, r.draft);
    } else {
      CommittedEffect(v.env, v.claims, s, ctx, r);
      EpochOfEffect(s.mem, AfterCommit(v, s, ctx, r).mem, r);
    }
  }

  /** The second request leaves what the first one found. */
  ghost predicate Returns(g: Graph, r: Request, r': Request) {
    && EpochFree(r) && EpochFree(r')
    && if CellOf(r) == CellOf(r') then CellReturns(g, r, r') else Idle(g, r) && Idle(g, r')
  }

  lemma OtherCell(v: Server, s: State, ctx: Context, r: Request, ctx': Context, r': Request)
    requires EpochFree(r) && EpochFree(r') && CellOf(r) != CellOf(r') && Plan(v.env, v.claims, s.mem, ctx, r).Ok?
    requires Plan(v.env, v.claims, AfterCommit(v, s, ctx, r).mem, ctx', r').Ok?
    ensures var s' := AfterCommit(v, AfterCommit(v, s, ctx, r), ctx', r');
            Canonical(s'.mem) == Canonical(s.mem) <==> Idle(s.mem, r) && Idle(s.mem, r')
  {
    var s1 := AfterCommit(v, s, ctx, r);
    var s2 := AfterCommit(v, s1, ctx', r');
    StaysInCell(v, s, ctx, r);
    StaysInCell(v, s1, ctx', r');
    CommitKeepsExactly(v, s, ctx, r);
    CommitKeepsExactly(v, s1, ctx', r');
    if Canonical(s2.mem) == Canonical(s.mem) {
      CellsApart(Canonical(s.mem), Canonical(s1.mem), CellOf(r), CellOf(r'));
    }
    if Canonical(s1.mem) == Canonical(s.mem) { IdleByFingerprint(s.mem, s1.mem, r'); }
  }

  lemma GroupEditsReturn(v: Server, s: State, ctx: Context, r: Request, ctx': Context, r': Request)
    requires r.GroupRequest? && r'.GroupRequest? && EpochFree(r) && EpochFree(r') && r.target == r'.target
    requires Plan(v.env, v.claims, s.mem, ctx, r).Ok?
    requires Plan(v.env, v.claims, AfterCommit(v, s, ctx, r).mem, ctx', r').Ok?
    ensures var s' := AfterCommit(v, AfterCommit(v, s, ctx, r), ctx', r');
            Canonical(s'.mem) == Canonical(s.mem) <==> CellReturns(s.mem, r, r')
  {
    var x, y := CanonicalNames(r.members).value, CanonicalNames(r'.members).value;
    GroupDone(v, s, ctx, r);
    GroupDone(v, AfterCommit(v, s, ctx, r), ctx', r');
    SortedMembers(r.members);
    SortedMembers(r'.members);
    EditsReturn(s, r.target, r.groupAction, x, r'.groupAction, y);
    NamedReturns(s.mem, r.target, r.groupAction, r.members, x, r'.groupAction, r'.members, y);
  }

  lemma NamedReturns(g: Graph, target: string, a: GroupAction, ms: seq<string>, x: seq<string>, b: GroupAction,
                     ns: seq<string>, y: seq<string>)
    requires (forall m :: m in x <==> m in ms) && (forall m :: m in y <==> m in ns)
    ensures GroupReturns(g, target, a, x, b, y) <==> GroupReturns(g, target, a, ms, b, ns)
  {}

  lemma SameCellReturns(v: Server, s: State, ctx: Context, r: Request, ctx': Context, r': Request)
    requires EpochFree(r) && EpochFree(r') && CellOf(r) == CellOf(r') && Plan(v.env, v.claims, s.mem, ctx, r).Ok?
    requires Plan(v.env, v.claims, AfterCommit(v, s, ctx, r).mem, ctx', r').Ok?
    ensures var s' := AfterCommit(v, AfterCommit(v, s, ctx, r), ctx', r');
            Canonical(s'.mem) == Canonical(s.mem) <==> CellReturns(s.mem, r, r')
  {
    if r.GroupRequest? {
      GroupEditsReturn(v, s, ctx, r, ctx', r');
    } else if r.BindRequest? || r.ReplaceBindings? {
      BindingReturns(v, s, ctx, r, ctx', r');
    } else if r.CreateService? || r'.CreateService? {
      CreationStays(v, s, ctx, r, ctx', r');
    } else {
      FieldsReturnExactly(v, s, ctx, r, ctx', r');
    }
  }

  lemma ReturnsIs(g: Graph, r: Request, r': Request)
    requires EpochFree(r) && EpochFree(r')
    ensures CellOf(r) == CellOf(r') ==> (Returns(g, r, r') <==> CellReturns(g, r, r'))
    ensures CellOf(r) != CellOf(r') ==> (Returns(g, r, r') <==> Idle(g, r) && Idle(g, r'))
  {}

  lemma EpochMoved(v: Server, s: State, ctx: Context, r: Request, ctx': Context, r': Request)
    requires !EpochFree(r) || !EpochFree(r')
    requires Plan(v.env, v.claims, s.mem, ctx, r).Ok?
    requires Plan(v.env, v.claims, AfterCommit(v, s, ctx, r).mem, ctx', r').Ok?
    ensures Canonical(AfterCommit(v, AfterCommit(v, s, ctx, r), ctx', r').mem) != Canonical(s.mem)
  {
    var s1 := AfterCommit(v, s, ctx, r);
    EpochOfCommit(v, s, ctx, r);
    EpochOfCommit(v, s1, ctx', r');
    EpochShows(s.mem, AfterCommit(v, s1, ctx', r').mem);
  }

  /** Main result: two committed requests in a row, of any kinds, bring the first fingerprint back exactly when neither
      moves the epoch and either both work on one record and leave it as it was, or both asked for what was so. */
  lemma PairReturnsExactly(v: Server, s: State, ctx: Context, r: Request, ctx': Context, r': Request)
    requires Plan(v.env, v.claims, s.mem, ctx, r).Ok?
    requires Plan(v.env, v.claims, AfterCommit(v, s, ctx, r).mem, ctx', r').Ok?
    ensures var s' := AfterCommit(v, AfterCommit(v, s, ctx, r), ctx', r');
            Canonical(s'.mem) == Canonical(s.mem) <==> Returns(s.mem, r, r')
  {
    if EpochFree(r) && EpochFree(r') {
      ReturnsIs(s.mem, r, r');
      if CellOf(r) == CellOf(r') {
        SameCellReturns(v, s, ctx, r, ctx', r');
      } else {
        OtherCell(v, s, ctx, r, ctx', r');
      }
    } else {
      EpochMoved(v, s, ctx, r, ctx', r');
    }
  }

  // ---- Tokens that return ----

  /** The event is a request that ran to its end. */
  ghost predicate Finished(v: Server, s: State, ev: Event) {
    ev.Native? && Plan(v.env, v.claims, s.mem, ev.ctx, ev.request).Ok?
    && ev.completed == |Plan(v.env, v.claims, s.mem, ev.ctx, ev.request).value|
  }

  lemma FinishedIs(v: Server, s: State, ev: Event, s': State)
    requires Next(v, s, ev, s') && Finished(v, s, ev)
    ensures s' == AfterCommit(v, s, ev.ctx, ev.request)
  {
    var plan := Plan(v.env, v.claims, s.mem, ev.ctx, ev.request).value;
    assert plan[..|plan|] == plan;
  }

  /** Main result: along a run, the drafts of a state are good again after the next two requests, whatever they are,
      exactly when these return. */
  lemma TokensReturnExactly(h: Hashing, v: Server, states: seq<State>, events: seq<Event>, i: nat,
                            kind: Kind, target: string, expires: int)
    requires Collisionless(h, v.env) && Run(v, states, events) && i + 1 < |events| && Tokenable(v.env, states[i].mem)
    requires Finished(v, states[i], events[i]) && Finished(v, states[i + 1], events[i + 1])
    ensures TokenOf(v.env, states[i + 2].mem, kind, target, expires)
            == TokenOf(v.env, states[i].mem, kind, target, expires)
       <==> Returns(states[i].mem, events[i].request, events[i + 1].request)
  {
    FinishedIs(v, states[i], events[i], states[i + 1]);
    FinishedIs(v, states[i + 1], events[i + 1], states[i + 2]);
    PairReturnsExactly(v, states[i], events[i].ctx, events[i].request, events[i + 1].ctx, events[i + 1].request);
    TokensEqualExactly(h, v.env, states[i].mem, states[i + 2].mem, kind, target, expires);
  }

  /** Two committed requests: the members are added to the group and removed again. */
  ghost predicate AddsThenRemoves(events: seq<Event>, i: nat, group: string, members: seq<string>) {
    && i + 1 < |events| && events[i].Native? && events[i + 1].Native?
    && events[i].completed == 1 == events[i + 1].completed
    && events[i].request.GroupRequest? && events[i + 1].request.GroupRequest?
    && events[i].request == GroupRequest(AddMembers, group, members, events[i].request.draft)
    && events[i + 1].request == GroupRequest(RemoveMembers, group, members, events[i + 1].request.draft)
  }

  lemma EditFinished(v: Server, s: State, ev: Event, s': State)
    requires Next(v, s, ev, s') && ev.Native? && ev.completed == 1 && ev.request.GroupRequest?
    requires !ev.request.groupAction.DeleteGroup?
    ensures Finished(v, s, ev) && Tokenable(v.env, s.mem) && ev.request.target in s.mem.groups
  {
    var r := ev.request;
    GroupPlanShape(v.env, s.mem, ev.ctx, r.groupAction, r.target, r.members, r.draft);
    DraftedPlanChecks(v, s.mem, ev.ctx, r);
  }

  lemma AddedThenRemoved(g: Graph, group: string, members: seq<string>)
    requires group in g.groups && forall m :: m in members ==> !g.Listed(m, group) && group !in g.Index(m)
    ensures GroupReturns(g, group, AddMembers, members, RemoveMembers, members) <==>
            (forall m :: m in members ==> m in g.memberships) && Distinct(g.groups[group].members)
  {}

  /** For newcomers: after adding members to a group and removing them again the tokens of the first state are valid
      once more exactly when every one of them already had an index entry and the group listed its members without
      repetition. */
  lemma MembershipRoundTrip(h: Hashing, v: Server, states: seq<State>, events: seq<Event>, i: nat,
                            group: string, members: seq<string>, kind: Kind, target: string, expires: int)
    requires Collisionless(h, v.env) && Run(v, states, events) && AddsThenRemoves(events, i, group, members)
    requires forall m :: m in members ==> !states[i].mem.Listed(m, group) && group !in states[i].mem.Index(m)
    ensures group in states[i].mem.groups
    ensures TokenOf(v.env, states[i + 2].mem, kind, target, expires)
            == TokenOf(v.env, states[i].mem, kind, target, expires)
       <==> (forall m :: m in members ==> m in states[i].mem.memberships)
            && Distinct(states[i].mem.groups[group].members)
  {
    EditFinished(v, states[i], events[i], states[i + 1]);
    EditFinished(v, states[i + 1], events[i + 1], states[i + 1 + 1]);
    TokensReturnExactly(h, v, states, events, i, kind, target, expires);
    AddedThenRemoved(states[i].mem, group, members);
  }
}
