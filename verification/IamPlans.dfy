/**
 Every native mutation is a sequence of persistence calls, each followed by its in-memory
 effect. This module gives those steps, the sequence each request asks for, and the proof
 that stopping after any number of them keeps the graph and the disk image consistent.
 */
module IamPlans {
  import opened Lex
  import opened IamGraph

  /** One persistence call together with the memory update that follows its success. */
  datatype Step =
    | SaveIdentity(kind: UserType, key: string, credential: Credential, bump: bool)
    | DropIdentity(kind: UserType, key: string)
    | DropMapping(kind: UserType, key: string)
    | LeaveGroup(group: string, info: GroupInfo, user: string)
    | SaveGroup(group: string, info: GroupInfo, joins: set<string>, leaves: set<string>, bump: bool)
    | DropGroupMapping(group: string)
    | DropGroup(group: string)
    | SetUserMapping(user: string, policies: Policies)
    | SetGroupMapping(group: string, policies: Policies)

  function Without(members: seq<string>, user: string): (r: seq<string>)
    ensures forall m :: m in r <==> m in members && m != user
  {
    if members == [] then []
    else if members[0] == user then Without(members[1..], user)
    else [members[0]] + Without(members[1..], user)
  }

  function GroupsOf(index: map<string, set<string>>, user: string): set<string> {
    if user in index then index[user] else {}
  }

  function Rejoined(index: map<string, set<string>>, group: string, joins: set<string>, leaves: set<string>):
    map<string, set<string>>
  {
    map u | u in index.Keys + joins + leaves ::
      var current := if u in index then index[u] else {};
      if u in joins then current + {group} else if u in leaves then current - {group} else current
  }

  function Unlisted(index: map<string, set<string>>, group: string): map<string, set<string>> {
    map u | u in index :: index[u] - {group}
  }

  function Apply(s: State, step: Step): State {
    var m, d := s.mem, s.disk;
    match step
    case SaveIdentity(kind, key, credential, bump) =>
      State(m.(users := m.users[key := credential], epoch := if bump then m.epoch + 1 else m.epoch),
            d.(identities := d.identities[Slot(kind, key) := credential]))
    case DropIdentity(kind, key) =>
      State(m.(users := m.users - {key}, userPolicies := m.userPolicies - {key},
               memberships := m.memberships - {key}, epoch := m.epoch + 1),
            d.(identities := d.identities - {Slot(kind, key)}))
    case DropMapping(kind, key) =>
      State(m.(userPolicies := m.userPolicies - {key}, epoch := m.epoch + 1),
            d.(mappings := d.mappings - {Slot(kind, key)}))
    case LeaveGroup(group, info, user) =>
      State(m.(groups := m.groups[group := info], epoch := m.epoch + 1,
               memberships := if user in m.memberships then m.memberships[user := m.memberships[user] - {group}]
                              else m.memberships),
            d.(groups := d.groups[group := info]))
    case SaveGroup(group, info, joins, leaves, bump) =>
      State(m.(groups := m.groups[group := info], epoch := if bump then m.epoch + 1 else m.epoch,
               memberships := Rejoined(m.memberships, group, joins, leaves)),
            d.(groups := d.groups[group := info]))
    case DropGroupMapping(group) =>
      State(m.(groupPolicies := m.groupPolicies - {group}), d.(groupPolicies := d.groupPolicies - {group}))
    case DropGroup(group) =>
      State(m.(groups := m.groups - {group}, epoch := m.epoch + 1,
               memberships := Unlisted(m.memberships, group)),
            d.(groups := d.groups - {group}))
    case SetUserMapping(user, policies) =>
      if policies == [] then
        State(m.(userPolicies := m.userPolicies - {user}), d.(mappings := d.mappings - {Slot(Regular, user)}))
      else
        State(m.(userPolicies := m.userPolicies[user := policies]),
              d.(mappings := d.mappings[Slot(Regular, user) := policies]))
    case SetGroupMapping(group, policies) =>
      if policies == [] then
        State(m.(groupPolicies := m.groupPolicies - {group}), d.(groupPolicies := d.groupPolicies - {group}))
      else
        State(m.(groupPolicies := m.groupPolicies[group := policies]),
              d.(groupPolicies := d.groupPolicies[group := policies]))
  }

  function ApplyAll(s: State, steps: seq<Step>): State
    decreases |steps|
  {
    if steps == [] then s else ApplyAll(Apply(s, steps[0]), steps[1..])
  }

  lemma OneStep(s: State, step: Step)
    ensures ApplyAll(s, [step]) == Apply(s, step)
  {}

  lemma {:induction false} ApplyAllConcat(s: State, a: seq<Step>, b: seq<Step>)
    ensures ApplyAll(s, a + b) == ApplyAll(ApplyAll(s, a), b)
    decreases |a|
  {
    if a == [] {
      assert a + b == b;
    } else {
      assert (a + b)[1..] == a[1..] + b;
      ApplyAllConcat(Apply(s, a[0]), a[1..], b);
    }
  }

  // ---- When a single step keeps the invariant ----

  ghost predicate Regroups(g: Graph, group: string, info: GroupInfo, joins: set<string>, leaves: set<string>) {
    && joins !! leaves
    && (forall u :: u in joins ==> u in g.users && g.users[u].IsRegular())
    && (forall u :: u in info.members <==> (g.Listed(u, group) || u in joins) && u !in leaves)
  }

  ghost predicate StepOk(g: Graph, step: Step) {
    match step
    case SaveIdentity(kind, key, credential, _) =>
      kind == credential.Kind() && (key in g.users ==> g.users[key].Kind() == kind)
    case DropIdentity(kind, key) =>
      && key in g.users && kind == g.users[key].Kind() && key !in g.userPolicies
      && (forall n :: !g.Listed(key, n))
    case DropMapping(kind, key) => kind == g.MappingKind(key)
    case LeaveGroup(group, info, user) =>
      group in g.groups && info == g.groups[group].(members := Without(g.groups[group].members, user))
    case SaveGroup(group, info, joins, leaves, _) => Regroups(g, group, info, joins, leaves)
    case DropGroupMapping(group) => true
    case DropGroup(group) => group in g.groups && g.groups[group].members == [] && group !in g.groupPolicies
    case SetUserMapping(user, _) => user in g.users && !g.users[user].IsTemp()
    case SetGroupMapping(group, _) => group in g.groups
  }

  lemma SaveIdentityGraph(g: Graph, g': Graph, kind: UserType, key: string, credential: Credential, bump: bool)
    requires GraphInv(g) && StepOk(g, SaveIdentity(kind, key, credential, bump))
    requires g' == g.(users := g.users[key := credential], epoch := g'.epoch)
    ensures GraphInv(g')
  {
    forall u, n ensures n in g'.Index(u) <==> g'.Listed(u, n) {
      assert n in g.Index(u) <==> g.Listed(u, n);
    }
    forall u, n | g'.Listed(u, n) ensures u in g'.users && g'.users[u].IsRegular() {
      assert g.Listed(u, n);
    }
  }

  lemma IdentitySaved(users: map<string, Credential>, identities: map<Slot, Credential>, key: string, c: Credential)
    requires IdentitiesSynced(users, identities) && (key in users ==> users[key].Kind() == c.Kind())
    ensures IdentitiesSynced(users[key := c], identities[Slot(c.Kind(), key) := c])
  {}

  lemma SavedKinds(g: Graph, g': Graph, kind: UserType, key: string, credential: Credential, bump: bool)
    requires StepOk(g, SaveIdentity(kind, key, credential, bump)) && GraphInv(g)
    requires g'.users == g.users[key := credential]
    ensures forall n :: n in g.userPolicies ==> g'.MappingKind(n) == g.MappingKind(n)
  {}

  lemma SaveIdentityKeeps(s: State, kind: UserType, key: string, credential: Credential, bump: bool)
    requires Inv(s) && StepOk(s.mem, SaveIdentity(kind, key, credential, bump))
    ensures Inv(Apply(s, SaveIdentity(kind, key, credential, bump)))
  {
    var g, t := s.mem, Apply(s, SaveIdentity(kind, key, credential, bump));
    SaveIdentityGraph(g, t.mem, kind, key, credential, bump);
    IdentitySaved(g.users, s.disk.identities, key, credential);
    SavedKinds(g, t.mem, kind, key, credential, bump);
    MappingsStaySynced(g, t.mem, s.disk.mappings);
  }

  lemma MappingsStaySynced(g: Graph, g': Graph, mappings: map<Slot, seq<string>>)
    requires MappingsSynced(g, mappings) && g'.userPolicies == g.userPolicies
    requires forall n :: n in g.userPolicies ==> g'.MappingKind(n) == g.MappingKind(n)
    ensures MappingsSynced(g', mappings)
  {}

  lemma DropIdentityKeeps(s: State, kind: UserType, key: string)
    requires Inv(s) && StepOk(s.mem, DropIdentity(kind, key))
    ensures Inv(Apply(s, DropIdentity(kind, key)))
  {
    var g, g' := s.mem, Apply(s, DropIdentity(kind, key)).mem;
    forall u, n ensures n in g'.Index(u) <==> g'.Listed(u, n) {
      assert n in g.Index(u) <==> g.Listed(u, n);
      assert g.Listed(u, n) <==> g'.Listed(u, n);
    }
    forall u, n | g'.Listed(u, n) ensures u in g'.users && g'.users[u].IsRegular() {
      assert g.Listed(u, n);
    }
  }

  lemma DropMappingKeeps(s: State, kind: UserType, key: string)
    requires Inv(s) && StepOk(s.mem, DropMapping(kind, key))
    ensures Inv(Apply(s, DropMapping(kind, key)))
  {
    var g, g' := s.mem, Apply(s, DropMapping(kind, key)).mem;
    assert forall u, n :: g'.Listed(u, n) <==> g.Listed(u, n);
    assert forall u :: g'.Index(u) == g.Index(u);
    assert forall n :: g'.MappingKind(n) == g.MappingKind(n);
  }

  lemma LeaveGroupKeeps(s: State, group: string, info: GroupInfo, user: string)
    requires Inv(s) && StepOk(s.mem, LeaveGroup(group, info, user))
    ensures Inv(Apply(s, LeaveGroup(group, info, user)))
  {
    var g, g' := s.mem, Apply(s, LeaveGroup(group, info, user)).mem;
    forall u, n ensures n in g'.Index(u) <==> g'.Listed(u, n) {
      assert n in g.Index(u) <==> g.Listed(u, n);
    }
    forall u, n | g'.Listed(u, n) ensures u in g'.users && g'.users[u].IsRegular() {
      assert g.Listed(u, n);
    }
    assert forall n :: g'.MappingKind(n) == g.MappingKind(n);
  }

  lemma SaveGroupKeeps(s: State, group: string, info: GroupInfo, joins: set<string>, leaves: set<string>, bump: bool)
    requires Inv(s) && StepOk(s.mem, SaveGroup(group, info, joins, leaves, bump))
    ensures Inv(Apply(s, SaveGroup(group, info, joins, leaves, bump)))
  {
    var g, g' := s.mem, Apply(s, SaveGroup(group, info, joins, leaves, bump)).mem;
    forall u, n ensures n in g'.Index(u) <==> g'.Listed(u, n) {
      assert n in g.Index(u) <==> g.Listed(u, n);
    }
    forall u, n | g'.Listed(u, n) ensures u in g'.users && g'.users[u].IsRegular() {
      assert g.Listed(u, n) || (n == group && u in joins);
    }
    assert forall n :: g'.MappingKind(n) == g.MappingKind(n);
  }

  lemma DropGroupKeeps(s: State, group: string)
    requires Inv(s) && StepOk(s.mem, DropGroup(group))
    ensures Inv(Apply(s, DropGroup(group)))
  {
    var g, g' := s.mem, Apply(s, DropGroup(group)).mem;
    forall u, n ensures n in g'.Index(u) <==> g'.Listed(u, n) {
      assert n in g.Index(u) <==> g.Listed(u, n);
    }
    forall u, n | g'.Listed(u, n) ensures u in g'.users && g'.users[u].IsRegular() {
      assert g.Listed(u, n);
    }
    assert forall n :: g'.MappingKind(n) == g.MappingKind(n);
  }

  lemma MappingSaved(g: Graph, mappings: map<Slot, Policies>, user: string, policies: Policies)
    requires MappingsSynced(g, mappings) && g.MappingKind(user) == Regular
    ensures MappingsSynced(g.(userPolicies := g.userPolicies[user := policies]),
                           mappings[Slot(Regular, user) := policies])
  {}

  lemma MappingRemoved(g: Graph, mappings: map<Slot, Policies>, user: string)
    requires MappingsSynced(g, mappings) && g.MappingKind(user) == Regular
    ensures MappingsSynced(g.(userPolicies := g.userPolicies - {user}), mappings - {Slot(Regular, user)})
  {}

  lemma UserMappingKeeps(s: State, user: string, policies: Policies)
    requires Inv(s) && StepOk(s.mem, SetUserMapping(user, policies))
    ensures Inv(Apply(s, SetUserMapping(user, policies)))
  {
    var g, g' := s.mem, Apply(s, SetUserMapping(user, policies)).mem;
    if policies == [] {
      MappingRemoved(g, s.disk.mappings, user);
    } else {
      MappingSaved(g, s.disk.mappings, user, policies);
    }
    assert GraphInv(g') by {
      assert forall u, n :: g'.Listed(u, n) <==> g.Listed(u, n);
      assert forall u :: g'.Index(u) == g.Index(u);
    }
  }

  lemma SameExceptGroupPolicies(s: State, t: State)
    requires Inv(s)
             && t == State(s.mem.(groupPolicies := t.mem.groupPolicies), s.disk.(groupPolicies := t.mem.groupPolicies))
    requires t.mem.groupPolicies.Keys <= s.mem.groups.Keys
    ensures Inv(t)
  {
    var g, g' := s.mem, t.mem;
    assert forall u, n :: g'.Listed(u, n) <==> g.Listed(u, n);
    assert forall u :: g'.Index(u) == g.Index(u);
    assert forall n :: g'.MappingKind(n) == g.MappingKind(n);
  }

  lemma StepKeeps(s: State, step: Step)
    requires Inv(s) && StepOk(s.mem, step)
    ensures Inv(Apply(s, step))
  {
    match step
    case SaveIdentity(kind, key, credential, bump) => SaveIdentityKeeps(s, kind, key, credential, bump);
    case DropIdentity(kind, key) => DropIdentityKeeps(s, kind, key);
    case DropMapping(kind, key) => DropMappingKeeps(s, kind, key);
    case LeaveGroup(group, info, user) => LeaveGroupKeeps(s, group, info, user);
    case SaveGroup(group, info, joins, leaves, bump) => SaveGroupKeeps(s, group, info, joins, leaves, bump);
    case DropGroup(group) => DropGroupKeeps(s, group);
    case SetUserMapping(user, policies) => UserMappingKeeps(s, user, policies);
    case DropGroupMapping(group) => SameExceptGroupPolicies(s, Apply(s, DropGroupMapping(group)));
    case SetGroupMapping(group, policies) => SameExceptGroupPolicies(s, Apply(s, SetGroupMapping(group, policies)));
  }

  // ---- Chains of steps ----

  /** Each step is admissible in the state the earlier ones leave. */
  ghost predicate Chain(s: State, steps: seq<Step>)
    decreases |steps|
  {
    steps == [] || (StepOk(s.mem, steps[0]) && Chain(Apply(s, steps[0]), steps[1..]))
  }

  lemma {:induction false} ChainConcat(s: State, a: seq<Step>, b: seq<Step>)
    requires Chain(s, a) && Chain(ApplyAll(s, a), b)
    ensures Chain(s, a + b)
    decreases |a|
  {
    if a == [] {
      assert a + b == b;
    } else {
      assert (a + b)[1..] == a[1..] + b;
      ChainConcat(Apply(s, a[0]), a[1..], b);
    }
  }

  /** A chain may be cut anywhere: the invariant holds after every prefix. */
  lemma {:induction false} ChainPrefixKeeps(s: State, steps: seq<Step>, k: nat)
    requires Inv(s) && Chain(s, steps) && k <= |steps|
    ensures Inv(ApplyAll(s, steps[..k]))
    decreases k
  {
    if k > 0 {
      StepKeeps(s, steps[0]);
      assert steps[..k][1..] == steps[1..][..k - 1];
      ChainPrefixKeeps(Apply(s, steps[0]), steps[1..], k - 1);
    }
  }
}
