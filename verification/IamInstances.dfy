/** Runs of the server in which a property fails, or a surprising state returns, each open in its names. */
module IamInstances {
  import opened Lex
  import opened IamGraph
  import opened IamPlans
  import opened IamRequests
  import opened IamSafety
  import opened IamLinks
  import opened IamImpact
  import opened IamRuns
  import opened IamTokens
  import opened IamReturns

  /** Every request is made at this time by an authorised caller. */
  const CTX := Context(0, true)

  /** The draft the server hands out in this graph, good for one nanosecond. */
  function DraftFor(env: Env, g: Graph, kind: Kind, target: string): Draft {
    Draft(env.seal(kind, target, 1, env.digest(g)), 1)
  }

  lemma DraftForAccepted(env: Env, g: Graph, kind: Kind, target: string)
    requires Tokenable(env, g)
    ensures DraftCheck(env, g, CTX, kind, target, DraftFor(env, g, kind, target)) == Ok(true)
  {}

  // ---- A deletion that takes a present parent away ----

  /** A user that can be deleted and has nothing below. */
  ghost predicate Plain(env: Env, g: Graph, user: string) {
    && ValidName(user) && user != env.root && user in g.users
    && g.users[user].IsRegular() && g.users[user].parentUser == "" && Children(g, user) == {}
  }

  function Deletion(env: Env, g: Graph, user: string): Request {
    UserRequest(DeleteUser, user, DraftFor(env, g, UserKind, user))
  }

  lemma DeletionAccepted(v: Server, g: Graph, user: string)
    requires Tokenable(v.env, g) && ValidName(user) && user != v.env.root && user in g.users
    requires g.users[user].IsRegular() && g.users[user].parentUser == ""
    requires forall k :: k in Children(g, user) ==> !g.users[k].IsRegular()
    ensures Plan(v.env, v.claims, g, CTX, Deletion(v.env, g, user)) == Ok(DeletePlan(g, user))
  {
    DraftForAccepted(v.env, g, UserKind, user);
  }

  ghost function DeleteEvent(v: Server, g: Graph, user: string): Event {
    Native(CTX, Deletion(v.env, g, user), |DeletePlan(g, user)|)
  }

  lemma DeletionHappens(v: Server, s: State, user: string)
    requires Plan(v.env, v.claims, s.mem, CTX, Deletion(v.env, s.mem, user)) == Ok(DeletePlan(s.mem, user))
    ensures Next(v, s, DeleteEvent(v, s.mem, user), ApplyAll(s, DeletePlan(s.mem, user)))
  {
    var plan := DeletePlan(s.mem, user);
    assert plan[..|plan|] == plan;
  }

  function NamedService(g: Graph, key: string, parent: string, secret: string, token: string): Request
    requires parent in g.users
  {
    CreateService(Proof(g.epoch % EPOCH_MODULUS, "", "", parent, g.users[parent], Err(InvalidArgument)),
                  ServiceSpec(key, [], Ok(Minted(key, secret, token)), true, "", "", ""))
  }

  function ServiceCredential(key: string, parent: string, secret: string, token: string): Credential {
    Credential(key, secret, 0, token, ACCOUNT_ON, parent, [])
  }

  lemma ServiceHappens(v: Server, s: State, key: string, parent: string, secret: string, token: string)
    requires parent in s.mem.users && s.mem.users[parent].IsValid(CTX.now) && s.mem.users[parent].IsRegular()
    requires s.mem.users[parent].parentUser == "" && parent != v.env.root && parent != ""
    requires key != v.env.root && key !in s.mem.users
    ensures Next(v, s, Native(CTX, NamedService(s.mem, key, parent, secret, token), 1),
                 Apply(s, SaveIdentity(Service, key, ServiceCredential(key, parent, secret, token), false)))
  {
    var plan := Plan(v.env, v.claims, s.mem, CTX, NamedService(s.mem, key, parent, secret, token));
    assert plan == Ok([SaveIdentity(Service, key, ServiceCredential(key, parent, secret, token), false)]);
    CutOne(s, plan.value);
  }

  /** The states of the run below: a user is deleted while a temporary credential of theirs is being issued; their
      name is then given to a service account of another user, who is deleted in turn. */
  ghost function AfterFirst(s: State, first: string): State { ApplyAll(s, DeletePlan(s.mem, first)) }

  ghost function AfterIssue(s: State, first: string, key: string, c: Credential): State {
    Issued(AfterFirst(s, first), key, c, [], 1)
  }

  ghost function AfterService(s: State, first: string, key: string, c: Credential, second: string): State {
    Apply(AfterIssue(s, first, key, c),
          SaveIdentity(Service, first, ServiceCredential(first, second, "secret-1", "token"), false))
  }

  ghost predicate Players(v: Server, g: Graph, first: string, second: string, key: string, c: Credential) {
    && Plain(v.env, g, first) && Plain(v.env, g, second) && first != second && g.users[second].IsValid(CTX.now)
    && key !in g.users && c.IsTemp() && c.parentUser == first
  }

  /** The graphs in which drafts are needed are within the bounds on records and bytes. */
  ghost predicate Bounded(v: Server, s: State, first: string, second: string, key: string, c: Credential) {
    Tokenable(v.env, s.mem) && Tokenable(v.env, AfterService(s, first, key, c, second).mem)
  }

  ghost predicate Scene(v: Server, s: State, first: string, second: string, key: string, c: Credential) {
    Players(v, s.mem, first, second, key, c) && Bounded(v, s, first, second, key, c)
  }

  lemma SceneUsers(v: Server, s: State, first: string, second: string, key: string, c: Credential)
    requires Scene(v, s, first, second, key, c)
    ensures AfterFirst(s, first).mem.users == s.mem.users - {first}
    ensures AfterIssue(s, first, key, c).mem.users == (s.mem.users - {first})[key := c]
    ensures AfterService(s, first, key, c, second).mem.users
         == (s.mem.users - {first})[key := c][first := ServiceCredential(first, second, "secret-1", "token")]
  {
    DeletionEffect(s, first);
    assert Children(s.mem, first) + {first} == {first};
  }

  lemma SceneChildren(v: Server, s: State, first: string, second: string, key: string, c: Credential)
    requires Scene(v, s, first, second, key, c)
    ensures Children(AfterService(s, first, key, c, second).mem, second) == {first}
  {
    SceneUsers(v, s, first, second, key, c);
    var g := AfterService(s, first, key, c, second).mem;
    assert first in Children(g, second);
    forall k | k in Children(g, second) ensures k == first {
      assert k in s.mem.users && k != first ==> k in Children(s.mem, second);
    }
  }

  lemma SceneBelow(v: Server, s: State, first: string, second: string, key: string, c: Credential)
    requires Scene(v, s, first, second, key, c)
    ensures var g := AfterService(s, first, key, c, second).mem;
            && Children(g, second) == {first} && !g.users[first].IsRegular() && !Childless(g, first)
            && !FlatBelow(g, second)
            && second in g.users && g.users[second] == s.mem.users[second] && key in g.users && g.users[key] == c
  {
    SceneUsers(v, s, first, second, key, c);
    SceneChildren(v, s, first, second, key, c);
    var g := AfterService(s, first, key, c, second).mem;
    assert g.users[key].parentUser == first;
  }

  lemma OneEvent(v: Server, s: State, ev: Event, s': State)
    requires Next(v, s, ev, s')
    ensures Run(v, [s, s'], [ev])
  {}

  lemma RunsJoin(v: Server, a: seq<State>, e: seq<Event>, b: seq<State>, f: seq<Event>)
    requires Run(v, a, e) && Run(v, b, f) && a[|a| - 1] == b[0]
    ensures Run(v, a + b[1..], e + f)
  {
    var states, events := a + b[1..], e + f;
    forall i | 0 <= i < |events| ensures Next(v, states[i], events[i], states[i + 1]) {
      if i >= |e| { assert states[i] == b[i - |e|] && states[i + 1] == b[i - |e| + 1] && events[i] == f[i - |e|]; }
    }
  }

  lemma FirstGoes(v: Server, s: State, first: string, second: string, key: string, c: Credential)
    requires Scene(v, s, first, second, key, c)
    ensures Run(v, [s, AfterFirst(s, first)], [DeleteEvent(v, s.mem, first)])
  {
    DeletionAccepted(v, s.mem, first);
    DeletionHappens(v, s, first);
    OneEvent(v, s, DeleteEvent(v, s.mem, first), AfterFirst(s, first));
  }

  lemma CredentialComes(v: Server, s: State, first: string, second: string, key: string, c: Credential)
    requires Scene(v, s, first, second, key, c)
    ensures Run(v, [AfterFirst(s, first), AfterIssue(s, first, key, c)], [Issue(key, c, [], 1)])
  {
    SceneUsers(v, s, first, second, key, c);
    OneEvent(v, AfterFirst(s, first), Issue(key, c, [], 1), AfterIssue(s, first, key, c));
  }

  lemma ServiceComes(v: Server, s: State, first: string, second: string, key: string, c: Credential)
    requires Scene(v, s, first, second, key, c)
    ensures second in AfterIssue(s, first, key, c).mem.users
    ensures Run(v, [AfterIssue(s, first, key, c), AfterService(s, first, key, c, second)],
                [Native(CTX, NamedService(AfterIssue(s, first, key, c).mem, first, second, "secret-1", "token"), 1)])
  {
    var s2 := AfterIssue(s, first, key, c);
    SceneUsers(v, s, first, second, key, c);
    ServiceHappens(v, s2, first, second, "secret-1", "token");
    OneEvent(v, s2, Native(CTX, NamedService(s2.mem, first, second, "secret-1", "token"), 1),
             AfterService(s, first, key, c, second));
  }

  ghost function AfterSecond(s: State, first: string, key: string, c: Credential, second: string): State {
    var s3 := AfterService(s, first, key, c, second);
    ApplyAll(s3, DeletePlan(s3.mem, second))
  }

  lemma SecondGoes(v: Server, s: State, first: string, second: string, key: string, c: Credential)
    requires Scene(v, s, first, second, key, c)
    ensures var s3 := AfterService(s, first, key, c, second);
            Run(v, [s3, AfterSecond(s, first, key, c, second)], [DeleteEvent(v, s3.mem, second)])
  {
    var s3 := AfterService(s, first, key, c, second);
    SceneBelow(v, s, first, second, key, c);
    DeletionAccepted(v, s3.mem, second);
    DeletionHappens(v, s3, second);
    OneEvent(v, s3, DeleteEvent(v, s3.mem, second), AfterSecond(s, first, key, c, second));
  }

  /** The last deletion strips the credential of a parent that was present. */
  lemma UsersLeft(v: Server, s: State, first: string, second: string, key: string, c: Credential)
    requires Scene(v, s, first, second, key, c)
    ensures AfterSecond(s, first, key, c, second).mem.users
         == AfterService(s, first, key, c, second).mem.users - {first, second}
  {
    SceneChildren(v, s, first, second, key, c);
    DeletionEffect(AfterService(s, first, key, c, second), second);
    assert {first} + {second} == {first, second};
  }

  lemma Stripped(v: Server, s: State, first: string, second: string, key: string, c: Credential)
    requires Scene(v, s, first, second, key, c)
    ensures !Orphan(AfterService(s, first, key, c, second).mem, key)
    ensures key in AfterSecond(s, first, key, c, second).mem.users
            && Orphan(AfterSecond(s, first, key, c, second).mem, key)
  {
    SceneUsers(v, s, first, second, key, c);
    SceneBelow(v, s, first, second, key, c);
    UsersLeft(v, s, first, second, key, c);
  }

  /** And what it reports as affected does not include the credential. */
  lemma Unreported(v: Server, s: State, first: string, second: string, key: string, c: Credential, now: int)
    requires Scene(v, s, first, second, key, c)
    ensures var s3 := AfterService(s, first, key, c, second);
            !Sound(s3.mem, AfterSecond(s, first, key, c, second).mem, now, SortedOf(Reached(s3.mem, {second})))
  {
    SceneBelow(v, s, first, second, key, c);
    DeletedReport(AfterService(s, first, key, c, second), now, second);
  }

  /** The scene played to its end. */
  lemma DeletionOrphans(v: Server, s: State, first: string, second: string, key: string, c: Credential)
    returns (events: seq<Event>)
    requires Scene(v, s, first, second, key, c)
    ensures Run(v, [s, AfterFirst(s, first), AfterIssue(s, first, key, c), AfterService(s, first, key, c, second),
                    AfterSecond(s, first, key, c, second)], events)
  {
    var s1, s2, s3 := AfterFirst(s, first), AfterIssue(s, first, key, c), AfterService(s, first, key, c, second);
    var s4 := AfterSecond(s, first, key, c, second);
    FirstGoes(v, s, first, second, key, c);
    CredentialComes(v, s, first, second, key, c);
    ServiceComes(v, s, first, second, key, c);
    SecondGoes(v, s, first, second, key, c);
    events := FourJoin(v, s, s1, s2, s3, s4, DeleteEvent(v, s.mem, first), Issue(key, c, [], 1),
                       Native(CTX, NamedService(s2.mem, first, second, "secret-1", "token"), 1),
                       DeleteEvent(v, s3.mem, second));
  }

  lemma FourJoin(v: Server, s: State, s1: State, s2: State, s3: State, s4: State, a: Event, b: Event, c: Event,
                 d: Event)
    returns (events: seq<Event>)
    requires Run(v, [s, s1], [a]) && Run(v, [s1, s2], [b]) && Run(v, [s2, s3], [c]) && Run(v, [s3, s4], [d])
    ensures Run(v, [s, s1, s2, s3, s4], events)
  {
    RunsJoin(v, [s, s1], [a], [s1, s2], [b]);
    assert [s, s1] + [s1, s2][1..] == [s, s1, s2];
    RunsJoin(v, [s2, s3], [c], [s3, s4], [d]);
    assert [s2, s3] + [s3, s4][1..] == [s2, s3, s4];
    RunsJoin(v, [s, s1, s2], [a] + [b], [s2, s3, s4], [c] + [d]);
    assert [s, s1, s2] + [s2, s3, s4][1..] == [s, s1, s2, s3, s4];
    events := [a] + [b] + ([c] + [d]);
  }

  // ---- A run from the empty store ----

  predicate NewUserName(env: Env, name: string) { ValidName(name) && Utf8Len(name) >= 3 && name != env.root }

  function WithUser(s: State, name: string, secret: string): State {
    Apply(s, SaveIdentity(Regular, name, Credential(name, secret, ZERO_TIME, "", ACCOUNT_ON, "", []), true))
  }

  lemma UserHappens(v: Server, s: State, name: string, secret: string)
    requires NewUserName(v.env, name) && name !in s.mem.users && 8 <= Utf8Len(secret) <= 128
    ensures Next(v, s, Native(CTX, CreateUser(name, secret), 1), WithUser(s, name, secret))
  {
    CutOne(s, CreateUserPlan(v.env, s.mem, CTX, name, secret).value);
  }

  lemma OneName(name: string)
    requires ValidName(name)
    ensures CanonicalNames([name]) == Ok([name])
  {
    CanonicalNamesAccepts([name]);
    assert (set n | n in [name]) == {name};
    assert Enumerates([name], {name});
    EnumerationUnique([name], SortedOf({name}), {name});
  }

  function WithGroup(s: State, group: string, user: string): State {
    Apply(s, SaveGroup(group, GroupInfo(STATUS_ENABLED, [user]), {user}, {}, true))
  }

  lemma GroupHappens(v: Server, s: State, group: string, user: string)
    requires ValidName(group) && group !in s.mem.groups && ValidName(user) && user in s.mem.users
             && s.mem.users[user].IsRegular()
    ensures Next(v, s, Native(CTX, CreateGroup(group, [user]), 1), WithGroup(s, group, user))
  {
    OneName(user);
    assert (set m | m in [user]) == {user};
    assert CreateGroupPlan(s.mem, CTX, group, [user])
        == Ok([SaveGroup(group, GroupInfo(STATUS_ENABLED, [user]), {user}, {}, true)]);
    CutOne(s, CreateGroupPlan(s.mem, CTX, group, [user]).value);
  }

  function Edit(env: Env, g: Graph, action: GroupAction, group: string, user: string): Event {
    Native(CTX, GroupRequest(action, group, [user], DraftFor(env, g, GroupKind, group)), 1)
  }

  ghost function Edited(s: State, action: GroupAction, group: string, user: string): State
    requires group in s.mem.groups && !action.DeleteGroup?
  {
    Apply(s, GroupEdit(s.mem.groups[group], action, group, [user]))
  }

  lemma GroupReady(env: Env, g: Graph, group: string)
    requires GraphInv(g) && group in g.groups && ValidName(group) && Tokenable(env, g)
    ensures Impact(env, g, GroupKind, group).Ok?
  {
    assert GroupClosed(g, group);
  }

  lemma EditHappens(v: Server, s: State, action: GroupAction, group: string, user: string)
    requires GraphInv(s.mem) && group in s.mem.groups && ValidName(group) && Tokenable(v.env, s.mem)
    requires (action.AddMembers? || action.RemoveMembers?) && ValidName(user) && user in s.mem.users
             && s.mem.users[user].IsRegular()
    ensures Next(v, s, Edit(v.env, s.mem, action, group, user), Edited(s, action, group, user))
  {
    OneName(user);
    GroupReady(v.env, s.mem, group);
    var draft := DraftFor(v.env, s.mem, GroupKind, group);
    DraftForAccepted(v.env, s.mem, GroupKind, group);
    assert GroupPlan(v.env, s.mem, CTX, action, group, [user], draft)
           == Ok([GroupEdit(s.mem.groups[group], action, group, [user])]);
    CutOne(s, GroupPlan(v.env, s.mem, CTX, action, group, [user], draft).value);
  }

  /** Two users, each in a group of their own. */
  ghost predicate Cast(v: Server, u: string, w: string, one: string, two: string, secret: string) {
    && NewUserName(v.env, u) && NewUserName(v.env, w) && u != w
    && ValidName(one) && ValidName(two) && one != two && 8 <= Utf8Len(secret) <= 128
  }

  function Two(u: string, w: string, secret: string): State { WithUser(WithUser(EMPTY, u, secret), w, secret) }

  function Four(u: string, w: string, one: string, two: string, secret: string): State {
    WithGroup(WithGroup(Two(u, w, secret), one, u), two, w)
  }

  lemma TwoHappen(v: Server, u: string, w: string, secret: string)
    requires NewUserName(v.env, u) && NewUserName(v.env, w) && u != w && 8 <= Utf8Len(secret) <= 128
    ensures Next(v, EMPTY, Native(CTX, CreateUser(u, secret), 1), WithUser(EMPTY, u, secret))
    ensures Next(v, WithUser(EMPTY, u, secret), Native(CTX, CreateUser(w, secret), 1), Two(u, w, secret))
  {
    UserHappens(v, EMPTY, u, secret);
    UserHappens(v, WithUser(EMPTY, u, secret), w, secret);
  }

  lemma TwoUsers(u: string, w: string, secret: string)
    ensures Two(u, w, secret).mem.users == map[u := Credential(u, secret, ZERO_TIME, "", ACCOUNT_ON, "", []),
                                               w := Credential(w, secret, ZERO_TIME, "", ACCOUNT_ON, "", [])]
  {}

  lemma PlainUser(env: Env, g: Graph, u: string, secret: string)
    requires NewUserName(env, u) && u in g.users
             && g.users[u] == Credential(u, secret, ZERO_TIME, "", ACCOUNT_ON, "", [])
    requires forall k :: k in g.users ==> g.users[k].parentUser == ""
    ensures Plain(env, g, u)
  {}

  lemma LastingIsValid(w: string, secret: string)
    requires Utf8Len(w) >= 3 && Utf8Len(secret) >= 8
    ensures Credential(w, secret, ZERO_TIME, "", ACCOUNT_ON, "", []).IsValid(CTX.now)
  {}

  lemma PlayersOf(v: Server, g: Graph, u: string, w: string, secret: string, key: string, c: Credential)
    requires NewUserName(v.env, u) && NewUserName(v.env, w) && u != w && Utf8Len(secret) >= 8
    requires key !in {u, w} && c.IsTemp() && c.parentUser == u
    requires g.users == map[u := Credential(u, secret, ZERO_TIME, "", ACCOUNT_ON, "", []),
                            w := Credential(w, secret, ZERO_TIME, "", ACCOUNT_ON, "", [])]
    ensures Players(v, g, u, w, key, c)
  {
    PlainUser(v.env, g, u, secret);
    PlainUser(v.env, g, w, secret);
    LastingIsValid(w, secret);
  }

  lemma TwoRun(v: Server, u: string, w: string, secret: string)
    requires NewUserName(v.env, u) && NewUserName(v.env, w) && u != w && 8 <= Utf8Len(secret) <= 128
    ensures Run(v, [EMPTY, WithUser(EMPTY, u, secret), Two(u, w, secret)],
                [Native(CTX, CreateUser(u, secret), 1), Native(CTX, CreateUser(w, secret), 1)])
  {
    TwoHappen(v, u, w, secret);
  }

  /** Main instance: the whole run from the empty store, up to the credential that has lost its parent. */
  lemma OrphaningRun(v: Server, u: string, w: string, secret: string, key: string, c: Credential, now: int)
    returns (states: seq<State>, events: seq<Event>)
    requires NewUserName(v.env, u) && NewUserName(v.env, w) && u != w && 8 <= Utf8Len(secret) <= 128
    requires key !in {u, w} && c.IsTemp() && c.parentUser == u
    requires Bounded(v, Two(u, w, secret), u, w, key, c)
    ensures Run(v, states, events) && |states| == 7 && states[0] == EMPTY
    ensures key in states[6].mem.users && !Orphan(states[5].mem, key) && Orphan(states[6].mem, key)
    ensures !Sound(states[5].mem, states[6].mem, now, SortedOf(Reached(states[5].mem, {w})))
  {
    var s := Two(u, w, secret);
    TwoUsers(u, w, secret);
    PlayersOf(v, s.mem, u, w, secret, key, c);
    TwoRun(v, u, w, secret);
    var later := DeletionOrphans(v, s, u, w, key, c);
    Stripped(v, s, u, w, key, c);
    Unreported(v, s, u, w, key, c, now);
    states, events := SevenStates(v, EMPTY, WithUser(EMPTY, u, secret), s,
                                  [Native(CTX, CreateUser(u, secret), 1), Native(CTX, CreateUser(w, secret), 1)],
                                  AfterFirst(s, u), AfterIssue(s, u, key, c), AfterService(s, u, key, c, w),
                                  AfterSecond(s, u, key, c, w), later);
  }

  lemma SevenStates(v: Server, s0: State, s1: State, s: State, start: seq<Event>, s3: State, s4: State, s5: State,
                    s6: State,
                    later: seq<Event>) returns (states: seq<State>, events: seq<Event>)
    requires Run(v, [s0, s1, s], start) && Run(v, [s, s3, s4, s5, s6], later)
    ensures Run(v, states, events) && states == [s0, s1, s, s3, s4, s5, s6]
  {
    RunsJoin(v, [s0, s1, s], start, [s, s3, s4, s5, s6], later);
    states, events := [s0, s1, s] + [s, s3, s4, s5, s6][1..], start + later;
  }

  lemma GroupsReachable(v: Server, u: string, w: string, one: string, two: string, secret: string)
    requires Cast(v, u, w, one, two, secret)
    ensures var s2 := Two(u, w, secret);
            && Next(v, s2, Native(CTX, CreateGroup(one, [u]), 1), WithGroup(s2, one, u))
            && Next(v, WithGroup(s2, one, u), Native(CTX, CreateGroup(two, [w]), 1), Four(u, w, one, two, secret))
  {
    var s2 := Two(u, w, secret);
    GroupHappens(v, s2, one, u);
    GroupHappens(v, WithGroup(s2, one, u), two, w);
  }

  lemma FourShape(v: Server, u: string, w: string, one: string, two: string, secret: string)
    requires Cast(v, u, w, one, two, secret)
    ensures var g := Four(u, w, one, two, secret).mem;
            && g.users == map[u := Credential(u, secret, ZERO_TIME, "", ACCOUNT_ON, "", []),
                              w := Credential(w, secret, ZERO_TIME, "", ACCOUNT_ON, "", [])]
            && g.groups == map[one := GroupInfo(STATUS_ENABLED, [u]), two := GroupInfo(STATUS_ENABLED, [w])]
            && g.memberships == map[u := {one}, w := {two}]
  {
    JoinAbsent(map[], one, u);
    JoinAbsent(map[u := {one}], two, w);
  }

  lemma JoinAbsent(index: map<string, set<string>>, group: string, user: string)
    requires user !in index
    ensures Rejoined(index, group, {user}, {}) == index[user := {group}]
  {
    var after := Rejoined(index, group, {user}, {});
    assert after.Keys == index.Keys + {user};
    assert after[user] == {} + {group} == {group};
  }

  function Opening(u: string, w: string, one: string, two: string, secret: string): seq<Event> {
    [Native(CTX, CreateUser(u, secret), 1), Native(CTX, CreateUser(w, secret), 1),
     Native(CTX, CreateGroup(one, [u]), 1), Native(CTX, CreateGroup(two, [w]), 1)]
  }

  function OpeningStates(u: string, w: string, one: string, two: string, secret: string): seq<State> {
    [EMPTY, WithUser(EMPTY, u, secret), Two(u, w, secret), WithGroup(Two(u, w, secret), one, u),
     Four(u, w, one, two, secret)]
  }

  lemma FourSteps(v: Server, states: seq<State>, events: seq<Event>)
    requires |states| == 5 && |events| == 4 && Inv(states[0])
    requires Next(v, states[0], events[0], states[1]) && Next(v, states[1], events[1], states[2])
    requires Next(v, states[2], events[2], states[3]) && Next(v, states[3], events[3], states[4])
    requires Whole(events[0]) && Whole(events[1]) && Whole(events[2]) && Whole(events[3])
    ensures Run(v, states, events) && Inv(states[4])
  {
    RunKeepsInvariant(v, states, events, 4);
  }

  lemma OpeningRun(v: Server, u: string, w: string, one: string, two: string, secret: string)
    requires Cast(v, u, w, one, two, secret)
    ensures Run(v, OpeningStates(u, w, one, two, secret), Opening(u, w, one, two, secret))
    ensures Inv(Four(u, w, one, two, secret))
  {
    TwoHappen(v, u, w, secret);
    GroupsReachable(v, u, w, one, two, secret);
    EmptyInvariant();
    FourSteps(v, OpeningStates(u, w, one, two, secret), Opening(u, w, one, two, secret));
  }

  lemma EmptyInvariant()
    ensures Inv(EMPTY)
  {}

  lemma RunExtends(v: Server, states: seq<State>, events: seq<Event>, ev: Event, s: State)
    requires Run(v, states, events) && Next(v, states[|states| - 1], ev, s)
    ensures Run(v, states + [s], events + [ev])
  {}

  lemma FourReady(v: Server, u: string, w: string, one: string, two: string, secret: string)
    requires Cast(v, u, w, one, two, secret)
    ensures var g := Four(u, w, one, two, secret).mem;
            && two in g.groups && Distinct(g.groups[two].members) && u in g.users && g.users[u].IsRegular()
            && !g.Listed(u, two) && two !in g.Index(u) && u in g.memberships
  {
    FourShape(v, u, w, one, two, secret);
  }

  lemma AddDone(s: State, group: string, user: string)
    requires group in s.mem.groups
    ensures var t := Edited(s, AddMembers, group, user);
            group in t.mem.groups && t.mem.Listed(user, group) && t.mem.users == s.mem.users
  {
    assert user in (set m | m in s.mem.groups[group].members) + (set m | m in [user]);
  }

  lemma TwoMore(v: Server, states: seq<State>, events: seq<Event>, add: Event, s5: State, remove: Event, s6: State)
    returns (all: seq<State>, done: seq<Event>)
    requires Run(v, states, events) && |events| == 4 && Next(v, states[4], add, s5) && Next(v, s5, remove, s6)
    ensures Run(v, all, done) && |done| == 6 && done[4] == add && done[5] == remove
    ensures all[0] == states[0] && all[4] == states[4] && all[5] == s5 && all[6] == s6
  {
    RunExtends(v, states, events, add, s5);
    RunExtends(v, states + [s5], events + [add], remove, s6);
    all, done := states + [s5] + [s6], events + [add] + [remove];
  }

  lemma ClosingRun(v: Server, u: string, w: string, one: string, two: string, secret: string, s5: State, s6: State)
    returns (states: seq<State>, events: seq<Event>)
    requires Cast(v, u, w, one, two, secret)
    requires Next(v, Four(u, w, one, two, secret), Edit(v.env, Four(u, w, one, two, secret).mem, AddMembers, two, u),
                  s5)
    requires Next(v, s5, Edit(v.env, s5.mem, RemoveMembers, two, u), s6)
    ensures Run(v, states, events) && |events| == 6
    ensures states[0] == EMPTY && states[4] == Four(u, w, one, two, secret) && states[5] == s5 && states[6] == s6
    ensures AddsThenRemoves(events, 4, two, [u])
  {
    OpeningRun(v, u, w, one, two, secret);
    states, events := TwoMore(v, OpeningStates(u, w, one, two, secret), Opening(u, w, one, two, secret),
                              Edit(v.env, Four(u, w, one, two, secret).mem, AddMembers, two, u), s5,
                              Edit(v.env, s5.mem, RemoveMembers, two, u), s6);
  }

  lemma EditsHappen(v: Server, s: State, group: string, user: string)
    requires Inv(s) && group in s.mem.groups && ValidName(group) && Tokenable(v.env, s.mem)
    requires ValidName(user) && user in s.mem.users && s.mem.users[user].IsRegular()
    requires Tokenable(v.env, Edited(s, AddMembers, group, user).mem)
    ensures var t := Edited(s, AddMembers, group, user);
            && group in t.mem.groups
            && Next(v, s, Edit(v.env, s.mem, AddMembers, group, user), t)
            && Next(v, t, Edit(v.env, t.mem, RemoveMembers, group, user), Edited(t, RemoveMembers, group, user))
  {
    var t := Edited(s, AddMembers, group, user);
    AddDone(s, group, user);
    EditHappens(v, s, AddMembers, group, user);
    StepKeepsInvariantExactly(v, s, Edit(v.env, s.mem, AddMembers, group, user), t);
    EditHappens(v, t, RemoveMembers, group, user);
  }

  lemma TwoEdits(v: Server, u: string, w: string, one: string, two: string, secret: string)
      returns (s5: State, s6: State)
    requires Cast(v, u, w, one, two, secret)
    requires var s4 := Four(u, w, one, two, secret);
             Tokenable(v.env, s4.mem) && two in s4.mem.groups && Tokenable(v.env, Edited(s4, AddMembers, two, u).mem)
    ensures Next(v, Four(u, w, one, two, secret), Edit(v.env, Four(u, w, one, two, secret).mem, AddMembers, two, u), s5)
    ensures Next(v, s5, Edit(v.env, s5.mem, RemoveMembers, two, u), s6)
    ensures s5.mem.Listed(u, two)
  {
    var s4 := Four(u, w, one, two, secret);
    OpeningRun(v, u, w, one, two, secret);
    FourReady(v, u, w, one, two, secret);
    EditsHappen(v, s4, two, u);
    AddDone(s4, two, u);
    s5 := Edited(s4, AddMembers, two, u);
    s6 := Edited(s5, RemoveMembers, two, u);
  }

  lemma OneReturns(h: Hashing, v: Server, states: seq<State>, events: seq<Event>, group: string, user: string,
                   kind: Kind, target: string, expires: int)
    requires Collisionless(h, v.env) && Run(v, states, events) && |events| == 6
             && AddsThenRemoves(events, 4, group, [user])
    requires !states[4].mem.Listed(user, group) && group !in states[4].mem.Index(user)
             && user in states[4].mem.memberships
    requires group in states[4].mem.groups && Distinct(states[4].mem.groups[group].members)
    ensures TokenOf(v.env, states[6].mem, kind, target, expires) == TokenOf(v.env, states[4].mem, kind, target, expires)
  {
    MembershipRoundTrip(h, v, states, events, 4, group, [user], kind, target, expires);
  }

  /** Main instance: a run from the empty store, of accepted and committed requests only, after which the tokens of an
      earlier state are valid again although a membership was granted and withdrawn in between. */
  lemma TokenReturns(h: Hashing, v: Server, u: string, w: string, one: string, two: string, secret: string,
                     kind: Kind, target: string, expires: int)
    returns (states: seq<State>, events: seq<Event>)
    requires Collisionless(h, v.env) && Cast(v, u, w, one, two, secret)
    requires var s4 := Four(u, w, one, two, secret);
             Tokenable(v.env, s4.mem) && two in s4.mem.groups && Tokenable(v.env, Edited(s4, AddMembers, two, u).mem)
    ensures Run(v, states, events) && |events| == 6 && states[0] == EMPTY && AddsThenRemoves(events, 4, two, [u])
    ensures !states[4].mem.Listed(u, two) && states[5].mem.Listed(u, two)
    ensures TokenOf(v.env, states[6].mem, kind, target, expires) == TokenOf(v.env, states[4].mem, kind, target, expires)
  {
    var s5, s6 := TwoEdits(v, u, w, one, two, secret);
    states, events := ClosingRun(v, u, w, one, two, secret, s5, s6);
    FourReady(v, u, w, one, two, secret);
    OneReturns(h, v, states, events, two, u, kind, target, expires);
  }
}
