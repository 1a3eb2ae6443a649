/**
 The IAM subsystem as the server runs it: mutable maps under one lock, a store whose calls may
 fail, and the request handlers that change both. Each handler is proved to perform a prefix
 of the plan its request stands for, and so to keep the invariant at every exit.
 */
module IamSys {
  import opened Lex
  import opened IamGraph
  import opened IamPlans
  import opened IamRequests
  import opened IamSafety
  import opened IamImpact
  import opened IamLoad
  import opened IamRuns

  /** Outcome of a persistence call; a failed call has no effect. */
  datatype Stored = Done | Missing | Failed

  lemma ApplyAllSnoc(s: State, steps: seq<Step>, step: Step)
    ensures ApplyAll(s, steps + [step]) == Apply(ApplyAll(s, steps), step)
  {
    ApplyAllConcat(s, steps, [step]);
    assert [step][1..] == [];
  }

  lemma LeavePlanAt(g: Graph, user: string, groups: seq<string>, i: nat)
    requires i < |groups| && forall n :: n in groups ==> n in g.groups
    ensures |LeavePlan(g, user, groups)| == |groups|
    ensures LeavePlan(g, user, groups)[i] == LeaveStep(g, user, groups[i])
    ensures LeavePlan(g, user, groups)[..i + 1] == LeavePlan(g, user, groups)[..i] + [LeaveStep(g, user, groups[i])]
  {
    if i > 0 { LeavePlanAt(g, user, groups[1..], i - 1); }
    else if |groups| > 1 { LeavePlanAt(g, user, groups[1..], 0); }
  }

  lemma {:induction false} LeavePlanLength(g: Graph, user: string, groups: seq<string>)
    requires forall n :: n in groups ==> n in g.groups
    ensures |LeavePlan(g, user, groups)| == |groups|
  {
    if groups != [] { LeavePlanLength(g, user, groups[1..]); }
  }

  ghost predicate AllUsers(g: Graph, keys: seq<string>) { forall k :: k in keys ==> k in g.users }

  lemma UsersInParts(g: Graph, a: seq<string>, b: seq<string>)
    ensures AllUsers(g, a + b) <==> AllUsers(g, a) && AllUsers(g, b)
  {
    assert forall k :: k in a + b <==> k in a || k in b;
  }

  lemma {:induction false} ChildPlanConcat(g: Graph, a: seq<string>, b: seq<string>)
    requires AllUsers(g, a + b)
    ensures AllUsers(g, a) && AllUsers(g, b)
    ensures ChildPlan(g, a + b) == ChildPlan(g, a) + ChildPlan(g, b)
  {
    UsersInParts(g, a, b);
    if a == [] {
      assert a + b == b;
    } else {
      assert (a + b)[1..] == a[1..] + b;
      ChildPlanConcat(g, a[1..], b);
    }
  }

  class IamSystem {
    const env: Env
    const claims: Credential -> bool

    // In memory, guarded by the store lock.
    var epoch: nat
    var users: map<string, Credential>
    var groups: map<string, GroupInfo>
    var userPolicies: map<string, Policies>
    var groupPolicies: map<string, Policies>
    var documents: map<string, Document>
    var memberships: map<string, set<string>>

    // Persisted.
    var identities: map<Slot, Credential>
    var mappings: map<Slot, Policies>
    var groupRecords: map<string, GroupInfo>
    var groupMappings: map<string, Policies>

    function Mem(): Graph
      reads this
    {
      Graph(epoch, users, groups, userPolicies, groupPolicies, documents, memberships)
    }

    function Now(): State
      reads this
    {
      State(Mem(), Disk(identities, mappings, groupRecords, groupMappings))
    }

    constructor (env: Env, claims: Credential -> bool)
      ensures this.env == env && this.claims == claims
      ensures Now() == EMPTY && Inv(Now())
    {
      this.env, this.claims := env, claims;
      epoch, users, groups := 0, map[], map[];
      userPolicies, groupPolicies, documents, memberships := map[], map[], map[], map[];
      identities, mappings, groupRecords, groupMappings := map[], map[], map[], map[];
    }

    // ---- The store ----

    method SaveUserIdentity(kind: UserType, key: string, credential: Credential) returns (r: Stored)
      modifies this`identities
      ensures r == Done || r == Failed
      ensures identities == if r == Done then old(identities)[Slot(kind, key) := credential] else old(identities)
    {
      r := *;
      if r != Done { return Failed; }
      identities := identities[Slot(kind, key) := credential];
    }

    method DeleteUserIdentity(kind: UserType, key: string) returns (r: Stored)
      modifies this`identities
      ensures r == Missing ==> Slot(kind, key) !in old(identities)
      ensures identities == if r == Failed then old(identities) else old(identities) - {Slot(kind, key)}
    {
      r := *;
      if r == Failed { return; }
      r := if Slot(kind, key) in identities then Done else Missing;
      identities := identities - {Slot(kind, key)};
    }

    method SaveMappedPolicy(kind: UserType, key: string, policies: Policies) returns (r: Stored)
      modifies this`mappings
      ensures r == Done || r == Failed
      ensures mappings == if r == Done then old(mappings)[Slot(kind, key) := policies] else old(mappings)
    {
      r := *;
      if r != Done { return Failed; }
      mappings := mappings[Slot(kind, key) := policies];
    }

    method DeleteMappedPolicy(kind: UserType, key: string) returns (r: Stored)
      modifies this`mappings
      ensures r == Missing ==> Slot(kind, key) !in old(mappings)
      ensures mappings == if r == Failed then old(mappings) else old(mappings) - {Slot(kind, key)}
    {
      r := *;
      if r == Failed { return; }
      r := if Slot(kind, key) in mappings then Done else Missing;
      mappings := mappings - {Slot(kind, key)};
    }

    method SaveGroupInfo(name: string, info: GroupInfo) returns (r: Stored)
      modifies this`groupRecords
      ensures r == Done || r == Failed
      ensures groupRecords == if r == Done then old(groupRecords)[name := info] else old(groupRecords)
    {
      r := *;
      if r != Done { return Failed; }
      groupRecords := groupRecords[name := info];
    }

    method DeleteGroupInfo(name: string) returns (r: Stored)
      modifies this`groupRecords
      ensures r == Missing ==> name !in old(groupRecords)
      ensures groupRecords == if r == Failed then old(groupRecords) else old(groupRecords) - {name}
    {
      r := *;
      if r == Failed { return; }
      r := if name in groupRecords then Done else Missing;
      groupRecords := groupRecords - {name};
    }

    method SaveGroupMapping(name: string, policies: Policies) returns (r: Stored)
      modifies this`groupMappings
      ensures r == Done || r == Failed
      ensures groupMappings == if r == Done then old(groupMappings)[name := policies] else old(groupMappings)
    {
      r := *;
      if r != Done { return Failed; }
      groupMappings := groupMappings[name := policies];
    }

    method DeleteGroupMapping(name: string) returns (r: Stored)
      modifies this`groupMappings
      ensures r == Missing ==> name !in old(groupMappings)
      ensures groupMappings == if r == Failed then old(groupMappings) else old(groupMappings) - {name}
    {
      r := *;
      if r == Failed { return; }
      r := if name in groupMappings then Done else Missing;
      groupMappings := groupMappings - {name};
    }

    // ---- Starting on an existing store ----

    /** Reads the identities of one kind. An expired one is deleted from disk with its mapping, as far as that
        succeeds; `ids` and `maps` are the records that went. */
    method LoadUsers(now: int, kind: UserType)
        returns (found: map<string, Credential>, ghost ids: set<Slot>, ghost maps: set<Slot>)
      modifies this`identities, this`mappings
      ensures found == LoadedUsers(now, old(identities), kind)
      ensures ids <= ExpiredOf(now, old(identities), kind) && maps <= ExpiredOf(now, old(identities), kind)
      ensures identities == old(identities) - ids && mappings == old(mappings) - maps
    {
      found, ids, maps := map[], {}, {};
      var todo := identities.Keys;
      ghost var all, was, seen := identities, mappings, {};
      assert all == all - ids && was == was - maps;
      while todo != {}
        invariant Reading(now, all, kind, todo, seen, found)
        invariant identities == all - ids && mappings == was - maps && ids <= seen && maps <= seen && seen !! todo
        decreases todo
      {
        var slot :| slot in todo;
        if slot.kind != kind {
          ReadOther(now, all, kind, todo, seen, found, slot);
        } else if identities[slot].IsExpired(now) {
          ReadExpired(now, all, kind, todo, seen, found, slot);
          MinusTwice(all, ids, {slot});
          MinusTwice(was, maps, {slot});
          var r := DeleteUserIdentity(kind, slot.name);
          if r != Failed { ids := ids + {slot}; }
          r := DeleteMappedPolicy(kind, slot.name);
          if r != Failed { maps := maps + {slot}; }
          seen := seen + {slot};
        } else {
          ReadAlive(now, all, kind, todo, seen, found, slot);
          found := found[slot.name := Keyed(slot.name, identities[slot])];
        }
        todo := todo - {slot};
      }
      ReadAll(now, all, kind, seen, found);
    }

    method LoadMappings(kind: UserType) returns (found: map<string, Policies>)
      ensures found == LoadedMappings(mappings, kind)
    {
      found := map[];
      var todo := mappings.Keys;
      while todo != {}
        invariant todo <= mappings.Keys
        invariant forall n :: n in found <==> Slot(kind, n) in mappings && Slot(kind, n) !in todo
        invariant forall n :: n in found ==> found[n] == mappings[Slot(kind, n)]
        decreases todo
      {
        var slot :| slot in todo;
        todo := todo - {slot};
        if slot.kind == kind { found := found[slot.name := mappings[slot]]; }
      }
      forall n ensures n in found <==> n in LoadedMappings(mappings, kind) { MappedAt(mappings, kind, n); }
    }

    /** Adds each group to the index of its members. */
    method BuildMemberships()
      modifies this`memberships
      ensures memberships == Indexed(old(memberships), groups)
    {
      var todo := groups.Keys;
      ghost var was := memberships;
      assert groups - todo == map[];
      IndexedNone(was);
      while todo != {}
        invariant todo <= groups.Keys && memberships == Indexed(was, groups - todo)
        decreases todo
      {
        var name :| name in todo;
        IndexedOne(was, groups, todo, name);
        IndexMembers(name, groups[name].members, true);
        todo := todo - {name};
      }
      assert groups - todo == groups;
    }

    /** The users of all kinds and their mappings, read in the order of the code. */
    method LoadIdentities(now: int)
      returns (found: map<string, Credential>, mapped: map<string, Policies>, ghost stuck: Stuck)
      modifies this`identities, this`mappings
      ensures found == EveryUser(now, old(Now().disk)) && mapped == EveryMapping(mappings)
      ensures identities == Purged(now, old(Now().disk), stuck).identities
      ensures mappings == Purged(now, old(Now().disk), stuck).mappings
      ensures documents == old(documents) && groupRecords == old(groupRecords) && groupMappings == old(groupMappings)
    {
      ghost var d := Now().disk;
      ghost var a, b, c, x, y, z;
      var regular, service, temporary;
      regular, a, x := LoadUsers(now, Regular);
      var mappedRegular := LoadMappings(Regular);
      service, b, y := LoadUsers(now, Service);
      temporary, c, z := LoadUsers(now, Sts);
      var mappedTemporary := LoadMappings(Sts);
      ReadInOrder(now, d, a, b, c, x, y, z);
      found, mapped := regular + service + temporary, mappedRegular + mappedTemporary;
      stuck := Remaining(now, d, a + b + c, x + y + z);
    }

    /** Puts what was read in place, with the groups and the index built from them. */
    method Install(found: map<string, Credential>, mapped: map<string, Policies>)
      modifies this`epoch, this`users, this`userPolicies, this`groups, this`groupPolicies, this`memberships
      ensures epoch == 0 && users == found && userPolicies == mapped
      ensures groups == old(groupRecords) && groupPolicies == old(groupMappings)
      ensures memberships == Indexed(map[], old(groupRecords)) && documents == old(documents)
    {
      epoch, users, userPolicies := 0, found, mapped;
      groups, groupPolicies, memberships := groupRecords, groupMappings, map[];
      BuildMemberships();
    }

    /** A new process on the same store. */
    method Restart(now: int) returns (ghost stuck: Stuck)
      modifies this
      ensures Now() == Reloaded(now, old(Now()), stuck)
    {
      var found, mapped;
      found, mapped, stuck := LoadIdentities(now);
      Install(found, mapped);
    }

    /** Issues a temporary credential: its mapping first, then its identity. `done` counts the calls that succeeded. */
    method IssueTemporary(key: string, credential: Credential, policies: Policies) returns (done: nat, ok: bool)
      modifies this
      ensures done <= IssueCalls(policies) && (ok <==> done == IssueCalls(policies))
      ensures Now() == Issued(old(Now()), key, credential, policies, done)
    {
      done, ok := 0, true;
      if policies != [] {
        var r := SaveMappedPolicy(Sts, key, policies);
        if r == Failed { return 0, false; }
        userPolicies := userPolicies[key := policies];
        done := 1;
      }
      var r := SaveUserIdentity(Sts, key, credential);
      if r == Failed { return done, false; }
      users := users[key := credential];
      done := done + 1;
    }

    // ---- Reading the graph ----

    /** Every credential below the given users, gathered in map order and sorted. */
    method Affected(parents: set<string>) returns (keys: seq<string>)
      ensures keys == SortedOf(Reached(Mem(), parents))
    {
      var raw, todo := [], users.Keys;
      while todo != {}
        invariant todo <= users.Keys
        invariant Distinct(raw)
        invariant forall k :: k in raw <==> k in Reached(Mem(), parents) && k !in todo
        decreases todo
      {
        var k :| k in todo;
        todo := todo - {k};
        if k in parents || (users[k].parentUser != "" && users[k].parentUser in parents) {
          raw := raw + [k];
        }
      }
      keys := SortBy(Self, raw);
      SortEnumerates(raw, Reached(Mem(), parents));
    }

    method GroupParents(target: string) returns (parents: set<string>, ok: bool)
      requires target in groups
      ensures ok <==> GroupClosed(Mem(), target)
      ensures ok ==> parents == GroupUsers(Mem(), target)
    {
      parents, ok := {}, true;
      var members := groups[target].members;
      for i := 0 to |members|
        invariant ok && parents == set m | m in members[..i]
        invariant forall m :: m in members[..i] ==> m in users && users[m].IsRegular()
      {
        assert Mem().Listed(members[i], target);
        if members[i] !in users || !users[members[i]].IsRegular() { return parents, false; }
        parents := parents + {members[i]};
        assert members[..i + 1] == members[..i] + [members[i]];
      }
      assert members[..|members|] == members;
      var todo := memberships.Keys;
      ghost var listed := parents;
      while todo != {}
        invariant ok && todo <= memberships.Keys
        invariant forall u :: u in parents <==>
                    u in listed || (u in memberships && u !in todo && target in memberships[u])
        invariant forall u :: u in memberships && u !in todo && target in memberships[u] ==>
                    u in users && users[u].IsRegular()
        decreases todo
      {
        var u :| u in todo;
        todo := todo - {u};
        if target in memberships[u] {
          assert target in Mem().Index(u);
          if u !in users || !users[u].IsRegular() { return parents, false; }
          parents := parents + {u};
        }
      }
      forall u | Mem().Listed(u, target) || target in Mem().Index(u) ensures u in users && users[u].IsRegular() {}
    }

    /** The impact of a target: who would be affected by changing it. */
    method NativeRelationships(kind: Kind, target: string) returns (r: Result<seq<string>>)
      ensures r == Impact(env, Mem(), kind, target)
    {
      if !ValidName(target) { return Err(ActionNotAllowed); }
      if |users| + |groups| + |documents| + |memberships| > GRAPH_LIMIT { return Err(ActionNotAllowed); }
      match kind
      case UserKind =>
        if target !in users { return Err(NoSuchUser); }
        if !users[target].IsRegular() || target == env.root { return Err(ActionNotAllowed); }
        var keys := Affected({target});
        return Ok(keys);
      case GroupKind =>
        if target !in groups { return Err(NoSuchGroup); }
        var parents, ok := GroupParents(target);
        if !ok { return Err(ActionNotAllowed); }
        var keys := Affected(parents);
        return Ok(keys);
      case ServiceKind =>
        if target !in users { return Err(NoSuchUser); }
        if !users[target].IsServiceAccount() { return Err(ActionNotAllowed); }
        var parent := users[target].parentUser;
        if parent !in users || !users[parent].IsRegular() { return Err(ActionNotAllowed); }
        return Ok([target]);
    }

    method SortedListing(all: set<string>) returns (keys: seq<string>)
      ensures keys == SortedOf(all)
    {
      var raw, todo := [], all;
      while todo != {}
        invariant todo <= all && Distinct(raw)
        invariant forall k :: k in raw <==> k in all && k !in todo
        decreases todo
      {
        var k :| k in todo;
        todo := todo - {k};
        raw := raw + [k];
      }
      keys := SortBy(Self, raw);
      SortEnumerates(raw, all);
    }

    method MergeKeys(a: seq<string>, b: seq<string>) returns (keys: seq<string>)
      ensures keys == Union(a, b)
    {
      keys := SortedListing((set k | k in a) + (set k | k in b));
    }

    /** The linked credentials of a user, unless one of them is malformed. */
    method LinkedChildren(target: string) returns (children: seq<string>, ok: bool)
      ensures ok <==> forall k :: k in Children(Mem(), target) ==> !users[k].IsRegular()
      ensures ok ==> children == SortedOf(Children(Mem(), target))
    {
      var raw, todo := [], users.Keys;
      children, ok := [], true;
      while todo != {}
        invariant ok && todo <= users.Keys && Distinct(raw)
        invariant forall k :: k in raw <==> k in Children(Mem(), target) && k !in todo
        invariant forall k :: k in raw ==> k in users && !users[k].IsRegular()
        decreases todo
      {
        var k :| k in todo;
        todo := todo - {k};
        if users[k].parentUser == target {
          assert k in Children(Mem(), target);
          if users[k].IsRegular() { return [], false; }
          raw := raw + [k];
        }
      }
      children := SortBy(Self, raw);
      SortEnumerates(raw, Children(Mem(), target));
    }

    method HoldingGroups(target: string) returns (names: seq<string>)
      ensures names == SortedOf(Holding(Mem(), target))
    {
      var raw, todo := [], groups.Keys;
      while todo != {}
        invariant todo <= groups.Keys && Distinct(raw)
        invariant forall n :: n in raw <==> n in Holding(Mem(), target) && n !in todo
        decreases todo
      {
        var n :| n in todo;
        todo := todo - {n};
        if (target in memberships && n in memberships[target]) || target in groups[n].members {
          raw := raw + [n];
        }
      }
      names := SortBy(Self, raw);
      SortEnumerates(raw, Holding(Mem(), target));
    }

    // ---- One persistence call and the memory update that follows it ----

    method WriteIdentity(kind: UserType, key: string, credential: Credential, bump: bool) returns (ok: bool)
      modifies this
      ensures Now() == if ok then Apply(old(Now()), SaveIdentity(kind, key, credential, bump)) else old(Now())
    {
      var r := SaveUserIdentity(kind, key, credential);
      ok := r != Failed;
      if ok {
        users := users[key := credential];
        if bump { epoch := epoch + 1; }
      }
    }

    method RemoveIdentity(kind: UserType, key: string) returns (ok: bool)
      modifies this
      ensures Now() == if ok then Apply(old(Now()), DropIdentity(kind, key)) else old(Now())
    {
      var r := DeleteUserIdentity(kind, key);
      ok := r != Failed;
      if ok {
        users := users - {key};
        epoch := epoch + 1;
        userPolicies := userPolicies - {key};
        memberships := memberships - {key};
      }
    }

    method RemoveMapping(kind: UserType, key: string) returns (ok: bool)
      modifies this
      ensures Now() == if ok then Apply(old(Now()), DropMapping(kind, key)) else old(Now())
    {
      var r := DeleteMappedPolicy(kind, key);
      ok := r != Failed;
      if ok {
        userPolicies := userPolicies - {key};
        epoch := epoch + 1;
      }
    }

    method WriteDeparture(name: string, info: GroupInfo, user: string) returns (ok: bool)
      modifies this
      ensures Now() == if ok then Apply(old(Now()), LeaveGroup(name, info, user)) else old(Now())
    {
      var r := SaveGroupInfo(name, info);
      ok := r != Failed;
      if ok {
        groups := groups[name := info];
        epoch := epoch + 1;
        if user in memberships { memberships := memberships[user := memberships[user] - {name}]; }
      }
    }

    /** Adds the group to, or removes it from, the index of each named member in turn. */
    method IndexMembers(name: string, members: seq<string>, adding: bool)
      modifies this`memberships
      ensures var all := set m | m in members;
              memberships == Rejoined(old(memberships), name, if adding then all else {}, if adding then {} else all)
    {
      ghost var was := memberships;
      var seen := {};
      assert memberships == Rejoined(was, name, {}, {});
      for i := 0 to |members|
        invariant seen == set m | m in members[..i]
        invariant memberships == Rejoined(was, name, if adding then seen else {}, if adding then {} else seen)
      {
        var m := members[i];
        var current := if m in memberships then memberships[m] else {};
        assert members[..i + 1] == members[..i] + [m];
        if adding {
          JoinOne(was, name, seen, m);
          memberships := memberships[m := current + {name}];
        } else {
          LeaveOne(was, name, seen, m);
          memberships := memberships[m := current - {name}];
        }
        seen := seen + {m};
      }
      assert members[..|members|] == members;
    }

    /** Saves a group and then brings the index of the named members up to date. */
    method WriteGroup(name: string, info: GroupInfo, members: seq<string>, adding: bool, bump: bool) returns (ok: bool)
      modifies this
      ensures var all := set m | m in members;
              Now() == if ok then Apply(old(Now()), SaveGroup(name, info, if adding then all else {},
                                                              if adding then {} else all, bump))
                       else old(Now())
    {
      var r := SaveGroupInfo(name, info);
      ok := r != Failed;
      if ok {
        groups := groups[name := info];
        if bump { epoch := epoch + 1; }
        IndexMembers(name, members, adding);
      }
    }

    method RemoveGroupMapping(name: string) returns (ok: bool)
      modifies this
      ensures Now() == if ok then Apply(old(Now()), DropGroupMapping(name)) else old(Now())
    {
      var r := DeleteGroupMapping(name);
      ok := r != Failed;
      if ok { groupPolicies := groupPolicies - {name}; }
    }

    method PruneIndex(name: string)
      modifies this`memberships
      ensures memberships == Unlisted(old(memberships), name)
    {
      ghost var was := memberships;
      var todo := memberships.Keys;
      while todo != {}
        invariant todo <= was.Keys && memberships.Keys == was.Keys
        invariant forall u :: u in was ==> memberships[u] == if u in todo then was[u] else was[u] - {name}
        decreases todo
      {
        var u :| u in todo;
        todo := todo - {u};
        if name in memberships[u] { memberships := memberships[u := memberships[u] - {name}]; }
      }
    }

    method RemoveGroup(name: string) returns (ok: bool)
      modifies this
      ensures Now() == if ok then Apply(old(Now()), DropGroup(name)) else old(Now())
    {
      var r := DeleteGroupInfo(name);
      ok := r != Failed;
      if ok {
        groups := groups - {name};
        epoch := epoch + 1;
        PruneIndex(name);
      }
    }

    method WriteUserMapping(user: string, policies: Policies) returns (ok: bool)
      modifies this
      ensures Now() == if ok then Apply(old(Now()), SetUserMapping(user, policies)) else old(Now())
    {
      if policies == [] {
        var r := DeleteMappedPolicy(Regular, user);
        ok := r != Failed;
        if ok { userPolicies := userPolicies - {user}; }
      } else {
        var r := SaveMappedPolicy(Regular, user, policies);
        ok := r != Failed;
        if ok { userPolicies := userPolicies[user := policies]; }
      }
    }

    method WriteGroupMapping(name: string, policies: Policies) returns (ok: bool)
      modifies this
      ensures Now() == if ok then Apply(old(Now()), SetGroupMapping(name, policies)) else old(Now())
    {
      if policies == [] {
        var r := DeleteGroupMapping(name);
        ok := r != Failed;
        if ok { groupPolicies := groupPolicies - {name}; }
      } else {
        var r := SaveGroupMapping(name, policies);
        ok := r != Failed;
        if ok { groupPolicies := groupPolicies[name := policies]; }
      }
    }

    // ---- Deleting a user, phase by phase ----

    /** Takes the user out of each group; `done` counts the groups saved before a call failed. */
    method LeaveGroups(target: string, names: seq<string>) returns (done: nat, ok: bool)
      requires Distinct(names) && forall n :: n in names ==> n in groups
      modifies this
      ensures done <= |names| && (ok <==> done == |names|)
      ensures |LeavePlan(old(Mem()), target, names)| == |names|
      ensures Now() == ApplyAll(old(Now()), LeavePlan(old(Mem()), target, names)[..done])
    {
      done, ok := 0, true;
      ghost var g, plan := Mem(), LeavePlan(Mem(), target, names);
      LeavePlanLength(g, target, names);
      while done < |names|
        invariant done <= |names| && ok && |plan| == |names|
        invariant Now() == ApplyAll(old(Now()), plan[..done])
        invariant forall i :: done <= i < |names| ==> names[i] in groups && groups[names[i]] == g.groups[names[i]]
      {
        var name := names[done];
        LeavePlanAt(g, target, names, done);
        ApplyAllSnoc(old(Now()), plan[..done], plan[done]);
        ok := WriteDeparture(name, groups[name].(members := Without(groups[name].members, target)), target);
        if !ok { return; }
        done := done + 1;
      }
    }

    /** Removes one linked credential: its mapping if it has one, then its identity. */
    method DropChild(child: string) returns (done: nat, ok: bool)
      requires child in users
      modifies this
      ensures done <= |ChildSteps(old(Mem()), child)| && (ok <==> done == |ChildSteps(old(Mem()), child)|)
      ensures Now() == ApplyAll(old(Now()), ChildSteps(old(Mem()), child)[..done])
    {
      done, ok := 0, true;
      ghost var s, steps := Now(), ChildSteps(Mem(), child);
      var kind := if users[child].IsTemp() then Sts else Service;
      if child in userPolicies {
        ok := RemoveMapping(if kind == Sts then Sts else Regular, child);
        if !ok { return; }
        done := 1;
        ApplyAllSnoc(s, [], steps[0]);
        assert steps[..1] == [] + [steps[0]];
      }
      ApplyAllSnoc(s, steps[..done], steps[done]);
      assert steps[..done + 1] == steps[..done] + [steps[done]];
      ok := RemoveIdentity(kind, child);
      if ok { done := done + 1; }
    }

    method DropChildren(children: seq<string>) returns (done: nat, ok: bool)
      requires Distinct(children) && forall k :: k in children ==> k in users
      modifies this
      ensures done <= |ChildPlan(old(Mem()), children)| && (ok <==> done == |ChildPlan(old(Mem()), children)|)
      ensures Now() == ApplyAll(old(Now()), ChildPlan(old(Mem()), children)[..done])
    {
      done, ok := 0, true;
      ghost var s, g := Now(), Mem();
      var i := 0;
      while i < |children|
        invariant i <= |children| && ok && ChildProgress(s, g, children, i, done, Now())
      {
        ghost var s1 := Now();
        assert children[i..][0] == children[i];
        SameChildSteps(g, Mem(), children[i]);
        var n, more := DropChild(children[i]);
        ChildRound(s, s1, g, children, i, n);
        done := done + n;
        if !more { ok := false; return; }
        i := i + 1;
      }
      ChildrenDone(s, g, children, done, Now());
    }

    /** Removes the user's own mapping and identity. */
    method DropTarget(target: string) returns (done: nat, ok: bool)
      modifies this
      ensures done <= 2 && (ok <==> done == 2)
      ensures Now() == ApplyAll(old(Now()), [DropMapping(Regular, target), DropIdentity(Regular, target)][..done])
    {
      done := 0;
      ghost var s, steps := Now(), [DropMapping(Regular, target), DropIdentity(Regular, target)];
      ok := RemoveMapping(Regular, target);
      if !ok { return; }
      done := 1;
      ApplyAllSnoc(s, [], steps[0]);
      assert steps[..1] == [] + [steps[0]];
      ok := RemoveIdentity(Regular, target);
      if !ok { return; }
      done := 2;
      ApplyAllSnoc(s, [steps[0]], steps[1]);
      assert steps[..2] == [steps[0]] + [steps[1]];
    }

    /** The linked credentials, then the user. */
    method DropBelow(target: string, children: seq<string>) returns (done: nat, ok: bool)
      requires Distinct(children) && forall k :: k in children ==> k in users
      modifies this
      ensures var plan := ChildPlan(old(Mem()), children)
              + [DropMapping(Regular, target), DropIdentity(Regular, target)];
              done <= |plan| && (ok <==> done == |plan|) && Now() == ApplyAll(old(Now()), plan[..done])
    {
      ghost var s, b := Now(), ChildPlan(Mem(), children);
      ghost var c := [DropMapping(Regular, target), DropIdentity(Regular, target)];
      done, ok := DropChildren(children);
      CutInFirst(b, c, done);
      if !ok { return; }
      var n;
      n, ok := DropTarget(target);
      CutInSecond(s, b, c, n);
      done := done + n;
    }

    /** The groups, then what is below. */
    method DropAll(target: string, names: seq<string>, children: seq<string>) returns (done: nat, ok: bool)
      requires Distinct(names) && (forall n :: n in names ==> n in groups)
      requires Distinct(children) && forall k :: k in children ==> k in users
      modifies this
      ensures var plan := LeavePlan(old(Mem()), target, names)
                          + (ChildPlan(old(Mem()), children)
                            + [DropMapping(Regular, target), DropIdentity(Regular, target)]);
              done <= |plan| && (ok <==> done == |plan|) && Now() == ApplyAll(old(Now()), plan[..done])
    {
      ghost var s := Now();
      ghost var a := LeavePlan(s.mem, target, names);
      ghost var b := ChildPlan(s.mem, children) + [DropMapping(Regular, target), DropIdentity(Regular, target)];
      done, ok := LeaveGroups(target, names);
      CutInFirst(a, b, done);
      if !ok { return; }
      AfterLeaving(s, target, names, children);
      assert a[..done] == a;
      var n;
      n, ok := DropBelow(target, children);
      CutInSecond(s, a, b, n);
      done := done + n;
    }

    /** The whole cascade: groups, linked credentials, the user. */
    method DeleteCascade(target: string, children: seq<string>) returns (done: nat, ok: bool)
      requires children == SortedOf(Children(Mem(), target))
      modifies this
      ensures done <= |DeletePlan(old(Mem()), target)| && (ok <==> done == |DeletePlan(old(Mem()), target)|)
      ensures Now() == ApplyAll(old(Now()), DeletePlan(old(Mem()), target)[..done])
    {
      SortedOfEnumerates(Children(Mem(), target));
      SortedOfEnumerates(Holding(Mem(), target));
      var names := HoldingGroups(target);
      DeletePlanParts(Mem(), target);
      done, ok := DropAll(target, names, children);
    }

    // ---- Request handlers ----

    method MutateUser(ctx: Context, action: UserAction, target: string, draft: Draft)
      returns (r: Result<seq<string>>, done: nat)
      modifies this
      ensures Follows(old(Now()), Now(), UserPlan(env, old(Mem()), ctx, action, target, draft), done, r)
      ensures r.Ok? ==> r == Report(env, old(Mem()), Mem(), UserRequest(action, target, draft))
      ensures done > 0 && r.Err? ==> r.error == Committed
    {
      done := 0;
      ghost var s := Now();
      if !ValidName(target) { return Err(InvalidArgument), 0; }
      var checked := DraftCheck(env, Mem(), ctx, UserKind, target, draft);
      if checked.Err? { return Err(checked.error), 0; }
      var before := NativeRelationships(UserKind, target);
      if before.Err? { return before, 0; }
      if users[target].parentUser != "" { return Err(ActionNotAllowed), 0; }
      var children, wellFormed := LinkedChildren(target);
      if !wellFormed { return Err(ActionNotAllowed), 0; }
      ghost var plan := UserPlan(env, Mem(), ctx, action, target, draft);
      assert plan.Ok?;
      if action == DeleteUser {
        var ok;
        done, ok := DeleteCascade(target, children);
        if !ok { return Err(Committed), done; }
        r := before;
      } else {
        var status := if action == EnableUser then ACCOUNT_ON else ACCOUNT_OFF;
        var ok := WriteIdentity(Regular, target, users[target].(status := status), true);
        if !ok { return Err(Committed), 0; }
        done := 1;
        OneStepDone(s, plan.value);
        var after := NativeRelationships(UserKind, target);
        if after.Err? { return Err(Committed), done; }
        var keys := MergeKeys(before.value, after.value);
        r := Ok(keys);
      }
      var renewed := TokenOf(env, Mem(), UserKind, target, ctx.now + DRAFT_LIFETIME);
      if renewed.Err? { r := Err(Committed); }
    }

    /** The checks of a group request, up to the point where its effect is known. */
    method GroupPreflight(ctx: Context, action: GroupAction, target: string, members: seq<string>, draft: Draft)
      returns (r: Result<seq<string>>, names: seq<string>)
      ensures r.Err? ==> GroupPlan(env, Mem(), ctx, action, target, members, draft) == Err(r.error)
      ensures r.Ok? ==>
              && r == Impact(env, Mem(), GroupKind, target) && target in groups
              && (names == [] <==> !action.AddMembers? && !action.RemoveMembers?)
              && GroupPlan(env, Mem(), ctx, action, target, members, draft)
                 == GroupSteps(groups[target], action, target, names)
    {
      names := [];
      if !ValidName(target) || ((action.AddMembers? || action.RemoveMembers?) <==> members == []) {
        return Err(InvalidArgument), [];
      }
      var canonical := CanonicalBindings(members);
      if canonical.Err? { return canonical, []; }
      names := canonical.value;
      NoNames(members, names);
      var checked := DraftCheck(env, Mem(), ctx, GroupKind, target, draft);
      if checked.Err? { return Err(checked.error), []; }
      r := NativeRelationships(GroupKind, target);
      if r.Err? { return; }
      var known := MembersCheck(Mem(), names);
      if known.Err? { r := Err(known.error); }
    }

    /** The effect of a group request that passed its checks. */
    method PerformGroup(action: GroupAction, target: string, names: seq<string>, before: seq<string>, expires: int)
      returns (r: Result<seq<string>>, done: nat)
      requires Impact(env, Mem(), GroupKind, target) == Ok(before) && target in groups
      requires names == [] <==> !action.AddMembers? && !action.RemoveMembers?
      modifies this
      ensures Follows(old(Now()), Now(), GroupSteps(old(groups)[target], action, target, names), done, r)
      ensures r.Ok? && action.DeleteGroup? ==> r.value == before
      ensures r.Ok? && !action.DeleteGroup? ==>
              var after := Impact(env, Mem(), GroupKind, target); after.Ok? && r.value == Union(before, after.value)
    {
      done := 0;
      ghost var s := Now();
      if action == DeleteGroup {
        if groups[target].members != [] { return Err(GroupNotEmpty), 0; }
        var ok;
        done, ok := EraseGroup(target);
        if !ok { return Err(if done == 0 then StoreFailed else Committed), done; }
        r := Ok(before);
      } else {
        var ok := EditGroup(action, target, names);
        if !ok { return Err(StoreFailed), 0; }
        done := 1;
        OneStepDone(s, GroupSteps(s.mem.groups[target], action, target, names).value);
        var after := NativeRelationships(GroupKind, target);
        if after.Err? { return Err(Committed), done; }
        var keys := MergeKeys(before, after.value);
        r := Ok(keys);
      }
      var renewed := TokenOf(env, Mem(), GroupKind, target, expires);
      if renewed.Err? { r := Err(Committed); }
    }

    method MutateGroup(ctx: Context, action: GroupAction, target: string, members: seq<string>, draft: Draft)
      returns (r: Result<seq<string>>, done: nat)
      modifies this
      ensures Follows(old(Now()), Now(), GroupPlan(env, old(Mem()), ctx, action, target, members, draft), done, r)
      ensures r.Ok? ==> r == Report(env, old(Mem()), Mem(), GroupRequest(action, target, members, draft))
    {
      var before, names := GroupPreflight(ctx, action, target, members, draft);
      if before.Err? { return before, 0; }
      r, done := PerformGroup(action, target, names, before.value, ctx.now + DRAFT_LIFETIME);
    }

    method EraseGroup(target: string) returns (done: nat, ok: bool)
      modifies this
      ensures done <= 2 && (ok <==> done == 2)
      ensures Now() == ApplyAll(old(Now()), [DropGroupMapping(target), DropGroup(target)][..done])
    {
      done := 0;
      PrefixSteps(Now(), [DropGroupMapping(target), DropGroup(target)]);
      ok := RemoveGroupMapping(target);
      if !ok { return; }
      done := 1;
      ok := RemoveGroup(target);
      if ok { done := 2; }
    }

    method EditGroup(action: GroupAction, target: string, names: seq<string>) returns (ok: bool)
      requires target in groups && !action.DeleteGroup?
               && (names == [] <==> action.EnableGroup? || action.DisableGroup?)
      modifies this
      ensures Now()
              == if ok then Apply(old(Now()), GroupEdit(old(groups)[target], action, target, names)) else old(Now())
    {
      var listed := NewMembers(groups[target].members, names, action);
      var status := if action == EnableGroup then STATUS_ENABLED
                    else if action == DisableGroup then STATUS_DISABLED else groups[target].status;
      ok := WriteGroup(target, GroupInfo(status, listed), names, action == AddMembers, false);
    }

    /** The member list after the edit, gathered in a set and sorted. */
    method NewMembers(current: seq<string>, names: seq<string>, action: GroupAction) returns (listed: seq<string>)
      ensures var now, asked := (set m | m in current), (set m | m in names);
              listed == SortedOf(if action == AddMembers then now + asked
                                 else if action == RemoveMembers then now - asked else now)
    {
      var kept := set m | m in current;
      ghost var now := kept;
      for i := 0 to |names|
        invariant var asked := set m | m in names[..i];
                  kept == if action == AddMembers then now + asked
                          else if action == RemoveMembers then now - asked else now
      {
        assert names[..i + 1] == names[..i] + [names[i]];
        if action == AddMembers { kept := kept + {names[i]}; }
        if action == RemoveMembers { kept := kept - {names[i]}; }
      }
      assert names[..|names|] == names;
      listed := SortedListing(kept);
    }

    method CanonicalBindings(names: seq<string>) returns (r: Result<seq<string>>)
      ensures r == CanonicalNames(names)
    {
      if |names| > 100 { return Err(InvalidArgument); }
      var sorted := SortBy(Self, names);
      for i := 0 to |sorted|
        invariant forall j :: 0 <= j < i ==> ValidName(sorted[j]) && (j > 0 ==> sorted[j] != sorted[j - 1])
      {
        if !ValidName(sorted[i]) || (i > 0 && sorted[i] == sorted[i - 1]) { return Err(InvalidArgument); }
      }
      r := Ok(sorted);
    }

    method EraseService(target: string) returns (done: nat, ok: bool)
      modifies this
      ensures done <= 2 && (ok <==> done == 2)
      ensures Now() == ApplyAll(old(Now()), [DropMapping(Regular, target), DropIdentity(Service, target)][..done])
    {
      done := 0;
      PrefixSteps(Now(), [DropMapping(Regular, target), DropIdentity(Service, target)]);
      ok := RemoveMapping(Regular, target);
      if !ok { return; }
      done := 1;
      ok := RemoveIdentity(Service, target);
      if ok { done := 2; }
    }

    method ServicePreflight(ctx: Context, action: ServiceAction, target: string, draft: Draft)
      returns (r: Result<seq<string>>)
      ensures r.Err? ==> ServicePlan(env, claims, Mem(), ctx, action, target, draft) == Err(r.error)
      ensures r.Ok? ==>
              && r == Impact(env, Mem(), ServiceKind, target) && target in users
              && ServicePlan(env, claims, Mem(), ctx, action, target, draft)
                 == ServiceSteps(users[target], action, target)
    {
      if !ValidName(target) || (action.RotateService? && !ValidSecret(action.secret)) { return Err(InvalidArgument); }
      var checked := DraftCheck(env, Mem(), ctx, ServiceKind, target, draft);
      if checked.Err? { return Err(checked.error); }
      r := NativeRelationships(ServiceKind, target);
      if r.Err? { return; }
      if !claims(users[target]) { r := Err(ActionNotAllowed); }
    }

    method PerformService(action: ServiceAction, target: string, expires: int) returns (r: Result<bool>, done: nat)
      requires target in users
      modifies this
      ensures Follows(old(Now()), Now(), ServiceSteps(old(users)[target], action, target), done, r)
    {
      done := 0;
      ghost var s := Now();
      if action == DeleteService {
        var ok;
        done, ok := EraseService(target);
        if !ok { return Err(Committed), done; }
      } else {
        var edited := ServiceEdit(users[target], action);
        if edited.Err? { return Err(edited.error), 0; }
        OneStepDone(s, ServiceSteps(users[target], action, target).value);
        var ok := WriteIdentity(Service, target, edited.value, false);
        if !ok { return Err(StoreFailed), 0; }
        done := 1;
        if !claims(edited.value) { return Err(Committed), done; }
      }
      var renewed := TokenOf(env, Mem(), ServiceKind, target, expires);
      r := if renewed.Err? then Err(Committed) else Ok(true);
    }

    method MutateServiceAccount(ctx: Context, action: ServiceAction, target: string, draft: Draft)
      returns (r: Result<seq<string>>, done: nat)
      modifies this
      ensures Follows(old(Now()), Now(), ServicePlan(env, claims, old(Mem()), ctx, action, target, draft), done, r)
      ensures r.Ok? ==> r == Report(env, old(Mem()), Mem(), ServiceRequest(action, target, draft))
    {
      r := ServicePreflight(ctx, action, target, draft);
      if r.Err? { return r, 0; }
      var performed;
      performed, done := PerformService(action, target, ctx.now + DRAFT_LIFETIME);
      if performed.Err? { r := Err(performed.error); }
    }

    /** Sets or clears the direct mapping of a user or group, checking that the documents exist. */
    method SetPolicies(kind: Kind, target: string, policies: seq<string>) returns (r: Result<bool>, done: nat)
      requires kind != ServiceKind
      modifies this
      ensures Follows(old(Now()), Now(), MappingStep(old(Mem()), kind, target, policies), done, r)
    {
      done := 0;
      if kind == UserKind && target !in users { return Err(NoSuchUser), 0; }
      if kind == GroupKind && target !in groups { return Err(NoSuchGroup), 0; }
      for i := 0 to |policies|
        invariant Now() == old(Now())
        invariant forall j :: 0 <= j < i ==> policies[j] in documents
      {
        if policies[i] !in documents { return Err(NoSuchPolicy), 0; }
      }
      OneStepDone(Now(), MappingStep(Mem(), kind, target, policies).value);
      var ok;
      if kind == UserKind { ok := WriteUserMapping(target, policies); }
      else { ok := WriteGroupMapping(target, policies); }
      if ok { return Ok(true), 1; }
      r := Err(StoreFailed);
    }

    /** Whether a revision and a draft for the next request can be given out. */
    method Renews(kind: Kind, target: string, expires: int) returns (ok: bool) {
      var bindings := Bindings(env, Mem(), kind, target);
      var renewed := TokenOf(env, Mem(), kind, target, expires);
      ok := bindings.Ok? && renewed.Ok?;
    }

    /** Everything that is checked before the mapping changes. */
    method BindPreflight(ctx: Context, kind: Kind, target: string, binding: string, policies: seq<string>, draft: Draft)
      returns (r: Result<seq<string>>, names: seq<string>)
      ensures r.Err? ==> BindPlan(env, Mem(), ctx, kind, target, binding, policies, draft) == Err(r.error)
      ensures r.Ok? ==>
              && kind != ServiceKind && r == Impact(env, Mem(), kind, target)
              && BindPlan(env, Mem(), ctx, kind, target, binding, policies, draft)
                 == MappingStep(Mem(), kind, target, names)
    {
      names := [];
      var canonical := CanonicalBindings(policies);
      if canonical.Err? { return Err(canonical.error), []; }
      names := canonical.value;
      var checked := DraftCheck(env, Mem(), ctx, kind, target, draft);
      if checked.Err? { return Err(checked.error), []; }
      var current := Bindings(env, Mem(), kind, target);
      if current.Err? { return Err(current.error), []; }
      if current.value != binding { return Err(Conflict), []; }
      r := NativeRelationships(kind, target);
    }

    method Rebind(kind: Kind, target: string, policies: seq<string>, expires: int) returns (r: Result<bool>, done: nat)
      requires kind != ServiceKind
      modifies this
      ensures Follows(old(Now()), Now(), MappingStep(old(Mem()), kind, target, policies), done, r)
    {
      r, done := SetPolicies(kind, target, policies);
      if r.Err? { return; }
      var renewed := Renews(kind, target, expires);
      if !renewed { r := Err(Committed); }
    }

    method ReplaceRelationshipBindings(ctx: Context, kind: Kind, target: string, binding: string, policies: seq<string>,
                                       draft: Draft) returns (r: Result<seq<string>>, done: nat)
      modifies this
      ensures Follows(old(Now()), Now(), BindPlan(env, old(Mem()), ctx, kind, target, binding, policies, draft), done,
                      r)
      ensures r.Ok? ==> r == Report(env, old(Mem()), Mem(), BindRequest(kind, target, binding, policies, draft))
    {
      done := 0;
      var names;
      r, names := BindPreflight(ctx, kind, target, binding, policies, draft);
      if r.Err? { return; }
      var performed;
      performed, done := Rebind(kind, target, names, ctx.now + DRAFT_LIFETIME);
      BindingReported(env, old(Mem()), Mem(), kind, target, binding, policies, draft);
      if performed.Err? { r := Err(performed.error); }
    }

    method RotateUserSecret(ctx: Context, target: string, secret: string, binding: string, draft: Draft)
      returns (r: Result<seq<string>>, done: nat)
      modifies this
      ensures Follows(old(Now()), Now(), UserSecretPlan(env, old(Mem()), ctx, target, secret, binding, draft), done, r)
      ensures r.Ok? ==> r == Report(env, old(Mem()), Mem(), UserSecretRequest(target, secret, binding, draft))
    {
      done := 0;
      ghost var s := Now();
      if !ValidName(target) || !ValidSecret(secret) { return Err(InvalidArgument), 0; }
      var checked := DraftCheck(env, Mem(), ctx, UserKind, target, draft);
      if checked.Err? { return Err(checked.error), 0; }
      var current := Bindings(env, Mem(), UserKind, target);
      if current.Err? { return Err(current.error), 0; }
      if current.value != binding { return Err(Conflict), 0; }
      r := NativeRelationships(UserKind, target);
      if r.Err? { return r, 0; }
      if users[target].secretKey == secret { return Err(InvalidArgument), 0; }
      OneStepDone(s, UserSecretPlan(env, Mem(), ctx, target, secret, binding, draft).value);
      var ok := WriteIdentity(Regular, target, users[target].(secretKey := secret), true);
      if !ok { return Err(StoreFailed), 0; }
      done := 1;
      var renewed := Renews(UserKind, target, ctx.now + DRAFT_LIFETIME);
      if !renewed { r := Err(Committed); }
    }

    /** Replaces direct bindings against the revision of their target alone. */
    method ReplaceNativeBindings(ctx: Context, kind: Kind, target: string, binding: string, policies: seq<string>)
      returns (r: Result<string>, done: nat)
      modifies this
      ensures Follows(old(Now()), Now(), ReplacePlan(env, old(Mem()), ctx, kind, target, binding, policies), done, r)
      ensures r.Ok? ==> r == Bindings(env, Mem(), kind, target)
    {
      done := 0;
      var canonical := CanonicalBindings(policies);
      if canonical.Err? { return Err(canonical.error), 0; }
      if !ctx.authorized { return Err(ActionNotAllowed), 0; }
      var current := Bindings(env, Mem(), kind, target);
      if current.Err? { return current, 0; }
      if current.value != binding { return Err(Conflict), 0; }
      ghost var s := Now();
      var stored;
      stored, done := SetPolicies(kind, target, canonical.value);
      if stored.Err? { return Err(stored.error), done; }
      StillBound(env, s, kind, target, canonical.value);
      r := Bindings(env, Mem(), kind, target);
    }

    method RotateNativeSecret(ctx: Context, target: string, secret: string) returns (r: Result<bool>, done: nat)
      modifies this
      ensures Follows(old(Now()), Now(), RotateSecretPlan(env, old(Mem()), ctx, target, secret), done, r)
    {
      done := 0;
      ghost var s := Now();
      if !ValidName(target) || !ValidSecret(secret) { return Err(InvalidArgument), 0; }
      if !ctx.authorized { return Err(ActionNotAllowed), 0; }
      if target !in users { return Err(NoSuchUser), 0; }
      var c := users[target];
      if target == env.root || !c.IsRegular() { return Err(ActionNotAllowed), 0; }
      OneStepDone(s, RotateSecretPlan(env, Mem(), ctx, target, secret).value);
      var ok := WriteIdentity(Regular, target, c.(secretKey := secret), true);
      if !ok { return Err(StoreFailed), 0; }
      r, done := Ok(true), 1;
    }

    method CreateNativeGroup(ctx: Context, target: string, members: seq<string>) returns (r: Result<bool>, done: nat)
      modifies this
      ensures Follows(old(Now()), Now(), CreateGroupPlan(old(Mem()), ctx, target, members), done, r)
    {
      done := 0;
      ghost var s := Now();
      if !ValidName(target) || !ctx.authorized { return Err(ActionNotAllowed), 0; }
      if |members| > 100 { return Err(InvalidArgument), 0; }
      if target in groups { return Err(CreateExists), 0; }
      var canonical := CanonicalBindings(members);
      if canonical.Err? { return Err(canonical.error), 0; }
      var known := MembersCheck(Mem(), canonical.value);
      if known.Err? { return known, 0; }
      OneStepDone(s, CreateGroupPlan(Mem(), ctx, target, members).value);
      var ok := WriteGroup(target, GroupInfo(STATUS_ENABLED, canonical.value), canonical.value, true, true);
      if !ok { return Err(StoreFailed), 0; }
      r, done := Ok(true), 1;
    }

    method CreateNativeUser(ctx: Context, target: string, secret: string) returns (r: Result<bool>, done: nat)
      modifies this
      ensures Follows(old(Now()), Now(), CreateUserPlan(env, old(Mem()), ctx, target, secret), done, r)
    {
      done := 0;
      ghost var s := Now();
      if !ValidName(target) || !ctx.authorized { return Err(ActionNotAllowed), 0; }
      if target == env.root || Utf8Len(target) < 3 || Utf8Len(secret) < 8 || Utf8Len(secret) > 128 {
        return Err(InvalidArgument), 0;
      }
      if target in users { return Err(CreateExists), 0; }
      OneStepDone(s, CreateUserPlan(env, Mem(), ctx, target, secret).value);
      var ok := WriteIdentity(Regular, target, Credential(target, secret, ZERO_TIME, "", ACCOUNT_ON, "", []), true);
      if !ok { return Err(StoreFailed), 0; }
      r, done := Ok(true), 1;
    }

    method RotateSelfSecret(ctx: Context, target: string, expected: string, secret: string)
      returns (r: Result<bool>, done: nat)
      modifies this
      ensures Follows(old(Now()), Now(), RotateSelfPlan(env, old(Mem()), ctx, target, expected, secret), done, r)
    {
      done := 0;
      ghost var s := Now();
      if target == env.root || !ValidSecret(secret) { return Err(ActionNotAllowed), 0; }
      if target !in users { return Err(NoSuchUser), 0; }
      var c := users[target];
      if !c.IsRegular() || c.status == ACCOUNT_OFF || !c.IsValid(ctx.now) { return Err(ActionNotAllowed), 0; }
      if c.secretKey != expected { return Err(SelfSecretConflict), 0; }
      if !ctx.authorized { return Err(ActionNotAllowed), 0; }
      if secret == expected { return Err(InvalidArgument), 0; }
      OneStepDone(s, RotateSelfPlan(env, Mem(), ctx, target, expected, secret).value);
      var ok := WriteIdentity(Regular, target, c.(secretKey := secret), false);
      if !ok { return Err(StoreFailed), 0; }
      r, done := Ok(true), 1;
    }

    /** What the proof still has to match when the account is created. */
    method CheckProof(ctx: Context, proof: Proof, spec: ServiceSpec) returns (r: Result<bool>)
      ensures r.Err? ==> CreateServicePlan(env, Mem(), ctx, proof, spec) == Err(r.error)
      ensures r.Ok? ==>
              && proof.parent in users
              && CreateServicePlan(env, Mem(), ctx, proof, spec) == NewServicePlan(env, Mem(), ctx, proof.parent, spec)
    {
      if proof.draft.Ok? {
        r := DraftCheck(env, Mem(), ctx, UserKind, proof.parent, proof.draft.value);
        if r.Err? { return; }
      } else if !ctx.authorized {
        return Err(ActionNotAllowed);
      }
      if proof.epoch != epoch % EPOCH_MODULUS { return Err(ActionNotAllowed); }
      if spec.guardKey != proof.actorKey || spec.guardSecret != proof.actorSecret || proof.parent == "" {
        return Err(ActionNotAllowed);
      }
      if spec.caller != proof.actorKey { return Err(ActionNotAllowed); }
      if proof.parent !in users || users[proof.parent] != proof.parentCredential { return Err(ActionNotAllowed); }
      if !spec.contained { return Err(ActionNotAllowed); }
      r := Ok(true);
    }

    method CreateServiceAccount(ctx: Context, proof: Proof, spec: ServiceSpec) returns (r: Result<bool>, done: nat)
      modifies this
      ensures Follows(old(Now()), Now(), CreateServicePlan(env, old(Mem()), ctx, proof, spec), done, r)
    {
      done := 0;
      ghost var s := Now();
      r := CheckProof(ctx, proof, spec);
      if r.Err? { return r, 0; }
      var parent := users[proof.parent];
      if proof.parent == env.root || !parent.IsValid(ctx.now) || parent.status == ACCOUNT_OFF {
        return Err(ActionNotAllowed), 0;
      }
      if !parent.IsRegular() || parent.parentUser != "" { return Err(ActionNotAllowed), 0; }
      if spec.key != "" {
        if spec.key == env.root { return Err(ActionNotAllowed), 0; }
        if spec.key in users { return Err(CreateExists), 0; }
      }
      if spec.minted.Err? { return Err(spec.minted.error), 0; }
      var key := spec.minted.value.accessKey;
      if key == env.root { return Err(ActionNotAllowed), 0; }
      if key in users { return Err(CreateExists), 0; }
      var credential := Credential(key, spec.minted.value.secretKey, 0, spec.minted.value.sessionToken, ACCOUNT_ON,
                                   proof.parent, spec.groups);
      OneStepDone(s, NewServicePlan(env, Mem(), ctx, proof.parent, spec).value);
      var ok := WriteIdentity(Service, key, credential, false);
      if !ok { return Err(StoreFailed), 0; }
      r, done := Ok(true), 1;
    }
  }

  /** What a handler may have done: nothing if the request was refused, otherwise a prefix of its plan,
      and the whole plan if it reports success. */
  ghost predicate Follows<T>(before: State, after: State, plan: Result<seq<Step>>, done: nat, r: Result<T>) {
    match plan
    case Err(e) => r == Err(e) && done == 0 && after == before
    case Ok(steps) =>
      && done <= |steps| && after == ApplyAll(before, steps[..done])
      && (if r.Ok? then done == |steps| else r.error == Committed || (r.error == StoreFailed && done == 0))
  }

  lemma BindingReported(env: Env, g: Graph, g': Graph, kind: Kind, target: string, binding: string,
                        policies: seq<string>, draft: Draft)
    ensures Report(env, g, g', BindRequest(kind, target, binding, policies, draft)) == Impact(env, g, kind, target)
  {}

  lemma CutInFirst(a: seq<Step>, b: seq<Step>, n: nat)
    requires n <= |a|
    ensures (a + b)[..n] == a[..n]
  {}

  lemma CutInSecond(s: State, a: seq<Step>, b: seq<Step>, n: nat)
    requires n <= |b|
    ensures ApplyAll(s, (a + b)[..|a| + n]) == ApplyAll(ApplyAll(s, a), b[..n])
    ensures a[..|a|] == a
  {
    assert (a + b)[..|a| + n] == a + b[..n];
    ApplyAllConcat(s, a, b[..n]);
  }

  lemma {:induction false} ChildPlanFrame(g: Graph, g': Graph, children: seq<string>)
    requires g'.users == g.users && g'.userPolicies == g.userPolicies && forall k :: k in children ==> k in g.users
    ensures ChildPlan(g', children) == ChildPlan(g, children)
  {
    if children != [] { ChildPlanFrame(g, g', children[1..]); }
  }

  /** Leaving groups does not change what is to be done about the children. */
  lemma DeletePlanParts(g: Graph, target: string)
    ensures DeletePlan(g, target)
         == LeavePlan(g, target, SortedOf(Holding(g, target)))
            + (ChildPlan(g, SortedOf(Children(g, target)))
              + [DropMapping(Regular, target), DropIdentity(Regular, target)])
  {}

  lemma AfterLeaving(s: State, target: string, names: seq<string>, children: seq<string>)
    requires Distinct(names) && forall n :: n in names ==> n in s.mem.groups
    requires forall k :: k in children ==> k in s.mem.users
    ensures var g' := ApplyAll(s, LeavePlan(s.mem, target, names)).mem;
            (forall k :: k in children ==> k in g'.users) && ChildPlan(g', children) == ChildPlan(s.mem, children)
  {
    GroupsLeft(s.mem, s, target, names);
    ChildPlanFrame(s.mem, ApplyAll(s, LeavePlan(s.mem, target, names)).mem, children);
  }

  lemma OneStepDone(s: State, plan: seq<Step>)
    ensures |plan| >= 1 ==> ApplyAll(s, plan[..1]) == Apply(s, plan[0])
    ensures |plan| == 1 ==> ApplyAll(s, plan) == Apply(s, plan[0])
  {}

  lemma StillBound(env: Env, s: State, kind: Kind, target: string, policies: seq<string>)
    requires Bindings(env, s.mem, kind, target).Ok? && kind != ServiceKind
             && MappingStep(s.mem, kind, target, policies).Ok?
    ensures |MappingStep(s.mem, kind, target, policies).value| == 1
    ensures Bindings(env, ApplyAll(s, MappingStep(s.mem, kind, target, policies).value).mem, kind, target).Ok?
    ensures ApplyAll(s, MappingStep(s.mem, kind, target, policies).value[..1])
         == ApplyAll(s, MappingStep(s.mem, kind, target, policies).value)
  {
    var plan := MappingStep(s.mem, kind, target, policies).value;
    OneStepDone(s, plan);
    assert plan[..1] == plan;
  }

  lemma PrefixSteps(s: State, plan: seq<Step>)
    requires |plan| == 2
    ensures ApplyAll(s, plan[..1]) == Apply(s, plan[0])
    ensures ApplyAll(s, plan[..2]) == Apply(Apply(s, plan[0]), plan[1])
  {
    OneStepDone(s, plan);
    assert plan[..2] == [plan[0]] + [plan[1]];
    ApplyAllSnoc(s, [plan[0]], plan[1]);
    assert plan[..1] == [plan[0]];
  }

  /** However a handler ends, and whatever it reports, the invariant it started from still holds. */
  lemma HandlersKeepInvariant<T>(env: Env, claims: Credential -> bool, s: State, t: State, ctx: Context,
                                 request: Request,
                                 done: nat, r: Result<T>)
    requires Inv(s) && Follows(s, t, Plan(env, claims, s.mem, ctx, request), done, r)
    ensures Inv(t)
  {
    if Plan(env, claims, s.mem, ctx, request).Ok? { EveryExitKeepsInvariant(env, claims, s, ctx, request, done); }
  }

  lemma NoNames(members: seq<string>, names: seq<string>)
    requires names == SortBy(Self, members)
    ensures members == [] <==> names == []
  {}

  lemma JoinOne(index: map<string, set<string>>, name: string, seen: set<string>, m: string)
    ensures var was := Rejoined(index, name, seen, {});
            was[m := GroupsOf(was, m) + {name}] == Rejoined(index, name, seen + {m}, {})
  {}

  lemma LeaveOne(index: map<string, set<string>>, name: string, seen: set<string>, m: string)
    ensures var was := Rejoined(index, name, {}, seen);
            was[m := GroupsOf(was, m) - {name}] == Rejoined(index, name, {}, seen + {m})
  {
    var was, all := Rejoined(index, name, {}, seen), Rejoined(index, name, {}, seen + {m});
    assert all.Keys == was.Keys + {m};
    assert GroupsOf(was, m) - {name} == all[m];
  }

  ghost predicate Untouched(g: Graph, g': Graph, children: seq<string>) {
    forall k :: k in children ==> SameChild(g, g', k)
  }

  /** The first i children are gone and nothing else has been done. */
  ghost predicate ChildProgress(s: State, g: Graph, children: seq<string>, i: nat, done: nat, now: State) {
    && i <= |children| && (forall k :: k in children[..i] ==> k in g.users)
    && done == |ChildPlan(g, children[..i])| && now == ApplyAll(s, ChildPlan(g, children[..i]))
    && Untouched(g, now.mem, children[i..])
  }

  lemma ChildrenDone(s: State, g: Graph, children: seq<string>, done: nat, now: State)
    requires ChildProgress(s, g, children, |children|, done, now)
    ensures forall k :: k in children ==> k in g.users
    ensures done == |ChildPlan(g, children)| && now == ApplyAll(s, ChildPlan(g, children)[..done])
  {
    assert children[..|children|] == children;
    var plan := ChildPlan(g, children);
    assert plan[..|plan|] == plan;
  }

  /** One round of the child loop: where the plan stands after n of this child's calls. */
  lemma ChildRound(s: State, s1: State, g: Graph, children: seq<string>, i: nat, n: nat)
    requires i < |children| && Distinct(children) && (forall k :: k in children ==> k in g.users)
    requires forall k :: k in children[..i] ==> k in g.users
    requires s1 == ApplyAll(s, ChildPlan(g, children[..i])) && Untouched(g, s1.mem, children[i..])
    requires n <= |ChildSteps(g, children[i])|
    ensures forall k :: k in children[..i + 1] ==> k in g.users
    ensures var done := |ChildPlan(g, children[..i])| + n;
            var s2 := ApplyAll(s1, ChildSteps(g, children[i])[..n]);
            && done <= |ChildPlan(g, children)| && s2 == ApplyAll(s, ChildPlan(g, children)[..done])
            && (if n < |ChildSteps(g, children[i])| then done < |ChildPlan(g, children)|
                else done == |ChildPlan(g, children[..i + 1])| && s2 == ApplyAll(s, ChildPlan(g, children[..i + 1]))
                     && Untouched(g, s2.mem, children[i + 1..]))
  {
    ChildPlanPrefix(s, g, children, i, n);
    if n == |ChildSteps(g, children[i])| {
      assert ChildSteps(g, children[i])[..n] == ChildSteps(g, children[i]);
      var rest := children[i + 1..];
      forall k | k in rest ensures k in children[i..] && k != children[i] {
        var j :| 0 <= j < |rest| && rest[j] == k;
        assert children[i..][j + 1] == k && children[i + 1 + j] == k;
      }
      assert children[i..][0] == children[i];
      ChildStepsSpare(s1, g, children[i], rest);
    }
  }

  /** The plan is what comes before the i-th child, the steps of that child, and the rest. */
  lemma ChildPlanAround(g: Graph, children: seq<string>, i: nat)
    requires i < |children| && AllUsers(g, children)
    ensures AllUsers(g, children[..i]) && AllUsers(g, children[..i + 1]) && AllUsers(g, children[i + 1..])
    ensures ChildPlan(g, children)
         == ChildPlan(g, children[..i]) + (ChildSteps(g, children[i]) + ChildPlan(g, children[i + 1..]))
    ensures ChildPlan(g, children[..i + 1]) == ChildPlan(g, children[..i]) + ChildSteps(g, children[i])
  {
    var child, rest := children[i], children[i + 1..];
    assert children == children[..i] + ([child] + rest);
    ChildPlanConcat(g, children[..i], [child] + rest);
    ChildPlanConcat(g, [child], rest);
    assert ChildPlan(g, [child]) == ChildSteps(g, child) + [] == ChildSteps(g, child);
    assert children[..i + 1] == children[..i] + [child];
    UsersInParts(g, children[..i], [child]);
    ChildPlanConcat(g, children[..i], [child]);
  }

  lemma CutInMiddle(s: State, a: seq<Step>, b: seq<Step>, c: seq<Step>, n: nat)
    requires n <= |b|
    ensures (a + (b + c))[..|a| + n] == a + b[..n]
    ensures ApplyAll(s, (a + (b + c))[..|a| + n]) == ApplyAll(ApplyAll(s, a), b[..n])
  {
    assert (a + (b + c))[..|a| + n] == a + b[..n];
    ApplyAllConcat(s, a, b[..n]);
  }

  /** Cutting the plan inside the steps of the i-th child. */
  lemma ChildPlanPrefix(s: State, g: Graph, children: seq<string>, i: nat, n: nat)
    requires i < |children| && AllUsers(g, children) && n <= |ChildSteps(g, children[i])|
    ensures AllUsers(g, children[..i]) && AllUsers(g, children[..i + 1])
    ensures var done := |ChildPlan(g, children[..i])| + n;
            var plan := ChildPlan(g, children);
            && done <= |plan|
            && (n < |ChildSteps(g, children[i])| ==> done < |plan|)
            && ApplyAll(s, plan[..done])
               == ApplyAll(ApplyAll(s, ChildPlan(g, children[..i])), ChildSteps(g, children[i])[..n])
    ensures n == |ChildSteps(g, children[i])| ==>
            ChildPlan(g, children[..i + 1]) == ChildPlan(g, children)[..|ChildPlan(g, children[..i])| + n]
  {
    ChildPlanAround(g, children, i);
    CutInMiddle(s, ChildPlan(g, children[..i]), ChildSteps(g, children[i]), ChildPlan(g, children[i + 1..]), n);
  }

  lemma SameChildSteps(g: Graph, g': Graph, child: string)
    requires SameChild(g, g', child)
    ensures ChildSteps(g, child) == ChildSteps(g', child)
  {}

  /** Removing one child leaves the records of the others alone. */
  lemma ChildStepsSpare(s: State, g: Graph, child: string, rest: seq<string>)
    requires SameChild(g, s.mem, child) && child !in rest
    ensures forall k :: k in rest && SameChild(g, s.mem, k) ==> SameChild(g, ApplyAll(s, ChildSteps(g, child)).mem, k)
  {
    var steps := ChildSteps(g, child);
    if |steps| == 2 {
      assert steps[1..] == [steps[1]];
      assert ApplyAll(s, steps) == ApplyAll(Apply(s, steps[0]), [steps[1]]) == Apply(Apply(s, steps[0]), steps[1]);
    } else {
      assert ApplyAll(s, steps) == Apply(s, steps[0]);
    }
  }
}
