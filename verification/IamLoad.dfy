/** What a server that starts on an existing store has in memory, and on disk, once it has loaded everything. */
module IamLoad {
  import opened IamGraph
  import opened IamPlans

  // ---- Loading ----

  /** A record without an access key takes it from its file name. */
  function Keyed(name: string, c: Credential): Credential { if c.accessKey == "" then c.(accessKey := name) else c }

  /** The names under which a directory holds files of one kind. */
  function NamesOf(slots: set<Slot>, kind: UserType): set<string> {
    set slot | slot in slots && slot.kind == kind :: slot.name
  }

  function LoadedUsers(now: int, identities: map<Slot, Credential>, kind: UserType): map<string, Credential> {
    map k | k in NamesOf(identities.Keys, kind) && !identities[Slot(kind, k)].IsExpired(now) ::
      Keyed(k, identities[Slot(kind, k)])
  }

  function LoadedMappings(mappings: map<Slot, Policies>, kind: UserType): map<string, Policies> {
    map n | n in NamesOf(mappings.Keys, kind) :: mappings[Slot(kind, n)]
  }

  function ExpiredSlots(now: int, identities: map<Slot, Credential>): set<Slot> {
    set slot | slot in identities && identities[slot].IsExpired(now)
  }

  function ExpiredOf(now: int, identities: map<Slot, Credential>, kind: UserType): set<Slot> {
    set slot | slot in identities && identities[slot].IsExpired(now) && slot.kind == kind
  }

  /** Records of expired credentials whose deletion failed; the failure is ignored. */
  datatype Stuck = Stuck(identities: set<Slot>, mappings: set<Slot>)

  /** Reading an expired identity deletes it, and the mapping kept under the same kind. */
  function Purged(now: int, d: Disk, stuck: Stuck): Disk {
    var gone := ExpiredSlots(now, d.identities);
    d.(identities := d.identities - (gone - stuck.identities), mappings := d.mappings - (gone - stuck.mappings))
  }

  function Members(groups: map<string, GroupInfo>): set<string> {
    set n, u | n in groups && u in groups[n].members :: u
  }

  function Listing(groups: map<string, GroupInfo>, user: string): set<string> {
    set n | n in groups && user in groups[n].members
  }

  /** An index with the memberships of the given groups added. */
  function Indexed(index: map<string, set<string>>, groups: map<string, GroupInfo>): map<string, set<string>> {
    map u | u in index.Keys + Members(groups) :: GroupsOf(index, u) + Listing(groups, u)
  }

  /** Users of all three kinds, later kinds over earlier ones. */
  function EveryUser(now: int, d: Disk): map<string, Credential> {
    LoadedUsers(now, d.identities, Regular) + LoadedUsers(now, d.identities, Service)
    + LoadedUsers(now, d.identities, Sts)
  }

  /** Mappings of regular and temporary users. */
  function EveryMapping(mappings: map<Slot, Policies>): map<string, Policies> {
    LoadedMappings(mappings, Regular) + LoadedMappings(mappings, Sts)
  }

  function Loaded(now: int, d: Disk, stuck: Stuck, documents: map<string, Document>): Graph {
    Graph(0, EveryUser(now, d), d.groups, EveryMapping(Purged(now, d, stuck).mappings), d.groupPolicies, documents,
          Indexed(map[], d.groups))
  }

  function Reloaded(now: int, s: State, stuck: Stuck): State {
    State(Loaded(now, s.disk, stuck, s.mem.documents), Purged(now, s.disk, stuck))
  }

  // ---- Building the index ----

  lemma IndexedAt(index: map<string, set<string>>, groups: map<string, GroupInfo>, u: string)
    ensures u in Indexed(index, groups) <==> u in index || u in Members(groups)
    ensures GroupsOf(Indexed(index, groups), u) == GroupsOf(index, u) + Listing(groups, u)
  {
    if u !in Members(groups) { assert Listing(groups, u) == {}; }
  }

  lemma SameIndex(a: map<string, set<string>>, b: map<string, set<string>>)
    requires forall u :: (u in a <==> u in b) && GroupsOf(a, u) == GroupsOf(b, u)
    ensures a == b
  {
    assert a.Keys == b.Keys;
    forall u | u in a ensures a[u] == b[u] { assert GroupsOf(a, u) == GroupsOf(b, u); }
  }

  lemma IndexedNone(index: map<string, set<string>>)
    ensures Indexed(index, map[]) == index
  {
    forall u
      ensures (u in Indexed(index, map[]) <==> u in index) && GroupsOf(Indexed(index, map[]), u) == GroupsOf(index, u)
    {
      IndexedAt(index, map[], u);
      assert Listing(map[], u) == {};
    }
    SameIndex(Indexed(index, map[]), index);
  }

  lemma RejoinedAt(index: map<string, set<string>>, name: string, joins: set<string>, u: string)
    ensures var after := Rejoined(index, name, joins, {});
            && (u in after <==> u in index || u in joins)
            && GroupsOf(after, u) == if u in joins then GroupsOf(index, u) + {name} else GroupsOf(index, u)
  {}

  /** One more group. */
  lemma IndexedOne(index: map<string, set<string>>, groups: map<string, GroupInfo>, todo: set<string>, name: string)
    requires name in groups && name in todo
    ensures Indexed(index, groups - (todo - {name}))
         == Rejoined(Indexed(index, groups - todo), name, set m | m in groups[name].members, {})
  {
    var less, more := groups - todo, groups - (todo - {name});
    var joins := set m | m in groups[name].members;
    var x, y := Indexed(index, more), Rejoined(Indexed(index, less), name, joins, {});
    forall u ensures (u in x <==> u in y) && GroupsOf(x, u) == GroupsOf(y, u) {
      IndexedAt(index, more, u);
      IndexedAt(index, less, u);
      RejoinedAt(Indexed(index, less), name, joins, u);
      ListedOnce(groups, todo, name, u);
    }
    SameIndex(x, y);
  }

  lemma ListedOnce(groups: map<string, GroupInfo>, todo: set<string>, name: string, u: string)
    requires name in groups && name in todo
    ensures var less, more := groups - todo, groups - (todo - {name});
            && (u in Members(more) <==> u in Members(less) || u in groups[name].members)
            && Listing(more, u) == if u in groups[name].members then Listing(less, u) + {name} else Listing(less, u)
  {
    var less, more := groups - todo, groups - (todo - {name});
    assert more.Keys == less.Keys + {name};
    if u in Members(more) && u !in groups[name].members {
      var n :| n in more && u in more[n].members;
      assert n in less && u in less[n].members;
    }
    if u in Members(less) {
      var n :| n in less && u in less[n].members;
      assert n in more && u in more[n].members;
    }
    if u in groups[name].members { assert name in more && u in more[name].members; }
  }

  // ---- Reading one record after another ----

  /** Where a pass over the identities of one kind stands, with the given records still to read. */
  ghost predicate Reading(now: int, identities: map<Slot, Credential>, kind: UserType, todo: set<Slot>,
                          gone: set<Slot>, found: map<string, Credential>)
  {
    && todo <= identities.Keys
    && gone == ExpiredOf(now, identities, kind) - todo
    && (forall k :: k in found <==> k in LoadedUsers(now, identities, kind) && Slot(kind, k) !in todo)
    && (forall k :: k in found ==> found[k] == LoadedUsers(now, identities, kind)[k])
  }

  lemma ReadOther(now: int, identities: map<Slot, Credential>, kind: UserType, todo: set<Slot>, gone: set<Slot>,
                  found: map<string, Credential>, slot: Slot)
    requires Reading(now, identities, kind, todo, gone, found) && slot in todo && slot.kind != kind
    ensures Reading(now, identities, kind, todo - {slot}, gone, found)
  {
    assert gone == ExpiredOf(now, identities, kind) - (todo - {slot});
  }

  lemma ReadExpired(now: int, identities: map<Slot, Credential>, kind: UserType, todo: set<Slot>, gone: set<Slot>,
                    found: map<string, Credential>, slot: Slot)
    requires Reading(now, identities, kind, todo, gone, found) && slot in todo && slot.kind == kind
             && identities[slot].IsExpired(now)
    ensures Reading(now, identities, kind, todo - {slot}, gone + {slot}, found)
  {
    LoadedAt(now, identities, kind, slot.name);
    assert gone + {slot} == ExpiredOf(now, identities, kind) - (todo - {slot});
  }

  lemma ReadAlive(now: int, identities: map<Slot, Credential>, kind: UserType, todo: set<Slot>, gone: set<Slot>,
                  found: map<string, Credential>, slot: Slot)
    requires Reading(now, identities, kind, todo, gone, found) && slot in todo && slot.kind == kind
             && !identities[slot].IsExpired(now)
    ensures Reading(now, identities, kind, todo - {slot}, gone, found[slot.name := Keyed(slot.name, identities[slot])])
  {
    LoadedAt(now, identities, kind, slot.name);
    assert slot == Slot(kind, slot.name);
    assert gone == ExpiredOf(now, identities, kind) - (todo - {slot});
  }

  lemma ReadAll(now: int, identities: map<Slot, Credential>, kind: UserType, gone: set<Slot>,
                found: map<string, Credential>)
    requires Reading(now, identities, kind, {}, gone, found)
    ensures gone == ExpiredOf(now, identities, kind) && found == LoadedUsers(now, identities, kind)
  {
    assert found.Keys == LoadedUsers(now, identities, kind).Keys;
  }

  lemma MinusTwice<K, V>(m: map<K, V>, a: set<K>, b: set<K>)
    ensures m - a - b == m - (a + b)
  {}

  /** Deleting records of other kinds does not change what is found under this one. */
  lemma OtherKind(now: int, identities: map<Slot, Credential>, gone: set<Slot>, kind: UserType)
    requires forall slot :: slot in gone ==> slot.kind != kind
    ensures LoadedUsers(now, identities - gone, kind) == LoadedUsers(now, identities, kind)
    ensures ExpiredOf(now, identities - gone, kind) == ExpiredOf(now, identities, kind)
  {
    forall k ensures k in LoadedUsers(now, identities - gone, kind) <==> k in LoadedUsers(now, identities, kind) {
      LoadedAt(now, identities - gone, kind, k);
      LoadedAt(now, identities, kind, k);
    }
    forall k | k in LoadedUsers(now, identities, kind)
      ensures LoadedUsers(now, identities - gone, kind)[k] == LoadedUsers(now, identities, kind)[k]
    {
      LoadedAt(now, identities - gone, kind, k);
      LoadedAt(now, identities, kind, k);
    }
  }

  lemma OtherMappings(mappings: map<Slot, Policies>, gone: set<Slot>, kind: UserType)
    requires forall slot :: slot in gone ==> slot.kind != kind
    ensures LoadedMappings(mappings - gone, kind) == LoadedMappings(mappings, kind)
  {
    forall n ensures n in LoadedMappings(mappings - gone, kind) <==> n in LoadedMappings(mappings, kind) {
      MappedAt(mappings - gone, kind, n);
      MappedAt(mappings, kind, n);
    }
    forall n | n in LoadedMappings(mappings, kind)
      ensures LoadedMappings(mappings - gone, kind)[n] == LoadedMappings(mappings, kind)[n]
    {
      MappedAt(mappings - gone, kind, n);
      MappedAt(mappings, kind, n);
    }
  }

  lemma KindsCover(now: int, identities: map<Slot, Credential>)
    ensures ExpiredOf(now, identities, Regular) + ExpiredOf(now, identities, Service) + ExpiredOf(now, identities, Sts)
         == ExpiredSlots(now, identities)
  {}

  lemma MinusThrice<K, V>(m: map<K, V>, a: set<K>, b: set<K>, c: set<K>)
    ensures m - a - b - c == m - (a + b + c) && m - a - b - c == m - a - (b + c)
  {
    MinusTwice(m, a, b);
    MinusTwice(m, a + b, c);
    MinusTwice(m - a, b, c);
  }

  /** What could not be deleted, given what was. */
  function Remaining(now: int, d: Disk, identities: set<Slot>, mappings: set<Slot>): Stuck {
    Stuck(ExpiredSlots(now, d.identities) - identities, ExpiredSlots(now, d.identities) - mappings)
  }

  lemma RemainingPurged(now: int, d: Disk, a: set<Slot>, b: set<Slot>)
    requires a <= ExpiredSlots(now, d.identities) && b <= ExpiredSlots(now, d.identities)
    ensures Purged(now, d, Remaining(now, d, a, b)) == d.(identities := d.identities - a, mappings := d.mappings - b)
  {
    var gone := ExpiredSlots(now, d.identities);
    assert gone - (gone - a) == a && gone - (gone - b) == b;
  }

  /** Each kind is read as if it were alone, whatever was deleted while the other kinds were read. */
  lemma UsersInOrder(now: int, d: Disk, a: set<Slot>, b: set<Slot>, c: set<Slot>)
    requires a <= ExpiredOf(now, d.identities, Regular)
    requires b <= ExpiredOf(now, d.identities - a, Service) && c <= ExpiredOf(now, d.identities - a - b, Sts)
    ensures b <= ExpiredOf(now, d.identities, Service) && c <= ExpiredOf(now, d.identities, Sts)
    ensures LoadedUsers(now, d.identities - a, Service) == LoadedUsers(now, d.identities, Service)
    ensures LoadedUsers(now, d.identities - a - b, Sts) == LoadedUsers(now, d.identities, Sts)
    ensures ExpiredOf(now, d.identities - a, Service) == ExpiredOf(now, d.identities, Service)
    ensures ExpiredOf(now, d.identities - a - b, Sts) == ExpiredOf(now, d.identities, Sts)
  {
    OtherKind(now, d.identities, a, Service);
    MinusTwice(d.identities, a, b);
    OtherKind(now, d.identities, a + b, Sts);
  }

  lemma MappingsInOrder(mappings: map<Slot, Policies>, a: set<Slot>, b: set<Slot>, c: set<Slot>)
    requires forall slot :: slot in b + c ==> slot.kind != Regular
    ensures LoadedMappings(mappings - a, Regular) + LoadedMappings(mappings - a - b - c, Sts)
         == EveryMapping(mappings - (a + b + c))
  {
    MinusThrice(mappings, a, b, c);
    OtherMappings(mappings - a, b + c, Regular);
  }

  /** The three passes over the identities and the two over the mappings, taken together. */
  lemma ReadInOrder(now: int, d: Disk, a: set<Slot>, b: set<Slot>, c: set<Slot>, x: set<Slot>, y: set<Slot>,
                    z: set<Slot>)
    requires a <= ExpiredOf(now, d.identities, Regular) && x <= ExpiredOf(now, d.identities, Regular)
    requires b <= ExpiredOf(now, d.identities - a, Service) && y <= ExpiredOf(now, d.identities - a, Service)
    requires c <= ExpiredOf(now, d.identities - a - b, Sts) && z <= ExpiredOf(now, d.identities - a - b, Sts)
    ensures LoadedUsers(now, d.identities, Regular) + LoadedUsers(now, d.identities - a, Service)
            + LoadedUsers(now, d.identities - a - b, Sts) == EveryUser(now, d)
    ensures LoadedMappings(d.mappings - x, Regular) + LoadedMappings(d.mappings - x - y - z, Sts)
         == EveryMapping(d.mappings - x - y - z)
    ensures var stuck := Remaining(now, d, a + b + c, x + y + z);
            Purged(now, d, stuck) == d.(identities := d.identities - a - b - c, mappings := d.mappings - x - y - z)
  {
    UsersInOrder(now, d, a, b, c);
    MappingsInOrder(d.mappings, x, y, z);
    KindsCover(now, d.identities);
    MinusThrice(d.identities, a, b, c);
    MinusThrice(d.mappings, x, y, z);
    RemainingPurged(now, d, a + b + c, x + y + z);
  }

  // ---- What comes back ----

  function Expired(now: int, users: map<string, Credential>): set<string> {
    set k | k in users && users[k].IsExpired(now)
  }

  function Survivors(now: int, users: map<string, Credential>): map<string, Credential> {
    map k | k in users && !users[k].IsExpired(now) :: Keyed(k, users[k])
  }

  lemma LoadedAt(now: int, identities: map<Slot, Credential>, kind: UserType, k: string)
    ensures k in LoadedUsers(now, identities, kind) <==>
            Slot(kind, k) in identities && !identities[Slot(kind, k)].IsExpired(now)
    ensures k in LoadedUsers(now, identities, kind) ==>
            LoadedUsers(now, identities, kind)[k] == Keyed(k, identities[Slot(kind, k)])
  {
    NameOf(identities.Keys, kind, k);
  }

  lemma NameOf(slots: set<Slot>, kind: UserType, k: string)
    ensures k in NamesOf(slots, kind) <==> Slot(kind, k) in slots
  {}

  /** A credential is found under its own kind and no other. */
  lemma FoundOnce(now: int, users: map<string, Credential>, identities: map<Slot, Credential>, kind: UserType,
                  k: string)
    requires IdentitiesSynced(users, identities)
    ensures k in LoadedUsers(now, identities, kind)
       <==> k in users && users[k].Kind() == kind && !users[k].IsExpired(now)
    ensures k in LoadedUsers(now, identities, kind) ==> LoadedUsers(now, identities, kind)[k] == Keyed(k, users[k])
  {
    LoadedAt(now, identities, kind, k);
    if k in users { assert Slot(users[k].Kind(), k) in identities; }
    if Slot(kind, k) in identities { assert Slot(kind, k).name == k; }
  }

  /** Maps that agree with a third and together have its keys merge into it. */
  lemma Merged<T>(a: map<string, T>, b: map<string, T>, all: map<string, T>)
    requires forall k :: k in all <==> k in a || k in b
    requires forall k :: k in a ==> a[k] == all[k]
    requires forall k :: k in b ==> b[k] == all[k]
    ensures a + b == all
  {
    assert (a + b).Keys == all.Keys;
  }

  lemma MergedThree<T>(a: map<string, T>, b: map<string, T>, c: map<string, T>, all: map<string, T>)
    requires forall k :: k in all <==> k in a || k in b || k in c
    requires forall k :: k in a ==> a[k] == all[k]
    requires forall k :: k in b ==> b[k] == all[k]
    requires forall k :: k in c ==> c[k] == all[k]
    ensures a + b + c == all
  {
    Merged(a + b, c, all);
  }

  lemma UsersReturn(now: int, users: map<string, Credential>, d: Disk)
    requires IdentitiesSynced(users, d.identities)
    ensures EveryUser(now, d) == Survivors(now, users)
  {
    var all, ids := Survivors(now, users), d.identities;
    forall k, kind ensures k in LoadedUsers(now, ids, kind) <==> k in all && users[k].Kind() == kind {
      FoundOnce(now, users, ids, kind, k);
    }
    forall k, kind | k in LoadedUsers(now, ids, kind) ensures LoadedUsers(now, ids, kind)[k] == all[k] {
      FoundOnce(now, users, ids, kind, k);
    }
    MergedThree(LoadedUsers(now, ids, Regular), LoadedUsers(now, ids, Service), LoadedUsers(now, ids, Sts), all);
  }

  /** The mapping of an expired credential lies where its identity does. */
  lemma ExpiredTogether(now: int, g: Graph, key: string)
    requires key in g.users && g.users[key].IsExpired(now)
    ensures g.MappingKind(key) == g.users[key].Kind()
  {}

  lemma MappingPurged(now: int, s: State, slot: Slot)
    requires Inv(s) && slot in s.disk.mappings
    ensures slot in ExpiredSlots(now, s.disk.identities) <==> slot.name in Expired(now, s.mem.users)
    ensures slot.name in s.mem.users
            && (slot.name in Expired(now, s.mem.users) ==> slot.kind == s.mem.users[slot.name].Kind())
  {
    assert slot.name in s.mem.userPolicies && slot.name in s.mem.users;
    if slot.name in Expired(now, s.mem.users) { ExpiredTogether(now, s.mem, slot.name); }
  }

  /** The expired credentials whose mapping could be deleted. */
  function Forgotten(now: int, users: map<string, Credential>, stuck: Stuck): set<string> {
    set k | k in users && users[k].IsExpired(now) && Slot(users[k].Kind(), k) !in stuck.mappings
  }

  lemma MappedOnce(now: int, s: State, stuck: Stuck, kind: UserType, n: string)
    requires Inv(s)
    ensures var found := LoadedMappings(Purged(now, s.disk, stuck).mappings, kind);
            && (n in found
               <==> n in s.mem.userPolicies - Forgotten(now, s.mem.users, stuck) && s.mem.MappingKind(n) == kind)
            && (n in found ==> found[n] == s.mem.userPolicies[n])
  {
    var slot, left := Slot(kind, n), Purged(now, s.disk, stuck).mappings;
    MappedAt(left, kind, n);
    if slot in s.disk.mappings { MappingPurged(now, s, slot); }
    if n in s.mem.userPolicies { assert Slot(s.mem.MappingKind(n), n) in s.disk.mappings; }
  }

  lemma MappedAt(mappings: map<Slot, Policies>, kind: UserType, n: string)
    ensures n in LoadedMappings(mappings, kind) <==> Slot(kind, n) in mappings
    ensures n in LoadedMappings(mappings, kind) ==> LoadedMappings(mappings, kind)[n] == mappings[Slot(kind, n)]
  {
    NameOf(mappings.Keys, kind, n);
  }

  lemma MappingsReturn(now: int, s: State, stuck: Stuck)
    requires Inv(s)
    ensures EveryMapping(Purged(now, s.disk, stuck).mappings) == s.mem.userPolicies - Forgotten(now, s.mem.users, stuck)
  {
    var left, m := Purged(now, s.disk, stuck).mappings, s.mem.userPolicies - Forgotten(now, s.mem.users, stuck);
    var a, b := LoadedMappings(left, Regular), LoadedMappings(left, Sts);
    forall n ensures n in m <==> n in a || n in b {
      MappedOnce(now, s, stuck, Regular, n);
      MappedOnce(now, s, stuck, Sts, n);
    }
    forall n | n in a ensures a[n] == m[n] { MappedOnce(now, s, stuck, Regular, n); }
    forall n | n in b ensures b[n] == m[n] { MappedOnce(now, s, stuck, Sts, n); }
    Merged(a, b, m);
  }

  lemma IndexReturns(g: Graph, u: string)
    requires IndexAgrees(g)
    ensures GroupsOf(Indexed(map[], g.groups), u) == g.Index(u)
  {
    assert forall n :: n in g.Index(u) <==> g.Listed(u, n);
    assert Listing(g.groups, u) == g.Index(u);
    IndexedAt(map[], g.groups, u);
  }

  lemma LoadedIndex(now: int, s: State, stuck: Stuck, u: string)
    requires Inv(s)
    ensures Loaded(now, s.disk, stuck, s.mem.documents).Index(u) == s.mem.Index(u)
  {
    IndexReturns(s.mem, u);
  }

  /** Main result: a restart brings back everything that was in memory except the epoch, index entries without groups,
      and what has expired; of an expired credential only a mapping whose deletion failed comes back. */
  lemma RestartReloads(now: int, s: State, stuck: Stuck)
    requires Inv(s)
    ensures var g := Loaded(now, s.disk, stuck, s.mem.documents);
            && g.users == Survivors(now, s.mem.users)
            && g.userPolicies == s.mem.userPolicies - Forgotten(now, s.mem.users, stuck)
            && g.groups == s.mem.groups && g.groupPolicies == s.mem.groupPolicies && g.documents == s.mem.documents
            && (forall u :: g.Index(u) == s.mem.Index(u)) && g.epoch == 0
  {
    UsersReturn(now, s.mem.users, s.disk);
    MappingsReturn(now, s, stuck);
    forall u ensures Loaded(now, s.disk, stuck, s.mem.documents).Index(u) == s.mem.Index(u) {
      LoadedIndex(now, s, stuck, u);
    }
  }

  // ---- The invariant after a restart ----

  /** Every live record carries its access key. */
  ghost predicate KeysWritten(now: int, users: map<string, Credential>) {
    forall k :: k in users && !users[k].IsExpired(now) ==> Keyed(k, users[k]) == users[k]
  }

  /** No group lists an expired user. */
  ghost predicate MembersAlive(now: int, g: Graph) {
    forall u, n :: g.Listed(u, n) ==> u !in Expired(now, g.users)
  }

  /** Nothing that has expired is still on disk. */
  ghost predicate Swept(now: int, d: Disk, stuck: Stuck) {
    && stuck.identities !! ExpiredSlots(now, d.identities)
    && forall slot :: slot in d.mappings && slot in ExpiredSlots(now, d.identities) ==> slot !in stuck.mappings
  }

  lemma SurvivorsAre(now: int, users: map<string, Credential>)
    requires KeysWritten(now, users)
    ensures Survivors(now, users) == users - Expired(now, users)
  {}

  lemma SweptIs(now: int, d: Disk, stuck: Stuck)
    requires Swept(now, d, stuck)
    ensures Purged(now, d, stuck).identities == d.identities - ExpiredSlots(now, d.identities)
    ensures Purged(now, d, stuck).mappings == d.mappings - ExpiredSlots(now, d.identities)
  {
    var gone := ExpiredSlots(now, d.identities);
    assert gone - stuck.identities == gone;
    var x, y := d.mappings - (gone - stuck.mappings), d.mappings - gone;
    forall slot ensures slot in x <==> slot in y {}
  }

  lemma SweptForgets(now: int, s: State, stuck: Stuck)
    requires Inv(s) && Swept(now, s.disk, stuck)
    ensures s.mem.userPolicies - Forgotten(now, s.mem.users, stuck) == s.mem.userPolicies - Expired(now, s.mem.users)
  {
    var x := s.mem.userPolicies - Forgotten(now, s.mem.users, stuck);
    forall n | n in x ensures n !in Expired(now, s.mem.users) {
      var slot := Slot(s.mem.MappingKind(n), n);
      assert slot in s.disk.mappings;
      MappingPurged(now, s, slot);
    }
  }

  lemma IdentitiesReload(now: int, users: map<string, Credential>, identities: map<Slot, Credential>)
    requires IdentitiesSynced(users, identities)
    ensures IdentitiesSynced(users - Expired(now, users), identities - ExpiredSlots(now, identities))
  {
    var gone, slots := Expired(now, users), ExpiredSlots(now, identities);
    forall n | n in users - gone ensures Slot(users[n].Kind(), n) in identities - slots {
      assert Slot(users[n].Kind(), n) in identities;
    }
    forall slot | slot in identities - slots ensures slot.name in users - gone {
      assert identities[slot] == users[slot.name];
    }
  }

  lemma MappingsReload(now: int, s: State, g: Graph)
    requires Inv(s) && g.users == s.mem.users - Expired(now, s.mem.users)
    requires g.userPolicies == s.mem.userPolicies - Expired(now, s.mem.users)
    ensures MappingsSynced(g, s.disk.mappings - ExpiredSlots(now, s.disk.identities))
  {
    var left := s.disk.mappings - ExpiredSlots(now, s.disk.identities);
    forall n | n in g.userPolicies
      ensures Slot(g.MappingKind(n), n) in left && left[Slot(g.MappingKind(n), n)] == g.userPolicies[n]
    {
      var slot := Slot(s.mem.MappingKind(n), n);
      assert slot in s.disk.mappings && s.mem.MappingKind(n) == g.MappingKind(n);
      MappingPurged(now, s, slot);
    }
    forall slot | slot in left ensures slot.name in g.userPolicies && slot.kind == g.MappingKind(slot.name) {
      MappingPurged(now, s, slot);
    }
  }

  lemma ReloadedIndex(g: Graph, g': Graph)
    requires IndexAgrees(g) && g'.groups == g.groups && forall u :: g'.Index(u) == g.Index(u)
    ensures IndexAgrees(g')
  {
    forall u, n ensures n in g'.Index(u) <==> g'.Listed(u, n) {
      assert n in g.Index(u) <==> g.Listed(u, n);
    }
  }

  lemma MembersReload(now: int, g: Graph, g': Graph)
    requires MembersRegular(g) && g'.groups == g.groups && g'.users == g.users - Expired(now, g.users)
    ensures MembersRegular(g') <==> MembersAlive(now, g)
  {
    assert forall u, n :: g'.Listed(u, n) <==> g.Listed(u, n);
    if MembersRegular(g') {
      forall u, n | g.Listed(u, n) ensures u !in Expired(now, g.users) { assert g'.Listed(u, n); }
    }
    if MembersAlive(now, g) {
      forall u, n | g'.Listed(u, n) ensures u in g'.users && g'.users[u].IsRegular() { assert g.Listed(u, n); }
    }
  }

  lemma ReloadedSynced(now: int, s: State, t: State)
    requires Inv(s)
    requires t.disk.identities == s.disk.identities - ExpiredSlots(now, s.disk.identities)
    requires t.disk.mappings == s.disk.mappings - ExpiredSlots(now, s.disk.identities)
    requires t.disk.groups == s.disk.groups && t.disk.groupPolicies == s.disk.groupPolicies
    requires t.mem.users == s.mem.users - Expired(now, s.mem.users)
    requires t.mem.userPolicies == s.mem.userPolicies - Expired(now, s.mem.users)
    requires t.mem.groups == s.mem.groups && t.mem.groupPolicies == s.mem.groupPolicies
    ensures Synced(t) && MappingsOwned(t.mem)
  {
    IdentitiesReload(now, s.mem.users, s.disk.identities);
    MappingsReload(now, s, t.mem);
  }

  lemma ReloadedWell(now: int, s: State, stuck: Stuck)
    requires Inv(s) && Swept(now, s.disk, stuck) && KeysWritten(now, s.mem.users) && MembersAlive(now, s.mem)
    ensures Inv(Reloaded(now, s, stuck))
  {
    var t := Reloaded(now, s, stuck);
    RestartReloads(now, s, stuck);
    SurvivorsAre(now, s.mem.users);
    SweptIs(now, s.disk, stuck);
    SweptForgets(now, s, stuck);
    ReloadedSynced(now, s, t);
    ReloadedIndex(s.mem, t.mem);
    MembersReload(now, s.mem, t.mem);
  }

  lemma UnsweptShows(now: int, s: State, t: State, stuck: Stuck)
    requires Inv(s) && Inv(t) && t.disk == Purged(now, s.disk, stuck) && t.mem.users == Survivors(now, s.mem.users)
    requires t.mem.userPolicies == s.mem.userPolicies - Forgotten(now, s.mem.users, stuck)
    ensures Swept(now, s.disk, stuck) && KeysWritten(now, s.mem.users)
  {
    forall slot | slot in ExpiredSlots(now, s.disk.identities) ensures slot !in stuck.identities {
      assert s.disk.identities[slot] == s.mem.users[slot.name];
      assert slot.name !in t.mem.users;
      assert slot !in t.disk.identities;
    }
    forall slot | slot in s.disk.mappings && slot in ExpiredSlots(now, s.disk.identities)
      ensures slot !in stuck.mappings
    {
      MappingPurged(now, s, slot);
      assert slot.name !in t.mem.users && slot.name !in t.mem.userPolicies;
    }
    forall k | k in s.mem.users && !s.mem.users[k].IsExpired(now) ensures Keyed(k, s.mem.users[k]) == s.mem.users[k] {
      var slot := Slot(s.mem.users[k].Kind(), k);
      assert slot in s.disk.identities && k in t.mem.users && t.mem.users[k].Kind() == slot.kind;
      assert t.disk.identities[slot] == t.mem.users[k];
    }
  }

  lemma DeadMemberShows(now: int, s: State, t: State)
    requires MembersRegular(t.mem) && t.mem.users == Survivors(now, s.mem.users) && t.mem.groups == s.mem.groups
    ensures MembersAlive(now, s.mem)
  {
    forall u, n | s.mem.Listed(u, n) ensures u !in Expired(now, s.mem.users) { assert t.mem.Listed(u, n); }
  }

  /** Main result: a restart keeps the invariant exactly when no group lists a user that has expired by then, every live
      record carries its access key, and the deletions of expired records all succeeded. */
  lemma RestartKeepsInvariantExactly(now: int, s: State, stuck: Stuck)
    requires Inv(s)
    ensures Inv(Reloaded(now, s, stuck)) <==>
            MembersAlive(now, s.mem) && KeysWritten(now, s.mem.users) && Swept(now, s.disk, stuck)
  {
    if Inv(Reloaded(now, s, stuck)) {
      RestartReloads(now, s, stuck);
      UnsweptShows(now, s, Reloaded(now, s, stuck), stuck);
      DeadMemberShows(now, s, Reloaded(now, s, stuck));
    } else if MembersAlive(now, s.mem) && KeysWritten(now, s.mem.users) && Swept(now, s.disk, stuck) {
      ReloadedWell(now, s, stuck);
      assert false;
    }
  }

  /** Who is still there after a restart at a given time: whoever has no expiry, or one that is not before it. */
  lemma SurvivesExactly(now: int, s: State, stuck: Stuck, key: string)
    requires Inv(s) && key in s.mem.users
    ensures key in Loaded(now, s.disk, stuck, s.mem.documents).users <==>
            var expiry := s.mem.users[key].expiration;
            expiry == 0 || expiry == -62_135_596_800_000_000_000 || now <= expiry
  {
    RestartReloads(now, s, stuck);
  }
}
