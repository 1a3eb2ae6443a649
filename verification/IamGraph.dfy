/**
 The native IAM graph as the server keeps it: the in-memory maps guarded by the store
 lock, the persisted records behind them, and the invariants the native mutations keep.
 */
module IamGraph {
  import opened Lex
  import opened Text

  datatype Error =
    | InvalidArgument | ActionNotAllowed | NoSuchUser | NoSuchGroup | NoSuchPolicy
    | GroupNotEmpty | CreateExists | Conflict | SelfSecretConflict
    | StoreFailed   // a persistence call failed before anything was committed
    | Committed     // "IAM mutation committed but acknowledgement incomplete"

  datatype Result<+T> = Ok(value: T) | Err(error: Error) {
    predicate IsFailure() { Err? }
    function PropagateFailure<U>(): Result<U> requires Err? { Err(error) }
    function Extract(): T requires Ok? { value }
  }

  const ACCOUNT_ON := "on"
  const ACCOUNT_OFF := "off"
  const STATUS_ENABLED := "enabled"
  const STATUS_DISABLED := "disabled"
  const GRAPH_LIMIT: nat := 4096
  const ENCODED_LIMIT: nat := 4 * 1024 * 1024
  /** Lifetime of a relationship draft, in nanoseconds. */
  const DRAFT_LIFETIME: int := 30_000_000_000
  /** The identity epoch is an unsigned 64-bit counter. */
  const EPOCH_MODULUS: nat := 0x1_0000_0000_0000_0000

  // ---- Names ----

  function Utf8Len(s: string): (n: nat)
    ensures n >= |s|
  {
    if s == "" then 0
    else
      (if s[0] as int < 0x80 then 1 else if s[0] as int < 0x800 then 2
       else if s[0] as int < 0x1_0000 then 3 else 4) + Utf8Len(s[1..])
  }

  predicate ValidName(s: string) {
    && s != "" && Utf8Len(s) <= 128
    && !IsSpace(s[0]) && !IsSpace(s[|s| - 1])
    && forall c :: c in s ==> c !in {'\0', '\r', '\n', '/', '\\', ','}
  }

  // ---- Credentials, groups, the graph ----

  datatype UserType = Regular | Service | Sts

  /** The zero time, in nanoseconds since the Unix epoch. */
  const ZERO_TIME: int := -62_135_596_800_000_000_000

  /** Years 0 to 9999: the times that can be written into JSON. */
  predicate Printable(t: int) { -62_167_219_200_000_000_000 <= t < 253_402_300_800_000_000_000 }

  datatype Credential = Credential(
    accessKey: string, secretKey: string, expiration: int, sessionToken: string,
    status: string, parentUser: string, groups: seq<string>)
  {
    /** The zero time and the Unix epoch both stand for no expiry. */
    predicate Lasting() { expiration == 0 || expiration == ZERO_TIME }
    predicate IsExpired(now: int) { !Lasting() && expiration < now }
    predicate IsTemp() { sessionToken != "" && !Lasting() }
    predicate IsServiceAccount() { parentUser != "" && Lasting() }
    predicate IsRegular() { !IsTemp() && !IsServiceAccount() }
    predicate IsValid(now: int) {
      status != ACCOUNT_OFF && Utf8Len(accessKey) >= 3 && Utf8Len(secretKey) >= 8 && !IsExpired(now)
    }
    function Kind(): UserType {
      if IsTemp() then Sts else if IsServiceAccount() then Service else Regular
    }
  }

  datatype GroupInfo = GroupInfo(status: string, members: seq<string>)

  /** A policy mapping is its list of policy names; the stored form joins them with commas. */
  type Policies = seq<string>

  datatype Document = Document(text: string)

  datatype Graph = Graph(
    epoch: nat,
    users: map<string, Credential>,
    groups: map<string, GroupInfo>,
    userPolicies: map<string, Policies>,
    groupPolicies: map<string, Policies>,
    documents: map<string, Document>,
    memberships: map<string, set<string>>)
  {
    /** The groups under which effective policy evaluation sees a user. */
    function Index(user: string): set<string> {
      if user in memberships then memberships[user] else {}
    }

    /** Directory under which a user's direct mapping is persisted. */
    function MappingKind(user: string): UserType {
      if user in users && users[user].IsTemp() then Sts else Regular
    }

    predicate Listed(user: string, group: string) {
      group in groups && user in groups[group].members
    }
  }

  // ---- Persistence ----

  datatype Slot = Slot(kind: UserType, name: string)

  datatype Disk = Disk(
    identities: map<Slot, Credential>,
    mappings: map<Slot, Policies>,
    groups: map<string, GroupInfo>,
    groupPolicies: map<string, Policies>)

  datatype State = State(mem: Graph, disk: Disk)

  ghost predicate IdentitiesSynced(users: map<string, Credential>, identities: map<Slot, Credential>) {
    && (forall n :: n in users ==>
        var slot := Slot(users[n].Kind(), n); slot in identities && identities[slot] == users[n])
    && (forall slot :: slot in identities ==> slot.name in users && slot.kind == users[slot.name].Kind())
  }

  ghost predicate MappingsSynced(g: Graph, mappings: map<Slot, Policies>) {
    && (forall n :: n in g.userPolicies ==>
        var slot := Slot(g.MappingKind(n), n); slot in mappings && mappings[slot] == g.userPolicies[n])
    && (forall slot :: slot in mappings ==>
        slot.name in g.userPolicies && slot.kind == g.MappingKind(slot.name))
  }

  /** Every record on disk is in memory and conversely, each under the right directory. */
  ghost predicate Synced(s: State) {
    && IdentitiesSynced(s.mem.users, s.disk.identities)
    && MappingsSynced(s.mem, s.disk.mappings)
    && s.disk.groups == s.mem.groups
    && s.disk.groupPolicies == s.mem.groupPolicies
  }

  // ---- The relationship invariant ----

  /** Group descriptions and the membership index say the same thing. */
  ghost predicate IndexAgrees(g: Graph) {
    forall u, n :: n in g.Index(u) <==> g.Listed(u, n)
  }

  ghost predicate MembersRegular(g: Graph) {
    forall u, n :: g.Listed(u, n) ==> u in g.users && g.users[u].IsRegular()
  }

  ghost predicate MappingsOwned(g: Graph) {
    g.userPolicies.Keys <= g.users.Keys && g.groupPolicies.Keys <= g.groups.Keys
  }

  ghost predicate GraphInv(g: Graph) { IndexAgrees(g) && MembersRegular(g) && MappingsOwned(g) }

  ghost predicate Inv(s: State) { GraphInv(s.mem) && Synced(s) }

  /** A server started on an empty store. */
  const EMPTY: State :=
    State(Graph(0, map[], map[], map[], map[], map[], map[]), Disk(map[], map[], map[], map[]))

  // ---- Effective policies ----

  function PolicySet(m: map<string, Policies>, name: string): (r: set<string>)
    ensures name !in m ==> r == {}
  {
    if name in m then set p | p in m[name] else {}
  }

  /** What a credential is granted while it is valid: its own mapping, else its parent's, plus those of its
      enabled groups. */
  ghost function Granted(g: Graph, name: string): set<string>
    requires name in g.users
  {
    var parent := g.users[name].parentUser;
    var direct :=
      if name in g.userPolicies then PolicySet(g.userPolicies, name)
      else if parent != "" then PolicySet(g.userPolicies, parent)
      else {};
    direct + GroupPolicySet(g, g.Index(name))
  }

  /** The policies evaluation finds for a name: `Err` when there is no such credential, nothing for a disabled or
      expired one. */
  ghost function PolicyGet(g: Graph, now: int, name: string): Result<set<string>> {
    if name !in g.users then Err(NoSuchUser) else if !g.users[name].IsValid(now) then Ok({}) else Ok(Granted(g, name))
  }

  ghost function GroupPolicySet(g: Graph, names: set<string>): set<string> {
    set n, p | n in names && n in g.groups && g.groups[n].status != STATUS_DISABLED
               && p in PolicySet(g.groupPolicies, n) :: p
  }

  /** A linked credential is also judged by its parent's policies. */
  ghost function Effective(g: Graph, now: int, key: string): (Result<set<string>>, Result<set<string>>) {
    ( PolicyGet(g, now, key),
      if key in g.users && g.users[key].parentUser != "" then PolicyGet(g, now, g.users[key].parentUser) else Ok({}) )
  }

  // ---- Fingerprints and tokens ----

  /** The stored form of a mapping: the names with commas between them. */
  function Joined(names: seq<string>): string {
    if names == [] then "" else if |names| == 1 then names[0] else names[0] + "," + Joined(names[1..])
  }

  /** Names that can be told apart once joined. */
  predicate Joinable(names: seq<string>) { names != [] && forall n :: n in names ==> n != "" && ',' !in n }

  datatype PrintedCredential = PrintedCredential(rest: Credential, groups: multiset<string>)
  datatype PrintedGroup = PrintedGroup(status: string, members: multiset<string>)

  /** The canonical image of the graph that is hashed: arrays with set meaning lose their order, mappings are
      their stored text. */
  datatype Fingerprint = Fingerprint(
    epoch: nat,
    users: map<string, PrintedCredential>,
    groups: map<string, PrintedGroup>,
    userPolicies: map<string, string>,
    groupPolicies: map<string, string>,
    documents: map<string, Document>,
    memberships: map<string, set<string>>)

  function PrintedUsers(users: map<string, Credential>): map<string, PrintedCredential> {
    map k | k in users :: PrintedCredential(users[k].(groups := []), multiset(users[k].groups))
  }

  function PrintedGroups(groups: map<string, GroupInfo>): map<string, PrintedGroup> {
    map n | n in groups :: PrintedGroup(groups[n].status, multiset(groups[n].members))
  }

  function PrintedMappings(m: map<string, Policies>): map<string, string> { map n | n in m :: Joined(m[n]) }

  function Canonical(g: Graph): Fingerprint {
    Fingerprint(g.epoch % EPOCH_MODULUS, PrintedUsers(g.users), PrintedGroups(g.groups),
                PrintedMappings(g.userPolicies), PrintedMappings(g.groupPolicies), g.documents, g.memberships)
  }

  datatype Kind = UserKind | GroupKind | ServiceKind

  datatype BoundGroup = BoundGroup(status: string, members: multiset<string>, policies: multiset<string>)

  /** The older per-target revision: direct policies plus the identity they are bound to. */
  datatype BindingView =
    | UserBinding(target: string, policies: multiset<string>, credential: Credential,
                  memberships: set<string>, groups: map<string, BoundGroup>)
    | GroupBinding(target: string, policies: multiset<string>, group: BoundGroup)

  /** What the server knows besides the graph: the root access key, the length of the JSON
      text of a graph, the keyed digest of that text, and the keyed hash that seals a token. */
  datatype Env = Env(
    root: string,
    encodedLen: Graph -> nat,
    digest: Graph -> string,
    seal: (Kind, string, int, string) -> string,
    sealBinding: BindingView -> string)

  function RecordCount(g: Graph): nat {
    |g.users| + |g.groups| + |g.userPolicies| + |g.groupPolicies| + |g.documents| + |g.memberships|
  }

  /** The graph can be written as JSON at all: every expiration has a printable year. */
  predicate Marshals(g: Graph) { forall k :: k in g.users ==> Printable(g.users[k].expiration) }

  /** Within the bounds on records and bytes. */
  predicate Tokenable(env: Env, g: Graph) {
    RecordCount(g) <= GRAPH_LIMIT && Marshals(g) && env.encodedLen(g) <= ENCODED_LIMIT
  }

  function TokenOf(env: Env, g: Graph, kind: Kind, target: string, expires: int): Result<string> {
    if !Tokenable(env, g) then Err(ActionNotAllowed)
    else Ok(env.seal(kind, target, expires, env.digest(g)))
  }

  // ---- Impact ----

  /** Credentials reached from a set of native users: the users themselves and everything linked below. */
  ghost function Reached(g: Graph, parents: set<string>): set<string> {
    set k | k in g.users && (k in parents || (g.users[k].parentUser != "" && g.users[k].parentUser in parents))
  }

  ghost function GroupUsers(g: Graph, group: string): set<string> {
    set u | u in g.users && (g.Listed(u, group) || group in g.Index(u))
  }

  /** Every credential a group touches is an existing regular user, whichever representation lists it. */
  ghost predicate GroupClosed(g: Graph, group: string) {
    forall u :: g.Listed(u, group) || group in g.Index(u) ==> u in g.users && g.users[u].IsRegular()
  }

  ghost function Impact(env: Env, g: Graph, kind: Kind, target: string): Result<seq<string>> {
    if !ValidName(target) then Err(ActionNotAllowed)
    else if |g.users| + |g.groups| + |g.documents| + |g.memberships| > GRAPH_LIMIT then Err(ActionNotAllowed)
    else match kind
      case UserKind =>
        if target !in g.users then Err(NoSuchUser)
        else if !g.users[target].IsRegular() || target == env.root then Err(ActionNotAllowed)
        else Ok(SortedOf(Reached(g, {target})))
      case GroupKind =>
        if target !in g.groups then Err(NoSuchGroup)
        else if !GroupClosed(g, target) then Err(ActionNotAllowed)
        else Ok(SortedOf(Reached(g, GroupUsers(g, target))))
      case ServiceKind =>
        if target !in g.users then Err(NoSuchUser)
        else if !g.users[target].IsServiceAccount() then Err(ActionNotAllowed)
        else if g.users[target].parentUser !in g.users || !g.users[g.users[target].parentUser].IsRegular() then
          Err(ActionNotAllowed)
        else Ok([target])
  }
}
