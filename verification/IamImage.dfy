/**
 The JSON image of the IAM graph that is hashed into a fingerprint. Its canonical bytes tell two graphs apart
 exactly when they differ in more than the order of group lists and member lists.
 */
module IamImage {
  import opened Lex
  import opened IamGraph
  import J = CanonicalJson

  type Json = J.Json

  /** How the library writes numbers and times, and a policy as a tree. */
  datatype Writer = Writer(number: nat -> string, time: int -> string, policy: Document -> Json)

  ghost predicate WriterOk(w: Writer) {
    && (forall n :: J.WellFormed(J.Num(w.number(n))))
    && (forall m, n :: w.number(m) == w.number(n) ==> m == n)
    && (forall s, t :: Printable(s) && Printable(t) && w.time(s) == w.time(t) ==> s == t)
    && (forall d :: J.WellFormed(w.policy(d)))
    && (forall d, e, n :: J.Equivalent(w.policy(d), w.policy(e), ["Policies", n]) <==> d == e)
  }

  // ---- The image ----

  function Strings(s: seq<string>): (r: seq<Json>)
    ensures |r| == |s| && forall i :: 0 <= i < |s| ==> r[i] == J.Str(s[i])
  {
    seq(|s|, i requires 0 <= i < |s| => J.Str(s[i]))
  }

  datatype Field = AccessKey | SecretKey | Expiration | SessionToken | AccountStatus | ParentUser | MemberOf

  function FieldName(f: Field): string {
    match f
    case AccessKey => "accessKey"
    case SecretKey => "secretKey"
    case Expiration => "expiration"
    case SessionToken => "sessionToken"
    case AccountStatus => "status"
    case ParentUser => "parentUser"
    case MemberOf => "groups"
  }

  /** Empty strings and lists are left out of a credential's object. */
  function FieldValue(w: Writer, c: Credential, f: Field): J.Json {
    match f
    case AccessKey => J.Str(c.accessKey)
    case SecretKey => J.Str(c.secretKey)
    case Expiration => J.Str(w.time(c.expiration))
    case SessionToken => J.Str(c.sessionToken)
    case AccountStatus => J.Str(c.status)
    case ParentUser => J.Str(c.parentUser)
    case MemberOf => J.Arr(Strings(c.groups))
  }

  predicate Omitted(c: Credential, f: Field) {
    match f
    case AccessKey => c.accessKey == ""
    case SecretKey => c.secretKey == ""
    case Expiration => false
    case SessionToken => c.sessionToken == ""
    case AccountStatus => c.status == ""
    case ParentUser => c.parentUser == ""
    case MemberOf => c.groups == []
  }

  const FIELD_NAMES := {"accessKey", "secretKey", "expiration", "sessionToken", "status", "parentUser", "groups"}

  function FieldOf(name: string): Field {
    if name == "accessKey" then AccessKey else if name == "secretKey" then SecretKey
    else if name == "expiration" then Expiration else if name == "sessionToken" then SessionToken
    else if name == "status" then AccountStatus else if name == "parentUser" then ParentUser else MemberOf
  }

  function CredentialImage(w: Writer, c: Credential): Json {
    J.Obj(map k | k in FIELD_NAMES && !Omitted(c, FieldOf(k)) :: FieldValue(w, c, FieldOf(k)))
  }

  function GroupImage(info: GroupInfo): Json {
    J.Obj(map["version" := J.Num("1"), "status" := J.Str(info.status), "members" := J.Arr(Strings(info.members))])
  }

  function MappingImage(policies: Policies): Json {
    J.Obj(map["version" := J.Num("1"), "policy" := J.Str(Joined(policies))])
  }

  datatype Part = Epoch | Users | Groups | UserPolicies | GroupPolicies | Documents | Memberships

  const PART_NAMES :=
    {"NativeIdentityEpoch", "Users", "Groups", "UserPolicies", "GroupPolicies", "Policies", "Memberships"}

  function PartName(p: Part): string {
    match p
    case Epoch => "NativeIdentityEpoch"
    case Users => "Users"
    case Groups => "Groups"
    case UserPolicies => "UserPolicies"
    case GroupPolicies => "GroupPolicies"
    case Documents => "Policies"
    case Memberships => "Memberships"
  }

  function PartOf(name: string): Part {
    if name == "NativeIdentityEpoch" then Epoch else if name == "Users" then Users else if name == "Groups" then Groups
    else if name == "UserPolicies" then UserPolicies else if name == "GroupPolicies" then GroupPolicies
    else if name == "Policies" then Documents else Memberships
  }

  function UserImages(w: Writer, users: map<string, Credential>): map<string, Json> {
    map k | k in users :: CredentialImage(w, users[k])
  }

  function GroupImages(groups: map<string, GroupInfo>): map<string, Json> {
    map n | n in groups :: GroupImage(groups[n])
  }

  function MappingImages(m: map<string, Policies>): map<string, Json> { map n | n in m :: MappingImage(m[n]) }

  function DocumentImages(w: Writer, documents: map<string, Document>): map<string, Json> {
    map n | n in documents :: w.policy(documents[n])
  }

  ghost function MembershipImages(memberships: map<string, set<string>>): map<string, Json> {
    map u | u in memberships :: J.Arr(Strings(SortedOf(memberships[u])))
  }

  ghost function PartImage(w: Writer, g: Graph, p: Part): Json {
    match p
    case Epoch => J.Num(w.number(g.epoch % EPOCH_MODULUS))
    case Users => J.Obj(UserImages(w, g.users))
    case Groups => J.Obj(GroupImages(g.groups))
    case UserPolicies => J.Obj(MappingImages(g.userPolicies))
    case GroupPolicies => J.Obj(MappingImages(g.groupPolicies))
    case Documents => J.Obj(DocumentImages(w, g.documents))
    case Memberships => J.Obj(MembershipImages(g.memberships))
  }

  function Named(part: Part -> Json): Json { J.Obj(map k | k in PART_NAMES :: part(PartOf(k))) }

  ghost function PartsOf(w: Writer, g: Graph): Part -> Json { p => PartImage(w, g, p) }

  ghost function Image(w: Writer, g: Graph): Json { Named(PartsOf(w, g)) }

  // ---- Lists of strings ----

  lemma {:induction false} PointwiseStrings(a: seq<string>, b: seq<string>, path: J.Path)
    ensures J.Pointwise(Strings(a), Strings(b), path) <==> a == b
  {
    if a != [] && b != [] {
      PointwiseStrings(a[1..], b[1..], path);
      assert Strings(a)[1..] == Strings(a[1..]) && Strings(b)[1..] == Strings(b[1..]);
      assert a == [a[0]] + a[1..] && b == [b[0]] + b[1..];
    }
  }

  lemma {:induction false} ReorderedStrings(a: seq<string>, b: seq<string>, path: J.Path)
    ensures J.Reordered(Strings(a), Strings(b), path) <==> multiset(a) == multiset(b)
    decreases |a|
  {
    assert |multiset(a)| == |a| && |multiset(b)| == |b|;
    if a != [] {
      if multiset(a) == multiset(b) {
        assert a[0] in multiset(b);
        var i :| 0 <= i < |b| && b[i] == a[0];
        ReorderedAt(a, b, path, i);
      }
      if J.Reordered(Strings(a), Strings(b), path) {
        var x, y := Strings(a), Strings(b);
        var i :| 0 <= i < |y| && J.Equivalent(x[0], y[i], path) && J.Reordered(x[1..], J.Removed(y, i), path);
        ReorderedAt(a, b, path, i);
      }
    }
  }

  lemma {:induction false} ReorderedAt(a: seq<string>, b: seq<string>, path: J.Path, i: nat)
    requires a != [] && i < |b| && b[i] == a[0]
    ensures J.Equivalent(Strings(a)[0], Strings(b)[i], path)
    ensures J.Reordered(Strings(a)[1..], J.Removed(Strings(b), i), path) <==> multiset(a) == multiset(b)
    decreases |a|, 0
  {
    ReorderedStrings(a[1..], J.Removed(b, i), path);
    StringsParts(a, b, i);
    CancelFirst(a, b, i);
  }

  lemma StringsParts(a: seq<string>, b: seq<string>, i: nat)
    requires a != [] && i < |b|
    ensures Strings(a)[1..] == Strings(a[1..]) && J.Removed(Strings(b), i) == Strings(J.Removed(b, i))
  {}

  lemma CancelFirst(a: seq<string>, b: seq<string>, i: nat)
    requires a != [] && i < |b| && b[i] == a[0]
    ensures multiset(a) == multiset(b) <==> multiset(a[1..]) == multiset(J.Removed(b, i))
  {
    J.RemovedMultiset(b, i);
    assert a == [a[0]] + a[1..];
    J.Cancel(a[0], multiset(a[1..]), multiset(J.Removed(b, i)));
  }

  // ---- Joined names ----

  lemma {:induction false} JoinedInjective(a: seq<string>, b: seq<string>)
    requires Joinable(a) && Joinable(b) && Joined(a) == Joined(b)
    ensures a == b
    decreases |a|
  {
    var x, y := Joined(a), Joined(b);
    SplitJoined(a);
    SplitJoined(b);
    FirstComma(x, a[0], b[0]);
    if |a| > 1 {
      assert x[|a[0]|] == ',';
      assert x[|a[0]| + 1..] == Joined(a[1..]) && y[|b[0]| + 1..] == Joined(b[1..]);
      JoinedInjective(a[1..], b[1..]);
      assert a == [a[0]] + a[1..] && b == [b[0]] + b[1..];
    }
  }

  lemma SplitJoined(a: seq<string>)
    requires Joinable(a)
    ensures a[0] <= Joined(a) && ',' !in a[0]
    ensures |a| == 1 <==> |Joined(a)| == |a[0]|
    ensures |a| > 1 ==> Joined(a)[|a[0]|] == ',' && Joined(a)[|a[0]| + 1..] == Joined(a[1..]) && Joinable(a[1..])
  {
    assert a[0] in a;
    if |a| > 1 { assert forall n :: n in a[1..] ==> n in a; }
  }

  lemma FirstComma(x: string, p: string, q: string)
    requires p <= x && q <= x && ',' !in p && ',' !in q
    requires |x| == |p| || x[|p|] == ','
    requires |x| == |q| || x[|q|] == ','
    ensures p == q
  {}

  ghost predicate MappingsJoinable(m: map<string, Policies>) { forall n :: n in m ==> Joinable(m[n]) }

  /** Mappings that are joinable are told apart by their stored text. */
  lemma PrintedMappingsInjective(a: map<string, Policies>, b: map<string, Policies>)
    requires MappingsJoinable(a) && MappingsJoinable(b) && PrintedMappings(a) == PrintedMappings(b)
    ensures a == b
  {
    assert a.Keys == PrintedMappings(a).Keys == b.Keys;
    forall n | n in a ensures a[n] == b[n] {
      assert Joined(a[n]) == PrintedMappings(a)[n] == Joined(b[n]);
      JoinedInjective(a[n], b[n]);
    }
  }

  // ---- Objects ----

  /** Two objects agree exactly when the maps they print agree, given that for each entry. */
  lemma SectionExact<T>(x: map<string, Json>, y: map<string, Json>, a: map<string, T>, b: map<string, T>, path: J.Path)
    requires x.Keys == a.Keys && y.Keys == b.Keys
    requires forall k :: k in a && k in b ==> (J.Equivalent(x[k], y[k], path + [k]) <==> a[k] == b[k])
    ensures J.Equivalent(J.Obj(x), J.Obj(y), path) <==> a == b
  {}

  // ---- Credentials ----

  lemma FieldNames(f: Field, name: string)
    ensures FieldName(f) in FIELD_NAMES && FieldOf(FieldName(f)) == f
    ensures name in FIELD_NAMES ==> FieldName(FieldOf(name)) == name
  {}

  ghost predicate SameField(c: Credential, d: Credential, f: Field) {
    match f
    case AccessKey => c.accessKey == d.accessKey
    case SecretKey => c.secretKey == d.secretKey
    case Expiration => c.expiration == d.expiration
    case SessionToken => c.sessionToken == d.sessionToken
    case AccountStatus => c.status == d.status
    case ParentUser => c.parentUser == d.parentUser
    case MemberOf => multiset(c.groups) == multiset(d.groups)
  }

  lemma FieldExact(w: Writer, c: Credential, d: Credential, f: Field, path: J.Path)
    requires WriterOk(w) && Printable(c.expiration) && Printable(d.expiration) && |path| == 2 && path[0] == "Users"
    ensures SameField(c, d, f)
       <==> (Omitted(c, f) <==> Omitted(d, f))
            && (!Omitted(c, f) ==> J.Equivalent(FieldValue(w, c, f), FieldValue(w, d, f), path + [FieldName(f)]))
  {
    if f == MemberOf {
      assert J.IsSetPath(path + [FieldName(f)]);
      ReorderedStrings(c.groups, d.groups, path + [FieldName(f)] + ["[]"]);
      assert |multiset(c.groups)| == |c.groups| && |multiset(d.groups)| == |d.groups|;
    }
  }

  lemma FieldsAreAll(c: Credential, d: Credential)
    ensures (forall f :: SameField(c, d, f))
       <==> c.(groups := []) == d.(groups := []) && multiset(c.groups) == multiset(d.groups)
  {
    if forall f :: SameField(c, d, f) {
      assert SameField(c, d, AccessKey) && SameField(c, d, SecretKey) && SameField(c, d, Expiration)
             && SameField(c, d, SessionToken) && SameField(c, d, AccountStatus) && SameField(c, d, ParentUser)
             && SameField(c, d, MemberOf);
    }
  }

  ghost predicate KeyAgrees(x: map<string, Json>, y: map<string, Json>, k: string, path: J.Path) {
    (k in x <==> k in y) && (k in x && k in y ==> J.Equivalent(x[k], y[k], path + [k]))
  }

  lemma KeyExact(w: Writer, c: Credential, d: Credential, f: Field, path: J.Path)
    requires WriterOk(w) && Printable(c.expiration) && Printable(d.expiration) && |path| == 2 && path[0] == "Users"
    ensures KeyAgrees(CredentialImage(w, c).fields, CredentialImage(w, d).fields, FieldName(f), path)
       <==> SameField(c, d, f)
  {
    FieldNames(f, "");
    FieldExact(w, c, d, f, path);
  }

  lemma AllKeys(x: map<string, Json>, y: map<string, Json>, path: J.Path)
    requires x.Keys <= FIELD_NAMES && y.Keys <= FIELD_NAMES
    ensures J.Equivalent(J.Obj(x), J.Obj(y), path) <==> forall f :: KeyAgrees(x, y, FieldName(f), path)
  {
    if forall f :: KeyAgrees(x, y, FieldName(f), path) {
      forall k | k in FIELD_NAMES ensures KeyAgrees(x, y, k, path) {
        FieldNames(AccessKey, k);
        assert KeyAgrees(x, y, FieldName(FieldOf(k)), path);
      }
      assert forall k :: k in x <==> k in y;
      assert x.Keys == y.Keys;
    }
  }

  lemma CredentialExact(w: Writer, c: Credential, d: Credential, path: J.Path)
    requires WriterOk(w) && Printable(c.expiration) && Printable(d.expiration) && |path| == 2 && path[0] == "Users"
    ensures J.Equivalent(CredentialImage(w, c), CredentialImage(w, d), path)
       <==> c.(groups := []) == d.(groups := []) && multiset(c.groups) == multiset(d.groups)
  {
    var x, y := CredentialImage(w, c).fields, CredentialImage(w, d).fields;
    AllKeys(x, y, path);
    FieldsAreAll(c, d);
    forall f ensures KeyAgrees(x, y, FieldName(f), path) <==> SameField(c, d, f) { KeyExact(w, c, d, f, path); }
  }

  // ---- Parts ----

  lemma UsersExact(w: Writer, a: map<string, Credential>, b: map<string, Credential>, path: J.Path)
    requires WriterOk(w) && path == ["Users"]
    requires (forall k :: k in a ==> Printable(a[k].expiration)) && forall k :: k in b ==> Printable(b[k].expiration)
    ensures J.Equivalent(J.Obj(UserImages(w, a)), J.Obj(UserImages(w, b)), path) <==> PrintedUsers(a) == PrintedUsers(b)
  {
    var x, y, c, d := UserImages(w, a), UserImages(w, b), PrintedUsers(a), PrintedUsers(b);
    forall k | k in a && k in b ensures J.Equivalent(x[k], y[k], path + [k]) <==> c[k] == d[k] {
      CredentialExact(w, a[k], b[k], path + [k]);
    }
    SectionExact(x, y, c, d, path);
  }

  lemma GroupExact(a: GroupInfo, b: GroupInfo, path: J.Path)
    requires |path| == 2 && path[0] == "Groups"
    ensures J.Equivalent(GroupImage(a), GroupImage(b), path)
       <==> a.status == b.status && multiset(a.members) == multiset(b.members)
  {
    var x, y := GroupImage(a).fields, GroupImage(b).fields;
    assert x.Keys == {"version", "status", "members"} == y.Keys;
    assert J.IsSetPath(path + ["members"]);
    ReorderedStrings(a.members, b.members, path + ["members"] + ["[]"]);
    assert J.Equivalent(x["members"], y["members"], path + ["members"]) <==> multiset(a.members) == multiset(b.members);
    assert J.Equivalent(x["status"], y["status"], path + ["status"]) <==> a.status == b.status;
    assert J.Equivalent(x["version"], y["version"], path + ["version"]);
  }

  lemma GroupsExact(a: map<string, GroupInfo>, b: map<string, GroupInfo>, path: J.Path)
    requires path == ["Groups"]
    ensures J.Equivalent(J.Obj(GroupImages(a)), J.Obj(GroupImages(b)), path) <==> PrintedGroups(a) == PrintedGroups(b)
  {
    var x, y, c, d := GroupImages(a), GroupImages(b), PrintedGroups(a), PrintedGroups(b);
    forall n | n in a && n in b ensures J.Equivalent(x[n], y[n], path + [n]) <==> c[n] == d[n] {
      GroupExact(a[n], b[n], path + [n]);
    }
    SectionExact(x, y, c, d, path);
  }

  lemma MappingExact(a: Policies, b: Policies, path: J.Path)
    ensures J.Equivalent(MappingImage(a), MappingImage(b), path) <==> Joined(a) == Joined(b)
  {
    var x, y := MappingImage(a).fields, MappingImage(b).fields;
    assert x.Keys == {"version", "policy"} == y.Keys;
    assert J.Equivalent(x["policy"], y["policy"], path + ["policy"]) <==> Joined(a) == Joined(b);
    assert J.Equivalent(x["version"], y["version"], path + ["version"]);
  }

  lemma MappingsExact(a: map<string, Policies>, b: map<string, Policies>, path: J.Path)
    ensures J.Equivalent(J.Obj(MappingImages(a)), J.Obj(MappingImages(b)), path)
       <==> PrintedMappings(a) == PrintedMappings(b)
  {
    var x, y, c, d := MappingImages(a), MappingImages(b), PrintedMappings(a), PrintedMappings(b);
    forall n | n in a && n in b ensures J.Equivalent(x[n], y[n], path + [n]) <==> c[n] == d[n] {
      MappingExact(a[n], b[n], path + [n]);
    }
    SectionExact(x, y, c, d, path);
  }

  lemma DocumentsExact(w: Writer, a: map<string, Document>, b: map<string, Document>, path: J.Path)
    requires WriterOk(w) && path == ["Policies"]
    ensures J.Equivalent(J.Obj(DocumentImages(w, a)), J.Obj(DocumentImages(w, b)), path) <==> a == b
  {
    var x, y := DocumentImages(w, a), DocumentImages(w, b);
    forall n | n in a && n in b ensures J.Equivalent(x[n], y[n], path + [n]) <==> a[n] == b[n] {
      assert path + [n] == ["Policies", n];
    }
    SectionExact(x, y, a, b, path);
  }

  lemma MembershipExact(a: set<string>, b: set<string>, path: J.Path)
    requires |path| == 2
    ensures J.Equivalent(J.Arr(Strings(SortedOf(a))), J.Arr(Strings(SortedOf(b))), path) <==> a == b
  {
    PointwiseStrings(SortedOf(a), SortedOf(b), path + ["[]"]);
    if SortedOf(a) == SortedOf(b) { assert forall n :: n in a <==> n in SortedOf(b); }
  }

  lemma MembershipsExact(a: map<string, set<string>>, b: map<string, set<string>>, path: J.Path)
    requires path == ["Memberships"]
    ensures J.Equivalent(J.Obj(MembershipImages(a)), J.Obj(MembershipImages(b)), path) <==> a == b
  {
    var x, y := MembershipImages(a), MembershipImages(b);
    forall u | u in a && u in b ensures J.Equivalent(x[u], y[u], path + [u]) <==> a[u] == b[u] {
      MembershipExact(a[u], b[u], path + [u]);
    }
    SectionExact(x, y, a, b, path);
  }

  // ---- The whole image ----

  ghost predicate SamePart(g: Graph, h: Graph, p: Part) {
    match p
    case Epoch => g.epoch % EPOCH_MODULUS == h.epoch % EPOCH_MODULUS
    case Users => PrintedUsers(g.users) == PrintedUsers(h.users)
    case Groups => PrintedGroups(g.groups) == PrintedGroups(h.groups)
    case UserPolicies => PrintedMappings(g.userPolicies) == PrintedMappings(h.userPolicies)
    case GroupPolicies => PrintedMappings(g.groupPolicies) == PrintedMappings(h.groupPolicies)
    case Documents => g.documents == h.documents
    case Memberships => g.memberships == h.memberships
  }

  ghost predicate GraphJoinable(g: Graph) { MappingsJoinable(g.userPolicies) && MappingsJoinable(g.groupPolicies) }

  lemma PartExact(w: Writer, g: Graph, h: Graph, p: Part)
    requires WriterOk(w) && Marshals(g) && Marshals(h)
    ensures J.Equivalent(PartImage(w, g, p), PartImage(w, h, p), [PartName(p)]) <==> SamePart(g, h, p)
  {
    match p
    case Epoch =>
    case Users => UsersExact(w, g.users, h.users, [PartName(p)]);
    case Groups => GroupsExact(g.groups, h.groups, [PartName(p)]);
    case UserPolicies => MappingsExact(g.userPolicies, h.userPolicies, [PartName(p)]);
    case GroupPolicies => MappingsExact(g.groupPolicies, h.groupPolicies, [PartName(p)]);
    case Documents => DocumentsExact(w, g.documents, h.documents, [PartName(p)]);
    case Memberships => MembershipsExact(g.memberships, h.memberships, [PartName(p)]);
  }

  lemma PartNames(p: Part, name: string)
    ensures PartName(p) in PART_NAMES && PartOf(PartName(p)) == p
    ensures name in PART_NAMES ==> PartName(PartOf(name)) == name
  {}

  lemma PartsAreAll(g: Graph, h: Graph)
    ensures (forall p :: SamePart(g, h, p)) <==> Canonical(g) == Canonical(h)
  {
    if forall p :: SamePart(g, h, p) {
      assert SamePart(g, h, Epoch) && SamePart(g, h, Users) && SamePart(g, h, Groups) && SamePart(g, h, UserPolicies)
             && SamePart(g, h, GroupPolicies) && SamePart(g, h, Documents) && SamePart(g, h, Memberships);
    }
  }

  ghost predicate PartAgrees(f: Part -> Json, h: Part -> Json, p: Part) { J.Equivalent(f(p), h(p), [PartName(p)]) }

  lemma ImageByParts(f: Part -> Json, h: Part -> Json)
    ensures J.Equivalent(Named(f), Named(h), []) <==> forall p :: PartAgrees(f, h, p)
  {
    var x, y := Named(f).fields, Named(h).fields;
    assert x.Keys == PART_NAMES == y.Keys;
    forall k | k in PART_NAMES ensures J.Equivalent(x[k], y[k], [] + [k]) <==> PartAgrees(f, h, PartOf(k)) {
      PartNames(Epoch, k);
      assert [] + [k] == [PartName(PartOf(k))];
    }
    if forall k :: k in PART_NAMES ==> J.Equivalent(x[k], y[k], [] + [k]) {
      forall p ensures PartAgrees(f, h, p) { PartNames(p, ""); }
    }
  }

  lemma ImageExact(w: Writer, g: Graph, h: Graph)
    requires WriterOk(w) && Marshals(g) && Marshals(h)
    ensures J.Equivalent(Image(w, g), Image(w, h), []) <==> Canonical(g) == Canonical(h)
  {
    ImageByParts(PartsOf(w, g), PartsOf(w, h));
    forall p ensures PartAgrees(PartsOf(w, g), PartsOf(w, h), p) <==> SamePart(g, h, p) { PartExact(w, g, h, p); }
    PartsAreAll(g, h);
  }

  ghost predicate AllWellFormed(m: map<string, Json>) { forall k :: k in m ==> J.WellFormed(m[k]) }

  lemma CredentialWellFormed(w: Writer, c: Credential)
    ensures J.WellFormed(CredentialImage(w, c))
  {}

  lemma GroupWellFormed(info: GroupInfo)
    ensures J.WellFormed(GroupImage(info))
  {}

  lemma PartWellFormed(w: Writer, g: Graph, p: Part)
    requires WriterOk(w)
    ensures J.WellFormed(PartImage(w, g, p))
  {
    assert J.WellFormed(J.Num("1"));
    match p
    case Epoch =>
    case Users =>
      forall k | k in g.users ensures J.WellFormed(CredentialImage(w, g.users[k])) {
        CredentialWellFormed(w, g.users[k]);
      }
    case Groups =>
      forall n | n in g.groups ensures J.WellFormed(GroupImage(g.groups[n])) { GroupWellFormed(g.groups[n]); }
    case UserPolicies => assert AllWellFormed(MappingImages(g.userPolicies));
    case GroupPolicies => assert AllWellFormed(MappingImages(g.groupPolicies));
    case Documents => assert AllWellFormed(DocumentImages(w, g.documents));
    case Memberships => assert AllWellFormed(MembershipImages(g.memberships));
  }

  lemma ImageWellFormed(w: Writer, g: Graph)
    requires WriterOk(w)
    ensures J.WellFormed(Image(w, g))
  {
    forall p ensures J.WellFormed(PartsOf(w, g)(p)) { PartWellFormed(w, g, p); }
  }

  ghost function Bytes(w: Writer, g: Graph): string { J.Encode(J.Canonical(Image(w, g), [])) }

  /** Main result: the bytes that are hashed agree for two graphs exactly when their fingerprints do, for all
      graphs that can be written at all. */
  lemma FingerprintExact(w: Writer, g: Graph, h: Graph)
    requires WriterOk(w) && Marshals(g) && Marshals(h)
    ensures Bytes(w, g) == Bytes(w, h) <==> Canonical(g) == Canonical(h)
  {
    ImageWellFormed(w, g);
    ImageWellFormed(w, h);
    J.CanonicalBytesExact(Image(w, g), Image(w, h));
    ImageExact(w, g, h);
  }

  /** The same credential, but for the order of its groups. */
  predicate SameCredential(c: Credential, d: Credential) {
    && c.accessKey == d.accessKey && c.secretKey == d.secretKey && c.expiration == d.expiration
    && c.sessionToken == d.sessionToken && c.status == d.status && c.parentUser == d.parentUser
    && multiset(c.groups) == multiset(d.groups)
  }

  /** The same records throughout: mappings by their stored text, the epoch as a 64-bit number. */
  ghost predicate SameGraph(g: Graph, h: Graph) {
    && g.epoch % 0x1_0000_0000_0000_0000 == h.epoch % 0x1_0000_0000_0000_0000
    && g.users.Keys == h.users.Keys && (forall k :: k in g.users ==> SameCredential(g.users[k], h.users[k]))
    && g.groups.Keys == h.groups.Keys
    && (forall n :: n in g.groups ==>
          g.groups[n].status == h.groups[n].status && multiset(g.groups[n].members) == multiset(h.groups[n].members))
    && g.userPolicies.Keys == h.userPolicies.Keys
    && (forall n :: n in g.userPolicies ==> Joined(g.userPolicies[n]) == Joined(h.userPolicies[n]))
    && g.groupPolicies.Keys == h.groupPolicies.Keys
    && (forall n :: n in g.groupPolicies ==> Joined(g.groupPolicies[n]) == Joined(h.groupPolicies[n]))
    && g.documents == h.documents && g.memberships == h.memberships
  }

  lemma UsersSpelled(a: map<string, Credential>, b: map<string, Credential>)
    ensures PrintedUsers(a) == PrintedUsers(b) <==>
            a.Keys == b.Keys && forall k :: k in a ==> SameCredential(a[k], b[k])
  {
    var x, y := PrintedUsers(a), PrintedUsers(b);
    assert x.Keys == a.Keys && y.Keys == b.Keys;
    if x == y {
      forall k | k in a ensures SameCredential(a[k], b[k]) { assert x[k] == y[k]; }
    }
  }

  lemma GroupsSpelled(a: map<string, GroupInfo>, b: map<string, GroupInfo>)
    ensures PrintedGroups(a) == PrintedGroups(b) <==>
            && a.Keys == b.Keys
            && forall n :: n in a ==> a[n].status == b[n].status && multiset(a[n].members) == multiset(b[n].members)
  {
    var x, y := PrintedGroups(a), PrintedGroups(b);
    assert x.Keys == a.Keys && y.Keys == b.Keys;
    if x == y {
      forall n | n in a ensures a[n].status == b[n].status && multiset(a[n].members) == multiset(b[n].members) {
        assert x[n] == y[n];
      }
    }
  }

  lemma MappingsSpelled(a: map<string, Policies>, b: map<string, Policies>)
    ensures PrintedMappings(a) == PrintedMappings(b) <==>
            a.Keys == b.Keys && forall n :: n in a ==> Joined(a[n]) == Joined(b[n])
  {
    var x, y := PrintedMappings(a), PrintedMappings(b);
    assert x.Keys == a.Keys && y.Keys == b.Keys;
    if x == y {
      forall n | n in a ensures Joined(a[n]) == Joined(b[n]) { assert x[n] == y[n]; }
    }
  }

  ghost predicate SameFields(g: Graph, h: Graph) {
    && g.epoch % EPOCH_MODULUS == h.epoch % EPOCH_MODULUS
    && PrintedUsers(g.users) == PrintedUsers(h.users) && PrintedGroups(g.groups) == PrintedGroups(h.groups)
    && PrintedMappings(g.userPolicies) == PrintedMappings(h.userPolicies)
    && PrintedMappings(g.groupPolicies) == PrintedMappings(h.groupPolicies)
    && g.documents == h.documents && g.memberships == h.memberships
  }

  lemma FieldsSpelled(g: Graph, h: Graph)
    ensures Canonical(g) == Canonical(h) <==> SameFields(g, h)
  {}

  /** The fingerprint, record by record. */
  lemma FingerprintSpelled(g: Graph, h: Graph)
    ensures Canonical(g) == Canonical(h) <==> SameGraph(g, h)
  {
    FieldsSpelled(g, h);
    UsersSpelled(g.users, h.users);
    GroupsSpelled(g.groups, h.groups);
    MappingsSpelled(g.userPolicies, h.userPolicies);
    MappingsSpelled(g.groupPolicies, h.groupPolicies);
  }

  /** Main result, without the fingerprint: the bytes that are hashed agree exactly for graphs with the same records. */
  lemma BytesTellApart(w: Writer, g: Graph, h: Graph)
    requires WriterOk(w) && Marshals(g) && Marshals(h)
    ensures Bytes(w, g) == Bytes(w, h) <==> SameGraph(g, h)
  {
    FingerprintExact(w, g, h);
    FingerprintSpelled(g, h);
  }
}
