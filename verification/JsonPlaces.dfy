/**
 Which arrays of the graph image may be written in any order, place by place: rearranging the array at one place of a
 tree leaves its canonical bytes as they were exactly when the place is one of those written out here, or when nothing
 but the order of such arrays further down has changed.
 */
module JsonPlaces {
  import opened Lex
  import opened CanonicalJson

  /** One step down a tree. */
  datatype Hop = Field(name: string) | Item(index: nat)

  type Route = seq<Hop>

  function PathOf(route: Route): Path {
    if route == [] then []
    else [if route[0].Field? then route[0].name else "[]"] + PathOf(route[1..])
  }

  predicate Leads(j: Json, route: Route) {
    route == []
    || (match route[0]
        case Field(name) => j.Obj? && name in j.fields && Leads(j.fields[name], route[1..])
        case Item(i) => j.Arr? && i < |j.items| && Leads(j.items[i], route[1..]))
  }

  function At(j: Json, route: Route): Json
    requires Leads(j, route)
  {
    if route == [] then j
    else match route[0]
      case Field(name) => At(j.fields[name], route[1..])
      case Item(i) => At(j.items[i], route[1..])
  }

  /** The tree with something else at the end of the route. */
  function Put(j: Json, route: Route, x: Json): Json
    requires Leads(j, route)
  {
    if route == [] then x
    else match route[0]
      case Field(name) => Obj(j.fields[name := Put(j.fields[name], route[1..], x)])
      case Item(i) => Arr(j.items[i := Put(j.items[i], route[1..], x)])
  }

  /** The places whose arrays stand for sets. */
  predicate SetPlace(path: Path) {
    || (|path| == 3 && path == ["Users", path[1], "groups"])
    || (|path| == 3 && path == ["Groups", path[1], "members"])
    || (|path| == 5 && path == ["Policies", path[1], "Statement", "[]", "Action"])
    || (|path| == 5 && path == ["Policies", path[1], "Statement", "[]", "Resource"])
    || (|path| == 7 && path == ["Policies", path[1], "Statement", "[]", "Condition", path[5], path[6]])
  }

  lemma SetPlaceExactly(path: Path)
    ensures IsSetPath(path) <==> SetPlace(path)
  {}

  lemma {:induction false} PutWellFormed(j: Json, route: Route, x: Json)
    requires WellFormed(j) && WellFormed(x) && Leads(j, route)
    ensures WellFormed(Put(j, route, x)) && WellFormed(At(j, route))
  {
    if route != [] {
      match route[0]
      case Field(name) => PutWellFormed(j.fields[name], route[1..], x);
      case Item(i) => PutWellFormed(j.items[i], route[1..], x);
    }
  }

  /** Canonical items are those of the items one by one. */
  lemma ItemsChanged(items: seq<Json>, path: Path, i: nat, x: Json)
    requires i < |items|
    ensures CanonicalItems(items[i := x], path) == CanonicalItems(items, path)[i := Canonical(x, path)]
  {
    var a, b := CanonicalItems(items[i := x], path), CanonicalItems(items, path);
    forall k | 0 <= k < |items| ensures a[k] == b[i := Canonical(x, path)][k] {
      CanonicalItemsAt(items[i := x], path, k);
      CanonicalItemsAt(items, path, k);
    }
  }

  lemma OneMore(rest: multiset<Json>, x: Json, y: Json)
    ensures multiset{y} + rest == multiset{x} + rest <==> y == x
  {
    assert (multiset{x} + rest) - rest == multiset{x} && (multiset{y} + rest) - rest == multiset{y};
    if multiset{y} + rest == multiset{x} + rest { assert y in multiset{x}; }
  }

  lemma SameBag(s: seq<Json>, i: nat, x: Json)
    requires i < |s|
    ensures multiset(s[i := x]) == multiset(s) <==> x == s[i]
  {
    RemovedMultiset(s, i);
    RemovedMultiset(s[i := x], i);
    assert Removed(s[i := x], i) == Removed(s, i);
    OneMore(multiset(Removed(s, i)), s[i], x);
  }

  ghost function Ordered(path: Path, done: seq<Json>): seq<Json> {
    if IsSetPath(path) then SortBy(Encode, done) else done
  }

  lemma ArrayIs(items: seq<Json>, path: Path)
    ensures Canonical(Arr(items), path) == Arr(Ordered(path, CanonicalItems(items, path + ["[]"])))
  {}

  lemma OrderedShows(path: Path, done: seq<Json>, i: nat, y: Json)
    requires i < |done| && AllWellFormed(done) && WellFormed(y)
    ensures Ordered(path, done[i := y]) == Ordered(path, done) <==> y == done[i]
  {
    assert AllWellFormed(done[i := y]);
    SortForgetsOrder(done[i := y], done);
    SameBag(done, i, y);
    assert done[i := y][i] == y;
  }

  lemma ItemShows(items: seq<Json>, path: Path, i: nat, x: Json)
    requires i < |items| && WellFormed(Arr(items)) && WellFormed(x)
    ensures var p := path + ["[]"];
            Canonical(Arr(items[i := x]), path) == Canonical(Arr(items), path) <==>
            Canonical(x, p) == Canonical(items[i], p)
  {
    var p := path + ["[]"];
    var done := CanonicalItems(items, p);
    ArrayIs(items, path);
    ArrayIs(items[i := x], path);
    ItemsChanged(items, p, i, x);
    CanonicalItemsAt(items, p, i);
    ItemsWellFormed(items, p);
    CanonicalWellFormed(x, p);
    OrderedShows(path, done, i, Canonical(x, p));
  }

  lemma FieldShows(fields: map<string, Json>, path: Path, name: string, x: Json)
    requires name in fields
    ensures Canonical(Obj(fields[name := x]), path) == Canonical(Obj(fields), path) <==>
            Canonical(x, path + [name]) == Canonical(fields[name], path + [name])
  {
    var a, b := Canonical(Obj(fields[name := x]), path).fields, Canonical(Obj(fields), path).fields;
    assert a.Keys == b.Keys;
    assert forall k :: k in b && k != name ==> a[k] == b[k];
    assert a[name] == Canonical(x, path + [name]) && b[name] == Canonical(fields[name], path + [name]);
    if a[name] == b[name] { assert a == b; }
  }

  /** A change at one place shows exactly when it shows there. */
  lemma {:induction false} PutShows(j: Json, path: Path, route: Route, x: Json)
    requires WellFormed(j) && WellFormed(x) && Leads(j, route)
    ensures var p := path + PathOf(route);
            Canonical(Put(j, route, x), path) == Canonical(j, path) <==> Canonical(x, p) == Canonical(At(j, route), p)
    decreases route
  {
    if route == [] {
      assert path + PathOf(route) == path;
    } else {
      var rest := route[1..];
      assert path + PathOf(route) == (path + [if route[0].Field? then route[0].name else "[]"]) + PathOf(rest);
      match route[0]
      case Field(name) =>
        PutShows(j.fields[name], path + [name], rest, x);
        FieldShows(j.fields, path, name, Put(j.fields[name], rest, x));
      case Item(i) =>
        PutShows(j.items[i], path + ["[]"], rest, x);
        PutWellFormed(j.items[i], rest, x);
        ItemShows(j.items, path, i, Put(j.items[i], rest, x));
    }
  }

  ghost function CanonicalBytes(j: Json): string { Encode(Canonical(j, [])) }

  lemma BytesExactly(a: Json, b: Json)
    requires WellFormed(a) && WellFormed(b)
    ensures CanonicalBytes(a) == CanonicalBytes(b) <==> Canonical(a, []) == Canonical(b, [])
  {
    CanonicalBytesExact(a, b);
    CanonicalExact(a, b, []);
  }

  lemma RearrangedAt(items: seq<Json>, items': seq<Json>, path: Path)
    requires WellFormed(Arr(items)) && WellFormed(Arr(items')) && multiset(items') == multiset(items)
    ensures Canonical(Arr(items'), path) == Canonical(Arr(items), path) <==>
            SetPlace(path) || Pointwise(items', items, path + ["[]"])
  {
    SetPlaceExactly(path);
    CanonicalExact(Arr(items'), Arr(items), path);
    CanonicalPermuted(items', items, path + ["[]"]);
    ReorderedExact(items', items, path + ["[]"]);
  }

  lemma PutShowsBytes(j: Json, route: Route, x: Json)
    requires WellFormed(j) && WellFormed(x) && Leads(j, route)
    ensures CanonicalBytes(Put(j, route, x)) == CanonicalBytes(j) <==>
            Canonical(x, PathOf(route)) == Canonical(At(j, route), PathOf(route))
  {
    PutWellFormed(j, route, x);
    BytesExactly(Put(j, route, x), j);
    PutShows(j, [], route, x);
    assert [] + PathOf(route) == PathOf(route);
  }

  lemma RearrangedWellFormed(items: seq<Json>, items': seq<Json>)
    requires WellFormed(Arr(items)) && multiset(items') == multiset(items)
    ensures WellFormed(Arr(items'))
  {
    PermutedWellFormed(items, items');
  }

  /** Main result: rearranging the array at one place leaves the canonical bytes as they were exactly when the array
      stands for a set, or when every item is as the one it replaces but for sets inside it. */
  lemma RearrangementShowsExactly(j: Json, route: Route, items': seq<Json>)
    requires WellFormed(j) && Leads(j, route) && At(j, route).Arr? && multiset(items') == multiset(At(j, route).items)
    ensures CanonicalBytes(Put(j, route, Arr(items'))) == CanonicalBytes(j) <==>
            SetPlace(PathOf(route)) || Pointwise(items', At(j, route).items, PathOf(route) + ["[]"])
  {
    var items := At(j, route).items;
    PutWellFormed(j, route, Null);
    RearrangedWellFormed(items, items');
    PutShowsBytes(j, route, Arr(items'));
    RearrangedAt(items, items', PathOf(route));
  }

  /** For texts, nothing lies further down: any other order shows. */
  lemma {:induction false} TextsPointwise(a: seq<Json>, b: seq<Json>, path: Path)
    requires forall i :: 0 <= i < |a| ==> a[i].Str?
    ensures Pointwise(a, b, path) <==> a == b
  {
    if a != [] && b != [] {
      TextsPointwise(a[1..], b[1..], path);
      assert a == [a[0]] + a[1..] && b == [b[0]] + b[1..];
    }
  }

  /** The actions, the resources and the values of each condition of a statement may be written in any order. */
  lemma StatementSetsForgotten(j: Json, policy: string, i: nat, part: Route, items': seq<Json>)
    requires part == [Field("Action")] || part == [Field("Resource")]
             || (|part| == 3 && part[0] == Field("Condition") && part[1].Field? && part[2].Field?)
    requires var route := [Field("Policies"), Field(policy), Field("Statement"), Item(i)] + part;
             WellFormed(j) && Leads(j, route) && At(j, route).Arr? && multiset(items') == multiset(At(j, route).items)
    ensures var route := [Field("Policies"), Field(policy), Field("Statement"), Item(i)] + part;
            CanonicalBytes(Put(j, route, Arr(items'))) == CanonicalBytes(j)
  {
    var route := [Field("Policies"), Field(policy), Field("Statement"), Item(i)] + part;
    assert route[4] == part[0];
    if |part| == 1 { ListPath(route); } else { ConditionPath(route); }
    RearrangementShowsExactly(j, route, items');
  }

  lemma {:induction false} PathOfLength(route: Route)
    ensures |PathOf(route)| == |route|
    ensures forall k :: 0 <= k < |route| ==> PathOf(route)[k] == if route[k].Field? then route[k].name else "[]"
  {
    if route != [] { PathOfLength(route[1..]); }
  }

  lemma ListPath(route: Route)
    requires |route| == 5 && route[0] == Field("Policies") && route[2] == Field("Statement") && route[3].Item?
    requires route[1].Field? && (route[4] == Field("Action") || route[4] == Field("Resource"))
    ensures SetPlace(PathOf(route))
  {
    PathOfLength(route);
    var path := PathOf(route);
    assert path == ["Policies", path[1], "Statement", "[]", route[4].name];
  }

  lemma ConditionPath(route: Route)
    requires |route| == 7 && route[0] == Field("Policies") && route[2] == Field("Statement") && route[3].Item?
    requires route[1].Field? && route[4] == Field("Condition") && route[5].Field? && route[6].Field?
    ensures SetPlace(PathOf(route))
  {
    PathOfLength(route);
    var path := PathOf(route);
    assert path == ["Policies", path[1], "Statement", "[]", "Condition", path[5], path[6]];
  }

  /** The groups of a credential and the members of a group may be written in any order. */
  lemma MemberSetsForgotten(j: Json, route: Route, items': seq<Json>)
    requires |route| == 3 && route[1].Field?
    requires (route[0] == Field("Users") && route[2] == Field("groups"))
             || (route[0] == Field("Groups") && route[2] == Field("members"))
    requires WellFormed(j) && Leads(j, route) && At(j, route).Arr? && multiset(items') == multiset(At(j, route).items)
    ensures CanonicalBytes(Put(j, route, Arr(items'))) == CanonicalBytes(j)
  {
    PathOfLength(route);
    RearrangementShowsExactly(j, route, items');
  }

  /** The statements of a policy may not: another order of them shows, unless each is as the one it replaces. */
  lemma StatementOrderShows(j: Json, policy: string, items': seq<Json>)
    requires var route := [Field("Policies"), Field(policy), Field("Statement")];
             WellFormed(j) && Leads(j, route) && At(j, route).Arr? && multiset(items') == multiset(At(j, route).items)
    ensures var route := [Field("Policies"), Field(policy), Field("Statement")];
            CanonicalBytes(Put(j, route, Arr(items'))) == CanonicalBytes(j) <==>
            Pointwise(items', At(j, route).items, ["Policies", policy, "Statement", "[]"])
  {
    var route := [Field("Policies"), Field(policy), Field("Statement")];
    PathOfLength(route);
    assert PathOf(route) == ["Policies", policy, "Statement"];
    assert ["Policies", policy, "Statement"] + ["[]"] == ["Policies", policy, "Statement", "[]"];
    RearrangementShowsExactly(j, route, items');
  }

  /** A list of texts anywhere else keeps its order. */
  lemma OtherTextsShow(j: Json, route: Route, items': seq<Json>)
    requires !SetPlace(PathOf(route)) && WellFormed(j) && Leads(j, route) && At(j, route).Arr?
    requires multiset(items') == multiset(At(j, route).items) && forall i :: 0 <= i < |items'| ==> items'[i].Str?
    ensures CanonicalBytes(Put(j, route, Arr(items'))) == CanonicalBytes(j) <==> items' == At(j, route).items
  {
    RearrangementShowsExactly(j, route, items');
    TextsPointwise(items', At(j, route).items, PathOf(route) + ["[]"]);
  }
}
