/**
 The decoder for bucket policies: a recursive reader of a JSON token stream that refuses repeated
 names and values nested deeper than a limit.
 */
module ConfigJson {
  const MAX_DEPTH := 32

  datatype Scalar = Null | Bool(b: bool) | Num(text: string) | Str(s: string)

  /** `Bad` stands where the underlying decoder reports an error. */
  datatype Token = OpenObject | CloseObject | OpenArray | CloseArray | Plain(scalar: Scalar) | Bad

  datatype Value = Atom(scalar: Scalar) | Object(fields: map<string, Value>) | Array(items: seq<Value>)

  datatype Result = Fail | Done(value: Value, rest: seq<Token>)

  predicate More(ts: seq<Token>) { ts != [] && !ts[0].CloseObject? && !ts[0].CloseArray? }

  predicate IsName(t: Token) { t.Plain? && t.scalar.Str? }

  // ---- What the decoder computes ----

  function Decode(ts: seq<Token>, depth: nat): (r: Result)
    ensures r.Done? ==> |r.rest| < |ts|
    decreases |ts|, 0
  {
    if depth > MAX_DEPTH || ts == [] then Fail
    else match ts[0]
      case Plain(scalar) => Done(Atom(scalar), ts[1..])
      case OpenObject => Fields(ts[1..], depth, map[])
      case OpenArray => Items(ts[1..], depth, [])
      case _ => Fail
  }

  function Fields(ts: seq<Token>, depth: nat, acc: map<string, Value>): (r: Result)
    ensures r.Done? ==> |r.rest| < |ts|
    decreases |ts|, 1
  {
    if !More(ts) then if ts != [] && ts[0].CloseObject? then Done(Object(acc), ts[1..]) else Fail
    else if !IsName(ts[0]) || ts[0].scalar.s in acc then Fail
    else
      var v := Decode(ts[1..], depth + 1);
      if v.Fail? then Fail else Fields(v.rest, depth, acc[ts[0].scalar.s := v.value])
  }

  function Items(ts: seq<Token>, depth: nat, acc: seq<Value>): (r: Result)
    ensures r.Done? ==> |r.rest| < |ts|
    decreases |ts|, 1
  {
    if !More(ts) then if ts != [] && ts[0].CloseArray? then Done(Array(acc), ts[1..]) else Fail
    else
      var v := Decode(ts, depth + 1);
      if v.Fail? then Fail else Items(v.rest, depth, acc + [v.value])
  }

  // ---- The decoder ----

  class Reader {
    var rest: seq<Token>

    constructor (tokens: seq<Token>)
      ensures rest == tokens
    {
      rest := tokens;
    }

    /** The next token, or `Bad` at the end of the input. */
    method Next() returns (t: Token)
      modifies this
      ensures old(rest) == [] ==> t == Bad && rest == []
      ensures old(rest) != [] ==> t == old(rest)[0] && rest == old(rest)[1..]
    {
      if rest == [] { return Bad; }
      t, rest := rest[0], rest[1..];
    }

    method DecodeUnique(depth: nat) returns (v: Value, ok: bool)
      modifies this
      ensures ok <==> Decode(old(rest), depth).Done?
      ensures ok ==> Decode(old(rest), depth) == Done(v, rest)
      decreases |rest|
    {
      v := Atom(Null);
      if depth > MAX_DEPTH { return v, false; }
      var t := Next();
      match t {
        case Bad => return v, false;
        case Plain(scalar) => return Atom(scalar), true;
        case OpenObject =>
          var fields: map<string, Value> := map[];
          while More(rest)
            invariant |rest| < |old(rest)| && Decode(old(rest), depth) == Fields(rest, depth, fields)
            decreases |rest|
          {
            var key := Next();
            if !IsName(key) || key.scalar.s in fields { return v, false; }
            var value, found := DecodeUnique(depth + 1);
            if !found { return v, false; }
            fields := fields[key.scalar.s := value];
          }
          var end := Next();
          return Object(fields), end == CloseObject;
        case OpenArray =>
          var items: seq<Value> := [];
          while More(rest)
            invariant |rest| < |old(rest)| && Decode(old(rest), depth) == Items(rest, depth, items)
            decreases |rest|
          {
            var value, found := DecodeUnique(depth + 1);
            if !found { return v, false; }
            items := items + [value];
          }
          var end := Next();
          return Array(items), end == CloseArray;
        case _ => return v, false;
      }
    }
  }

  // ---- Trees, as they are written ----

  datatype Field = Field(key: string, tree: Tree)

  datatype Tree = Leaf(scalar: Scalar) | Node(fields: seq<Field>) | List(items: seq<Tree>)

  /** The tokens of a tree, followed by `rest`. */
  function TokensThen(t: Tree, rest: seq<Token>): seq<Token>
    decreases t, 0
  {
    match t
    case Leaf(scalar) => [Plain(scalar)] + rest
    case Node(fields) => [OpenObject] + FieldsThen(fields, rest)
    case List(items) => [OpenArray] + ItemsThen(items, rest)
  }

  function FieldsThen(fields: seq<Field>, rest: seq<Token>): seq<Token>
    decreases fields
  {
    if fields == [] then [CloseObject] + rest
    else [Plain(Str(fields[0].key))] + TokensThen(fields[0].tree, FieldsThen(fields[1..], rest))
  }

  function ItemsThen(items: seq<Tree>, rest: seq<Token>): seq<Token>
    decreases items
  {
    if items == [] then [CloseArray] + rest else TokensThen(items[0], ItemsThen(items[1..], rest))
  }

  /** No object at any level repeats a name. */
  predicate Unique(t: Tree) {
    match t
    case Leaf(_) => true
    case Node(fields) =>
      && (forall i, j :: 0 <= i < j < |fields| ==> fields[i].key != fields[j].key)
      && forall i :: 0 <= i < |fields| ==> Unique(fields[i].tree)
    case List(items) => forall i :: 0 <= i < |items| ==> Unique(items[i])
  }

  /** No value, scalars included, sits deeper than the limit when the tree sits at `depth`. */
  predicate Fits(t: Tree, depth: nat) {
    && depth <= MAX_DEPTH
    && match t
       case Leaf(_) => true
       case Node(fields) => forall i :: 0 <= i < |fields| ==> Fits(fields[i].tree, depth + 1)
       case List(items) => forall i :: 0 <= i < |items| ==> Fits(items[i], depth + 1)
  }

  /** A tree and the value it denotes, field by field. */
  ghost predicate Denotes(t: Tree, v: Value)
    decreases t
  {
    match t
    case Leaf(scalar) => v == Atom(scalar)
    case Node(fields) =>
      && v.Object?
      && (forall k :: k in v.fields ==> exists i :: 0 <= i < |fields| && fields[i].key == k)
      && forall i :: 0 <= i < |fields| ==> fields[i].key in v.fields && Denotes(fields[i].tree, v.fields[fields[i].key])
    case List(items) =>
      v.Array? && |v.items| == |items| && forall i :: 0 <= i < |items| ==> Denotes(items[i], v.items[i])
  }

  // ---- Decoding what is written ----

  predicate Good(t: Tree, depth: nat) { Unique(t) && Fits(t, depth) }

  ghost predicate FieldsGood(fields: seq<Field>, depth: nat, acc: map<string, Value>) {
    && (forall i :: 0 <= i < |fields| ==> fields[i].key !in acc && Good(fields[i].tree, depth))
    && forall i, j :: 0 <= i < j < |fields| ==> fields[i].key != fields[j].key
  }

  /** The map holds what it held before and the given fields. */
  ghost predicate Extends(after: map<string, Value>, acc: map<string, Value>, fields: seq<Field>) {
    && (forall k :: k in after ==> k in acc || exists i :: 0 <= i < |fields| && fields[i].key == k)
    && (forall k :: k in acc ==> k in after && after[k] == acc[k])
    && forall i :: 0 <= i < |fields| ==> fields[i].key in after && Denotes(fields[i].tree, after[fields[i].key])
  }

  lemma NodeDecoded(fields: seq<Field>, depth: nat, rest: seq<Token>)
    requires depth <= MAX_DEPTH
    ensures Decode(TokensThen(Node(fields), rest), depth) == Fields(FieldsThen(fields, rest), depth, map[])
  {
    assert TokensThen(Node(fields), rest)[1..] == FieldsThen(fields, rest);
  }

  lemma ListDecoded(items: seq<Tree>, depth: nat, rest: seq<Token>)
    requires depth <= MAX_DEPTH
    ensures Decode(TokensThen(List(items), rest), depth) == Items(ItemsThen(items, rest), depth, [])
  {
    assert TokensThen(List(items), rest)[1..] == ItemsThen(items, rest);
  }

  lemma NodeGood(fields: seq<Field>, depth: nat)
    requires depth <= MAX_DEPTH
    ensures Good(Node(fields), depth) <==> FieldsGood(fields, depth + 1, map[])
  {}

  lemma ListGood(items: seq<Tree>, depth: nat)
    requires depth <= MAX_DEPTH
    ensures Good(List(items), depth) <==> ItemsGood(items, depth + 1)
  {}

  lemma NodeDenotes(fields: seq<Field>, v: Value)
    requires v.Object? && Extends(v.fields, map[], fields)
    ensures Denotes(Node(fields), v)
  {}

  lemma ListDenotes(items: seq<Tree>, v: Value)
    requires v.Array? && Appends(v.items, [], items)
    ensures Denotes(List(items), v)
  {}

  lemma {:induction false} DecodeTree(t: Tree, depth: nat, rest: seq<Token>)
    ensures var r := Decode(TokensThen(t, rest), depth);
            (r.Done? <==> Good(t, depth)) && (r.Done? ==> r.rest == rest && Denotes(t, r.value))
    decreases t, 0
  {
    if depth <= MAX_DEPTH {
      match t
      case Leaf(_) =>
      case Node(fields) =>
        DecodeFields(fields, depth, map[], rest);
        NodeDecoded(fields, depth, rest);
        NodeGood(fields, depth);
        var r := Fields(FieldsThen(fields, rest), depth, map[]);
        if r.Done? { NodeDenotes(fields, r.value); }
      case List(items) =>
        DecodeItems(items, depth, [], rest);
        ListDecoded(items, depth, rest);
        ListGood(items, depth);
        var r := Items(ItemsThen(items, rest), depth, []);
        if r.Done? { ListDenotes(items, r.value); }
    }
  }

  lemma {:induction false} DecodeFields(fields: seq<Field>, depth: nat, acc: map<string, Value>, rest: seq<Token>)
    ensures var r := Fields(FieldsThen(fields, rest), depth, acc);
            (r.Done? <==> FieldsGood(fields, depth + 1, acc))
            && (r.Done? ==> r.rest == rest && r.value.Object? && Extends(r.value.fields, acc, fields))
    decreases fields
  {
    if fields != [] {
      var key, tree, more := fields[0].key, fields[0].tree, fields[1..];
      var after := FieldsThen(more, rest);
      assert FieldsThen(fields, rest)[1..] == TokensThen(tree, after);
      DecodeTree(tree, depth + 1, after);
      var v := Decode(TokensThen(tree, after), depth + 1);
      if key !in acc && v.Done? {
        DecodeFields(more, depth, acc[key := v.value], rest);
        FieldsGoodCons(fields, depth + 1, acc, v.value);
        var r := Fields(after, depth, acc[key := v.value]);
        if r.Done? { ExtendsCons(r.value.fields, acc, fields, v.value); }
      }
    }
  }

  lemma FieldsGoodCons(fields: seq<Field>, depth: nat, acc: map<string, Value>, v: Value)
    requires fields != [] && fields[0].key !in acc && Good(fields[0].tree, depth)
    ensures FieldsGood(fields, depth, acc) <==> FieldsGood(fields[1..], depth, acc[fields[0].key := v])
  {}

  lemma ExtendsCons(after: map<string, Value>, acc: map<string, Value>, fields: seq<Field>, v: Value)
    requires fields != [] && fields[0].key !in acc && Denotes(fields[0].tree, v)
    requires Extends(after, acc[fields[0].key := v], fields[1..])
    ensures Extends(after, acc, fields)
  {}

  predicate ItemsGood(items: seq<Tree>, depth: nat) { forall i :: 0 <= i < |items| ==> Good(items[i], depth) }

  ghost predicate Appends(after: seq<Value>, acc: seq<Value>, items: seq<Tree>) {
    && |after| == |acc| + |items|
    && after[..|acc|] == acc
    && forall i :: 0 <= i < |items| ==> Denotes(items[i], after[|acc| + i])
  }

  lemma {:induction false} DecodeItems(items: seq<Tree>, depth: nat, acc: seq<Value>, rest: seq<Token>)
    ensures var r := Items(ItemsThen(items, rest), depth, acc);
            (r.Done? <==> ItemsGood(items, depth + 1))
            && (r.Done? ==> r.rest == rest && r.value.Array? && Appends(r.value.items, acc, items))
    decreases items
  {
    if items != [] {
      var tree, more := items[0], items[1..];
      var after := ItemsThen(more, rest);
      DecodeTree(tree, depth + 1, after);
      var v := Decode(TokensThen(tree, after), depth + 1);
      ItemsGoodCons(items, depth + 1);
      if v.Done? {
        DecodeItems(more, depth, acc + [v.value], rest);
        var r := Items(after, depth, acc + [v.value]);
        if r.Done? { AppendsCons(r.value.items, acc, items, v.value); }
      }
    }
  }

  lemma ItemsGoodCons(items: seq<Tree>, depth: nat)
    requires items != []
    ensures ItemsGood(items, depth) <==> Good(items[0], depth) && ItemsGood(items[1..], depth)
  {}

  lemma AppendsCons(after: seq<Value>, acc: seq<Value>, items: seq<Tree>, v: Value)
    requires items != [] && Denotes(items[0], v) && Appends(after, acc + [v], items[1..])
    ensures Appends(after, acc, items)
  {}

  // ---- What decodes is written somewhere ----

  lemma {:induction false} Written(ts: seq<Token>, depth: nat) returns (t: Tree)
    requires Decode(ts, depth).Done?
    ensures ts == TokensThen(t, Decode(ts, depth).rest)
    decreases |ts|, 0
  {
    match ts[0]
    case Plain(scalar) => t := Leaf(scalar);
    case OpenObject =>
      var fields := WrittenFields(ts[1..], depth, map[]);
      t := Node(fields);
    case OpenArray =>
      var items := WrittenItems(ts[1..], depth, []);
      t := List(items);
  }

  lemma {:induction false} WrittenFields(ts: seq<Token>, depth: nat, acc: map<string, Value>)
      returns (fields: seq<Field>)
    requires Fields(ts, depth, acc).Done?
    ensures ts == FieldsThen(fields, Fields(ts, depth, acc).rest)
    decreases |ts|, 1
  {
    if !More(ts) {
      fields := [];
    } else {
      var key := ts[0].scalar.s;
      var v := Decode(ts[1..], depth + 1);
      var tree := Written(ts[1..], depth + 1);
      var more := WrittenFields(v.rest, depth, acc[key := v.value]);
      fields := [Field(key, tree)] + more;
    }
  }

  lemma {:induction false} WrittenItems(ts: seq<Token>, depth: nat, acc: seq<Value>) returns (items: seq<Tree>)
    requires Items(ts, depth, acc).Done?
    ensures ts == ItemsThen(items, Items(ts, depth, acc).rest)
    decreases |ts|, 1
  {
    if !More(ts) {
      items := [];
    } else {
      var v := Decode(ts, depth + 1);
      var tree := Written(ts, depth + 1);
      var more := WrittenItems(v.rest, depth, acc + [v.value]);
      items := [tree] + more;
    }
  }

  lemma {:induction false} DenotesOne(t: Tree, v: Value, w: Value)
    requires Denotes(t, v) && Denotes(t, w)
    ensures v == w
    decreases t
  {
    match t
    case Leaf(_) =>
    case Node(fields) =>
      forall k | k in v.fields || k in w.fields ensures k in v.fields && k in w.fields && v.fields[k] == w.fields[k] {
        var i :| 0 <= i < |fields| && fields[i].key == k;
        DenotesOne(fields[i].tree, v.fields[k], w.fields[k]);
      }
      assert v.fields == w.fields;
    case List(items) =>
      forall i | 0 <= i < |items| ensures v.items[i] == w.items[i] { DenotesOne(items[i], v.items[i], w.items[i]); }
  }

  /** Main result, on all token streams: decoding yields a value and the unread rest exactly when the
      stream starts with the tokens of a tree without repeated names or values below the limit, and
      then the value is that tree's. */
  lemma DecodesExactly(ts: seq<Token>, depth: nat, v: Value, rest: seq<Token>)
    ensures Decode(ts, depth) == Done(v, rest)
       <==> exists t :: ts == TokensThen(t, rest) && Unique(t) && Fits(t, depth) && Denotes(t, v)
  {
    if Decode(ts, depth) == Done(v, rest) {
      var t := Written(ts, depth);
      DecodeTree(t, depth, rest);
    }
    if t :| ts == TokensThen(t, rest) && Unique(t) && Fits(t, depth) && Denotes(t, v) {
      DecodeTree(t, depth, rest);
      DenotesOne(t, v, Decode(ts, depth).value);
    }
  }

  /** A value lies the given number of levels below the root. */
  predicate Reaches(t: Tree, levels: nat) {
    levels == 0
    || match t
       case Leaf(_) => false
       case Node(fields) => exists i :: 0 <= i < |fields| && Reaches(fields[i].tree, levels - 1)
       case List(items) => exists i :: 0 <= i < |items| && Reaches(items[i], levels - 1)
  }

  /** A tree fits exactly when nothing lies thirty-three levels down. */
  lemma {:induction false} FitsExactly(t: Tree, depth: nat)
    requires depth <= 33
    ensures Fits(t, depth) <==> !Reaches(t, 33 - depth)
  {
    if depth < 33 {
      match t
      case Leaf(_) =>
      case Node(fields) =>
        forall i | 0 <= i < |fields| ensures Fits(fields[i].tree, depth + 1) <==> !Reaches(fields[i].tree, 32 - depth) {
          FitsExactly(fields[i].tree, depth + 1);
        }
      case List(items) =>
        forall i | 0 <= i < |items| ensures Fits(items[i], depth + 1) <==> !Reaches(items[i], 32 - depth) {
          FitsExactly(items[i], depth + 1);
        }
    }
  }
}
