/**
 Canonical form of the JSON image of the IAM graph: arrays that stand for sets are sorted by
 the text of their elements, everything else keeps its order. Two images get the same
 canonical bytes exactly when they differ only in the order of such set arrays.
 */
module CanonicalJson {
  import opened Lex

  /** Numbers keep their literal text, as a decoder that does not convert them leaves it. */
  datatype Json =
    | Null
    | Bool(b: bool)
    | Num(text: string)
    | Str(s: string)
    | Arr(items: seq<Json>)
    | Obj(fields: map<string, Json>)

  predicate NumberChar(c: char) { '0' <= c <= '9' || c in {'+', '-', '.', 'e', 'E'} }

  /** Number literals start with a digit or a minus sign. */
  ghost predicate WellFormed(j: Json) {
    match j
    case Num(text) => text != "" && ('0' <= text[0] <= '9' || text[0] == '-') && forall c :: c in text ==> NumberChar(c)
    case Arr(items) => forall i :: 0 <= i < |items| ==> WellFormed(items[i])
    case Obj(fields) => forall k :: k in fields ==> WellFormed(fields[k])
    case _ => true
  }

  // ---- The text of a value ----

  function HexDigit(n: nat): char
    requires n < 16
  {
    "0123456789abcdef"[n]
  }

  function Hex4(n: nat): string
    requires n < 0x1_0000
  {
    [HexDigit(n / 4096), HexDigit(n / 256 % 16), HexDigit(n / 16 % 16), HexDigit(n % 16)]
  }

  /** Characters the encoder writes as a numeric escape. */
  predicate Numeric(c: char) {
    || (c as int < 0x20 && c as int !in {8, 9, 10, 12, 13})
    || c in {'<', '>', '&'} || c as int == 0x2028 || c as int == 0x2029
  }

  function Escape(c: char): string {
    if c == '"' then "\\\"" else if c == '\\' then "\\\\"
    else if c as int == 8 then "\\b" else if c as int == 12 then "\\f"
    else if c == '\n' then "\\n" else if c == '\r' then "\\r" else if c == '\t' then "\\t"
    else if Numeric(c) then "\\u" + Hex4(c as int)
    else [c]
  }

  /** Which characters stand for themselves inside a text, and how some others are written. */
  lemma EscapeExactly(c: char)
    ensures ' ' <= c && c !in {'"', '\\', '<', '>', '&'} && c as int != 0x2028 && c as int != 0x2029 ==>
              Escape(c) == [c]
    ensures Escape('"') == "\\\"" && Escape('\\') == "\\\\" && Escape('\n') == "\\n" && Escape('\t') == "\\t"
  {}

  // Each function below gives the text of its argument followed by `rest`.

  function EscapeThen(s: string, rest: string): string {
    if s == "" then "\"" + rest else Escape(s[0]) + EscapeThen(s[1..], rest)
  }

  function QuoteThen(s: string, rest: string): string { "\"" + EscapeThen(s, rest) }

  /** Objects are written with their keys in order. */
  ghost function EncodeThen(j: Json, rest: string): string
    decreases j, 0
  {
    match j
    case Null => "null" + rest
    case Bool(b) => (if b then "true" else "false") + rest
    case Num(text) => text + rest
    case Str(s) => QuoteThen(s, rest)
    case Arr(items) => "[" + ItemsThen(items, rest)
    case Obj(fields) => "{" + FieldsThen(j, SortedOf(fields.Keys), rest)
  }

  ghost function ItemsThen(items: seq<Json>, rest: string): string
    decreases items
  {
    if items == [] then "]" + rest else EncodeThen(items[0], AfterItem(items, rest))
  }

  ghost function AfterItem(items: seq<Json>, rest: string): string
    requires items != []
    decreases items, 0
  {
    if |items| == 1 then "]" + rest else "," + ItemsThen(items[1..], rest)
  }

  ghost function FieldsThen(j: Json, keys: seq<string>, rest: string): string
    requires j.Obj? && forall k :: k in keys ==> k in j.fields
    decreases j, 0, |keys|, 1
  {
    if keys == [] then "}" + rest
    else QuoteThen(keys[0], ":" + EncodeThen(j.fields[keys[0]], AfterField(j, keys, rest)))
  }

  ghost function AfterField(j: Json, keys: seq<string>, rest: string): string
    requires j.Obj? && keys != [] && forall k :: k in keys ==> k in j.fields
    decreases j, 0, |keys|, 0
  {
    if |keys| == 1 then "}" + rest else "," + FieldsThen(j, keys[1..], rest)
  }

  ghost function Encode(j: Json): string { EncodeThen(j, "") }

  // ---- Different values have different texts ----

  lemma SplitEqual(x: string, y: string, r: string, t: string)
    requires x + r == y + t && |x| == |y|
    ensures x == y && r == t
  {
    assert x == (x + r)[..|x|] && y == (y + t)[..|y|];
    assert r == (x + r)[|x|..] && t == (y + t)[|y|..];
  }

  lemma HexDigitInjective(m: nat, n: nat)
    requires m < 16 && n < 16 && HexDigit(m) == HexDigit(n)
    ensures m == n
  {}

  lemma Digits(n: nat)
    requires n < 0x1_0000
    ensures n == 4096 * (n / 4096) + 256 * (n / 256 % 16) + 16 * (n / 16 % 16) + n % 16
  {
    assert n / 256 == 16 * (n / 4096) + n / 256 % 16;
    assert n / 16 == 16 * (n / 256) + n / 16 % 16;
  }

  lemma Hex4Injective(m: nat, n: nat)
    requires m < 0x1_0000 && n < 0x1_0000 && Hex4(m) == Hex4(n)
    ensures m == n
  {
    var x, y := Hex4(m), Hex4(n);
    assert x[0] == y[0] && x[1] == y[1] && x[2] == y[2] && x[3] == y[3];
    HexDigitInjective(m / 4096, n / 4096);
    HexDigitInjective(m / 256 % 16, n / 256 % 16);
    HexDigitInjective(m / 16 % 16, n / 16 % 16);
    HexDigitInjective(m % 16, n % 16);
    Digits(m);
    Digits(n);
  }

  /** No escape is a prefix of another, and none can be mistaken for the closing quote. */
  lemma EscapePrefix(c: char, d: char, r: string, t: string)
    requires Escape(c) + r == Escape(d) + t
    ensures c == d && r == t
  {
    var x, y := Escape(c) + r, Escape(d) + t;
    assert x[0] == Escape(c)[0] && y[0] == Escape(d)[0];
    if x[0] == '\\' {
      assert x[1] == Escape(c)[1] && y[1] == Escape(d)[1];
      assert |Escape(c)| == |Escape(d)|;
      SplitEqual(Escape(c), Escape(d), r, t);
      if x[1] == 'u' {
        assert Hex4(c as int) == Escape(c)[2..] && Hex4(d as int) == Escape(d)[2..];
        Hex4Injective(c as int, d as int);
      }
    } else {
      SplitEqual(Escape(c), Escape(d), r, t);
    }
  }

  lemma {:induction false} EscapeThenPrefix(a: string, b: string, r: string, t: string)
    requires EscapeThen(a, r) == EscapeThen(b, t)
    ensures a == b && r == t
    decreases |a|
  {
    EscapeHead(a, r);
    EscapeHead(b, t);
    if a == "" {
      SplitEqual("\"", "\"", r, t);
    } else {
      EscapePrefix(a[0], b[0], EscapeThen(a[1..], r), EscapeThen(b[1..], t));
      EscapeThenPrefix(a[1..], b[1..], r, t);
      assert a == [a[0]] + a[1..] && b == [b[0]] + b[1..];
    }
  }

  lemma EscapeHead(a: string, r: string)
    ensures EscapeThen(a, r) != "" && (EscapeThen(a, r)[0] == '"' <==> a == "")
  {}

  lemma QuotePrefix(a: string, b: string, r: string, t: string)
    requires QuoteThen(a, r) == QuoteThen(b, t)
    ensures a == b && r == t
  {
    SplitEqual("\"", "\"", EscapeThen(a, r), EscapeThen(b, t));
    EscapeThenPrefix(a, b, r, t);
  }

  /** What may follow a value: nothing, a comma or a closing bracket. */
  predicate Stops(r: string) { r == "" || r[0] in {',', ']', '}'} }

  lemma NumberHead(a: string, r: string)
    requires (forall c :: c in a ==> NumberChar(c)) && Stops(r)
    ensures a != "" <==> a + r != "" && NumberChar((a + r)[0])
  {}

  lemma {:induction false} NumberPrefix(a: string, b: string, r: string, t: string)
    requires (forall c :: c in a ==> NumberChar(c)) && (forall c :: c in b ==> NumberChar(c)) && Stops(r) && Stops(t)
    requires a + r == b + t
    ensures a == b && r == t
    decreases |a|
  {
    NumberHead(a, r);
    NumberHead(b, t);
    if a == "" {
      assert r == a + r && t == b + t;
    } else {
      assert a + r == [a[0]] + (a[1..] + r) && b + t == [b[0]] + (b[1..] + t);
      SplitEqual([a[0]], [b[0]], a[1..] + r, b[1..] + t);
      NumberPrefix(a[1..], b[1..], r, t);
      assert a == [a[0]] + a[1..] && b == [b[0]] + b[1..];
    }
  }

  /** The first character of a text tells which kind of value it is. */
  ghost predicate Leads(j: Json, c: char) {
    match j
    case Null => c == 'n'
    case Bool(b) => c == if b then 't' else 'f'
    case Num(_) => '0' <= c <= '9' || c == '-'
    case Str(_) => c == '"'
    case Arr(_) => c == '['
    case Obj(_) => c == '{'
  }

  lemma FirstChar(j: Json, r: string)
    requires WellFormed(j)
    ensures EncodeThen(j, r) != "" && Leads(j, EncodeThen(j, r)[0])
  {}

  lemma SameKind(a: Json, b: Json, r: string, t: string)
    requires WellFormed(a) && WellFormed(b) && EncodeThen(a, r) == EncodeThen(b, t)
    ensures a.Null? <==> b.Null?
    ensures a.Bool? <==> b.Bool?
    ensures a.Bool? ==> a == b
    ensures a.Num? <==> b.Num?
    ensures a.Str? <==> b.Str?
    ensures a.Arr? <==> b.Arr?
    ensures a.Obj? <==> b.Obj?
  {
    FirstChar(a, r);
    FirstChar(b, t);
  }

  lemma {:induction false} EncodePrefix(a: Json, b: Json, r: string, t: string)
    requires WellFormed(a) && WellFormed(b) && Stops(r) && Stops(t)
    requires EncodeThen(a, r) == EncodeThen(b, t)
    ensures a == b && r == t
    decreases a, 0
  {
    SameKind(a, b, r, t);
    if a.Num? {
      NumberPrefix(a.text, b.text, r, t);
    } else if a.Str? {
      QuotePrefix(a.s, b.s, r, t);
    } else if a.Arr? {
      SplitEqual("[", "[", ItemsThen(a.items, r), ItemsThen(b.items, t));
      ItemsPrefix(a.items, b.items, r, t);
    } else if a.Obj? {
      var ka, kb := SortedOf(a.fields.Keys), SortedOf(b.fields.Keys);
      SplitEqual("{", "{", FieldsThen(a, ka, r), FieldsThen(b, kb, t));
      FieldsPrefix(a, b, ka, kb, r, t);
      SameFields(a, b);
    } else {
      ScalarPrefix(a, r, t);
    }
  }

  lemma ScalarPrefix(a: Json, r: string, t: string)
    requires (a.Null? || a.Bool?) && EncodeThen(a, r) == EncodeThen(a, t)
    ensures r == t
  {
    var word := if a.Null? then "null" else if a.b then "true" else "false";
    SplitEqual(word, word, r, t);
  }

  lemma SameFields(a: Json, b: Json)
    requires a.Obj? && b.Obj? && SortedOf(a.fields.Keys) == SortedOf(b.fields.Keys)
    requires forall k :: k in SortedOf(a.fields.Keys) ==> k in b.fields && a.fields[k] == b.fields[k]
    ensures a == b
  {}

  lemma ItemsHead(a: seq<Json>, r: string)
    requires forall i :: 0 <= i < |a| ==> WellFormed(a[i])
    ensures ItemsThen(a, r) != "" && (ItemsThen(a, r)[0] == ']' <==> a == [])
  {}

  lemma {:induction false} ItemsPrefix(a: seq<Json>, b: seq<Json>, r: string, t: string)
    requires (forall i :: 0 <= i < |a| ==> WellFormed(a[i])) && (forall i :: 0 <= i < |b| ==> WellFormed(b[i]))
    requires ItemsThen(a, r) == ItemsThen(b, t)
    ensures a == b && r == t
    decreases a
  {
    ItemsHead(a, r);
    ItemsHead(b, t);
    if a == [] {
      SplitEqual("]", "]", r, t);
    } else {
      var ra, rb := AfterItem(a, r), AfterItem(b, t);
      EncodePrefix(a[0], b[0], ra, rb);
      assert ra[0] == rb[0];
      if |a| == 1 {
        SplitEqual("]", "]", r, t);
      } else {
        SplitEqual(",", ",", ItemsThen(a[1..], r), ItemsThen(b[1..], t));
        ItemsPrefix(a[1..], b[1..], r, t);
      }
      assert a == [a[0]] + a[1..] && b == [b[0]] + b[1..];
    }
  }

  lemma FieldsHead(j: Json, keys: seq<string>, r: string)
    requires j.Obj? && forall k :: k in keys ==> k in j.fields
    ensures FieldsThen(j, keys, r) != "" && (FieldsThen(j, keys, r)[0] == '}' <==> keys == [])
  {}

  lemma {:induction false} FieldsPrefix(a: Json, b: Json, ka: seq<string>, kb: seq<string>, r: string, t: string)
    requires a.Obj? && b.Obj? && WellFormed(a) && WellFormed(b)
    requires (forall k :: k in ka ==> k in a.fields) && (forall k :: k in kb ==> k in b.fields)
    requires FieldsThen(a, ka, r) == FieldsThen(b, kb, t)
    ensures ka == kb && r == t
    ensures forall k :: k in ka ==> k in b.fields && a.fields[k] == b.fields[k]
    decreases a, 0, |ka|
  {
    FieldsHead(a, ka, r);
    FieldsHead(b, kb, t);
    if ka == [] {
      SplitEqual("}", "}", r, t);
    } else {
      var ra, rb := AfterField(a, ka, r), AfterField(b, kb, t);
      var va, vb := a.fields[ka[0]], b.fields[kb[0]];
      QuotePrefix(ka[0], kb[0], ":" + EncodeThen(va, ra), ":" + EncodeThen(vb, rb));
      SplitEqual(":", ":", EncodeThen(va, ra), EncodeThen(vb, rb));
      EncodePrefix(va, vb, ra, rb);
      assert ra[0] == rb[0];
      if |ka| == 1 {
        SplitEqual("}", "}", r, t);
      } else {
        SplitEqual(",", ",", FieldsThen(a, ka[1..], r), FieldsThen(b, kb[1..], t));
        FieldsPrefix(a, b, ka[1..], kb[1..], r, t);
      }
      assert ka == [ka[0]] + ka[1..] && kb == [kb[0]] + kb[1..];
    }
  }

  /** The text determines the value. */
  lemma EncodeInjective(a: Json, b: Json)
    requires WellFormed(a) && WellFormed(b) && Encode(a) == Encode(b)
    ensures a == b
  {
    EncodePrefix(a, b, "", "");
  }

  // ---- Canonical form ----

  type Path = seq<string>

  /** Paths whose arrays stand for sets: credential groups, group members, and the actions, resources
      and condition values of a policy statement. */
  predicate IsSetPath(path: Path) {
    || (|path| == 3 && ((path[0] == "Users" && path[2] == "groups") || (path[0] == "Groups" && path[2] == "members")))
    || (|path| == 5 && path[0] == "Policies" && path[2] == "Statement" && path[3] == "[]"
        && (path[4] == "Action" || path[4] == "Resource"))
    || (|path| == 7 && path[0] == "Policies" && path[2] == "Statement" && path[3] == "[]" && path[4] == "Condition")
  }

  ghost function Canonical(j: Json, path: Path): Json
    decreases j, 0
  {
    match j
    case Obj(fields) => Obj(map k | k in fields :: Canonical(fields[k], path + [k]))
    case Arr(items) =>
      var done := CanonicalItems(items, path + ["[]"]);
      Arr(if IsSetPath(path) then SortBy(Encode, done) else done)
    case _ => j
  }

  ghost function CanonicalItems(items: seq<Json>, path: Path): (r: seq<Json>)
    ensures |r| == |items|
    decreases items
  {
    if items == [] then [] else [Canonical(items[0], path)] + CanonicalItems(items[1..], path)
  }

  /** Two trees that differ only in the order of arrays at set paths, at any depth. */
  ghost predicate Equivalent(a: Json, b: Json, path: Path)
    decreases a, 0
  {
    match a
    case Obj(fields) =>
      && b.Obj? && b.fields.Keys == fields.Keys
      && forall k :: k in fields ==> Equivalent(fields[k], b.fields[k], path + [k])
    case Arr(items) =>
      && b.Arr?
      && if IsSetPath(path) then Reordered(items, b.items, path + ["[]"]) else Pointwise(items, b.items, path + ["[]"])
    case _ => a == b
  }

  ghost predicate Pointwise(a: seq<Json>, b: seq<Json>, path: Path)
    decreases a
  {
    if a == [] then b == []
    else b != [] && Equivalent(a[0], b[0], path) && Pointwise(a[1..], b[1..], path)
  }

  function Removed<T>(s: seq<T>, i: nat): seq<T>
    requires i < |s|
  {
    s[..i] + s[i + 1..]
  }

  /** The second sequence is a rearrangement of the first, element by equivalent element. */
  ghost predicate Reordered(a: seq<Json>, b: seq<Json>, path: Path)
    decreases a
  {
    if a == [] then b == []
    else exists i :: 0 <= i < |b| && Equivalent(a[0], b[i], path) && Reordered(a[1..], Removed(b, i), path)
  }

  lemma {:induction false} CanonicalItemsAt(items: seq<Json>, path: Path, i: nat)
    requires i < |items|
    ensures CanonicalItems(items, path)[i] == Canonical(items[i], path)
  {
    if i > 0 { CanonicalItemsAt(items[1..], path, i - 1); }
  }

  lemma {:induction false} CanonicalItemsRemoved(items: seq<Json>, path: Path, i: nat)
    requires i < |items|
    ensures CanonicalItems(Removed(items, i), path) == Removed(CanonicalItems(items, path), i)
  {
    if i == 0 {
      assert Removed(items, 0) == items[1..];
    } else {
      assert Removed(items, i) == [items[0]] + Removed(items[1..], i - 1);
      CanonicalItemsRemoved(items[1..], path, i - 1);
      assert Removed(items, i)[1..] == Removed(items[1..], i - 1);
    }
  }

  lemma RemovedMultiset<T>(s: seq<T>, i: nat)
    requires i < |s|
    ensures multiset(s) == multiset{s[i]} + multiset(Removed(s, i))
  {
    assert s == s[..i] + [s[i]] + s[i + 1..];
  }

  // ---- Canonical texts stay well-formed ----

  lemma {:induction false} CanonicalWellFormed(j: Json, path: Path)
    requires WellFormed(j)
    ensures WellFormed(Canonical(j, path))
    decreases j, 0
  {
    match j
    case Obj(fields) =>
      forall k | k in fields ensures WellFormed(Canonical(fields[k], path + [k])) {
        CanonicalWellFormed(fields[k], path + [k]);
      }
    case Arr(items) =>
      var done := CanonicalItems(items, path + ["[]"]);
      ItemsWellFormed(items, path + ["[]"]);
      if IsSetPath(path) { PermutedWellFormed(done, SortBy(Encode, done)); }
    case _ =>
  }

  lemma {:induction false} ItemsWellFormed(items: seq<Json>, path: Path)
    requires forall i :: 0 <= i < |items| ==> WellFormed(items[i])
    ensures forall i :: 0 <= i < |items| ==> WellFormed(CanonicalItems(items, path)[i])
    decreases items
  {
    if items != [] {
      CanonicalWellFormed(items[0], path);
      ItemsWellFormed(items[1..], path);
    }
  }

  lemma PermutedWellFormed(a: seq<Json>, b: seq<Json>)
    requires multiset(a) == multiset(b) && forall i :: 0 <= i < |a| ==> WellFormed(a[i])
    ensures forall i :: 0 <= i < |b| ==> WellFormed(b[i])
  {
    forall i | 0 <= i < |b| ensures WellFormed(b[i]) {
      assert b[i] in multiset(a);
      var j :| 0 <= j < |a| && a[j] == b[i];
    }
  }

  ghost predicate AllWellFormed(items: seq<Json>) { forall i :: 0 <= i < |items| ==> WellFormed(items[i]) }

  lemma TextsDiffer(x: seq<Json>)
    requires AllWellFormed(x)
    ensures forall u, v :: u in x && v in x && Encode(u) == Encode(v) ==> u == v
  {
    forall u, v | u in x && v in x && Encode(u) == Encode(v) ensures u == v { EncodeInjective(u, v); }
  }

  /** Sorting by text forgets exactly the order. */
  lemma SortForgetsOrder(a: seq<Json>, b: seq<Json>)
    requires AllWellFormed(a) && AllWellFormed(b)
    ensures SortBy(Encode, a) == SortBy(Encode, b) <==> multiset(a) == multiset(b)
  {
    var x, y := SortBy(Encode, a), SortBy(Encode, b);
    SortBySorted(Encode, a);
    SortBySorted(Encode, b);
    if multiset(a) == multiset(b) {
      PermutedWellFormed(a, x);
      TextsDiffer(x);
      SortedUnique(Encode, x, y);
    }
  }

  // ---- Same canonical form, and only then, means equivalent ----

  lemma {:induction false} CanonicalExact(a: Json, b: Json, path: Path)
    requires WellFormed(a) && WellFormed(b)
    ensures Canonical(a, path) == Canonical(b, path) <==> Equivalent(a, b, path)
    decreases a, 0
  {
    if a.Obj? && b.Obj? {
      ObjectExact(a, b, path);
    } else if a.Arr? && b.Arr? {
      var p := path + ["[]"];
      if IsSetPath(path) {
        ItemsWellFormed(a.items, p);
        ItemsWellFormed(b.items, p);
        SortForgetsOrder(CanonicalItems(a.items, p), CanonicalItems(b.items, p));
        ReorderedExact(a.items, b.items, p);
      } else {
        PointwiseExact(a.items, b.items, p);
      }
    }
  }

  lemma {:induction false} ObjectExact(a: Json, b: Json, path: Path)
    requires a.Obj? && b.Obj? && WellFormed(a) && WellFormed(b)
    ensures Canonical(a, path) == Canonical(b, path) <==> Equivalent(a, b, path)
    decreases a, 0, 0
  {
    var x, y := Canonical(a, path).fields, Canonical(b, path).fields;
    assert x.Keys == a.fields.Keys && y.Keys == b.fields.Keys;
    if a.fields.Keys == b.fields.Keys {
      forall k | k in a.fields ensures x[k] == y[k] <==> Equivalent(a.fields[k], b.fields[k], path + [k]) {
        CanonicalExact(a.fields[k], b.fields[k], path + [k]);
      }
      if forall k :: k in a.fields ==> x[k] == y[k] { assert x == y; }
    }
  }

  lemma {:induction false} PointwiseExact(a: seq<Json>, b: seq<Json>, path: Path)
    requires (forall i :: 0 <= i < |a| ==> WellFormed(a[i])) && (forall i :: 0 <= i < |b| ==> WellFormed(b[i]))
    ensures CanonicalItems(a, path) == CanonicalItems(b, path) <==> Pointwise(a, b, path)
    decreases a
  {
    if a != [] && b != [] {
      CanonicalExact(a[0], b[0], path);
      PointwiseExact(a[1..], b[1..], path);
      var x, y := CanonicalItems(a, path), CanonicalItems(b, path);
      assert x == [x[0]] + x[1..] && y == [y[0]] + y[1..];
      assert x[1..] == CanonicalItems(a[1..], path) && y[1..] == CanonicalItems(b[1..], path);
    }
  }

  lemma {:induction false} ReorderedExact(a: seq<Json>, b: seq<Json>, path: Path)
    requires (forall i :: 0 <= i < |a| ==> WellFormed(a[i])) && (forall i :: 0 <= i < |b| ==> WellFormed(b[i]))
    ensures multiset(CanonicalItems(a, path)) == multiset(CanonicalItems(b, path)) <==> Reordered(a, b, path)
    decreases a, 1
  {
    var x, y := CanonicalItems(a, path), CanonicalItems(b, path);
    if a == [] {
      assert |multiset(x)| == |x| && |multiset(y)| == |y|;
    } else {
      if multiset(x) == multiset(y) {
        assert x[0] in multiset(y);
        var i :| 0 <= i < |y| && y[i] == x[0];
        CanonicalItemsAt(b, path, i);
        ReorderedAt(a, b, path, i);
      }
      if Reordered(a, b, path) {
        var i :| 0 <= i < |b| && Equivalent(a[0], b[i], path) && Reordered(a[1..], Removed(b, i), path);
        ReorderedAt(a, b, path, i);
      }
    }
  }

  lemma {:induction false} ReorderedAt(a: seq<Json>, b: seq<Json>, path: Path, i: nat)
    requires a != [] && i < |b|
    requires (forall k :: 0 <= k < |a| ==> WellFormed(a[k])) && (forall k :: 0 <= k < |b| ==> WellFormed(b[k]))
    ensures Equivalent(a[0], b[i], path) <==> Canonical(a[0], path) == Canonical(b[i], path)
    ensures Equivalent(a[0], b[i], path) ==>
              (multiset(CanonicalItems(a, path)) == multiset(CanonicalItems(b, path))
               <==> Reordered(a[1..], Removed(b, i), path))
    decreases a, 0
  {
    CanonicalExact(a[0], b[i], path);
    ReorderedExact(a[1..], Removed(b, i), path);
    RemoveOne(a, b, path, i);
    CanonicalItemsAt(b, path, i);
    Cancel(Canonical(a[0], path), multiset(CanonicalItems(a[1..], path)),
           multiset(CanonicalItems(Removed(b, i), path)));
  }

  lemma Cancel<T>(x: T, a: multiset<T>, b: multiset<T>)
    ensures multiset{x} + a == multiset{x} + b <==> a == b
  {
    assert (multiset{x} + a) - multiset{x} == a && (multiset{x} + b) - multiset{x} == b;
  }

  /** Taking the first element off one side and the i-th off the other. */
  lemma RemoveOne(a: seq<Json>, b: seq<Json>, path: Path, i: nat)
    requires a != [] && i < |b|
    ensures multiset(CanonicalItems(a, path))
            == multiset{Canonical(a[0], path)} + multiset(CanonicalItems(a[1..], path))
    ensures multiset(CanonicalItems(b, path))
            == multiset{CanonicalItems(b, path)[i]} + multiset(CanonicalItems(Removed(b, i), path))
  {
    RemovedMultiset(CanonicalItems(b, path), i);
    CanonicalItemsRemoved(b, path, i);
  }

  /** Main result: the canonical bytes of two graph images are equal exactly when the images differ only
      in the order of arrays at set paths. */
  lemma CanonicalBytesExact(a: Json, b: Json)
    requires WellFormed(a) && WellFormed(b)
    ensures Encode(Canonical(a, [])) == Encode(Canonical(b, [])) <==> Equivalent(a, b, [])
  {
    CanonicalExact(a, b, []);
    CanonicalWellFormed(a, []);
    CanonicalWellFormed(b, []);
    if Encode(Canonical(a, [])) == Encode(Canonical(b, [])) { EncodeInjective(Canonical(a, []), Canonical(b, [])); }
  }

  /** Canonicalising changes nothing but the order of set arrays. */
  lemma {:induction false} CanonicalIsEquivalent(j: Json, path: Path)
    requires WellFormed(j)
    ensures Equivalent(Canonical(j, path), j, path)
    decreases j, 0
  {
    match j
    case Obj(fields) =>
      forall k | k in fields ensures Equivalent(Canonical(fields[k], path + [k]), fields[k], path + [k]) {
        CanonicalIsEquivalent(fields[k], path + [k]);
      }
    case Arr(items) =>
      var p := path + ["[]"];
      var done := CanonicalItems(items, p);
      ItemsEquivalent(items, p);
      PointwiseExact(done, items, p) by { ItemsWellFormed(items, p); }
      if IsSetPath(path) {
        var sorted := SortBy(Encode, done);
        ItemsWellFormed(items, p);
        PermutedWellFormed(done, sorted);
        CanonicalPermuted(done, sorted, p);
        ReorderedExact(sorted, items, p);
      }
    case _ =>
  }

  lemma {:induction false} ItemsEquivalent(items: seq<Json>, path: Path)
    requires forall i :: 0 <= i < |items| ==> WellFormed(items[i])
    ensures Pointwise(CanonicalItems(items, path), items, path)
    decreases items
  {
    if items != [] {
      CanonicalIsEquivalent(items[0], path);
      ItemsEquivalent(items[1..], path);
      assert CanonicalItems(items, path)[1..] == CanonicalItems(items[1..], path);
    }
  }

  /** Canonicalising element by element commutes with rearranging. */
  lemma {:induction false} CanonicalPermuted(a: seq<Json>, b: seq<Json>, path: Path)
    requires multiset(a) == multiset(b)
    ensures multiset(CanonicalItems(a, path)) == multiset(CanonicalItems(b, path))
    decreases |a|
  {
    assert |multiset(a)| == |a| && |multiset(b)| == |b|;
    if a != [] {
      assert a[0] in multiset(b);
      var i :| 0 <= i < |b| && b[i] == a[0];
      RemovedMultiset(b, i);
      assert a == [a[0]] + a[1..];
      Cancel(a[0], multiset(a[1..]), multiset(Removed(b, i)));
      CanonicalPermuted(a[1..], Removed(b, i), path);
      RemoveOne(a, b, path, i);
      CanonicalItemsAt(b, path, i);
    }
  }

  lemma CanonicalIdempotent(j: Json, path: Path)
    requires WellFormed(j)
    ensures Canonical(Canonical(j, path), path) == Canonical(j, path)
  {
    CanonicalIsEquivalent(j, path);
    CanonicalWellFormed(j, path);
    CanonicalExact(Canonical(j, path), j, path);
  }
}
