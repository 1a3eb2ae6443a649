/**
 The two bucket configurations in their own words: which elements they are made of, what each may hold and what the
 values must satisfy, with every name and bound written out. The validator accepts exactly these documents.
 */
module ConfigLanguage {
  import opened Text
  import opened ConfigXml

  // ---- Building blocks ----

  predicate Named(n: Node, name: string) { n.Element? && n.head.name == name }

  /** An element of the given name without attributes, in no namespace or that of S3. */
  predicate Bare(n: Node, name: string) {
    && Named(n, name) && n.head.attributes == []
    && (n.head.space == "" || n.head.space == "http://s3.amazonaws.com/doc/2006-03-01/")
  }

  /** White space and comments. */
  predicate Spacing(n: Node) { n.Leaf? && (n.misc.Comment? || (n.misc.CharData? && AllSpace(n.misc.text))) }

  /** An element that holds text only. */
  predicate Scalar(n: Node, name: string) {
    && Bare(n, name)
    && forall i :: 0 <= i < |n.children| ==>
         n.children[i].Leaf? && (n.children[i].misc.Comment? || n.children[i].misc.CharData?)
  }

  predicate Has(nodes: seq<Node>, name: string) { exists i :: 0 <= i < |nodes| && Named(nodes[i], name) }

  predicate AtMostOnce(nodes: seq<Node>, name: string) {
    forall i, j :: 0 <= i < j < |nodes| ==> !(Named(nodes[i], name) && Named(nodes[j], name))
  }

  /** One element at most. */
  predicate Single(nodes: seq<Node>) { forall i, j :: 0 <= i < j < |nodes| ==> nodes[i].Leaf? || nodes[j].Leaf? }

  /** No two elements of one name. */
  predicate AllDiffer(nodes: seq<Node>) {
    forall i, j :: 0 <= i < j < |nodes| && nodes[i].Element? && nodes[j].Element? ==>
      nodes[i].head.name != nodes[j].head.name
  }

  function Chars(nodes: seq<Node>): string {
    if nodes == [] then ""
    else (if nodes[0].Leaf? && nodes[0].misc.CharData? then nodes[0].misc.text else "") + Chars(nodes[1..])
  }

  /** The text of the element of that name, empty if there is none. */
  function TextAt(nodes: seq<Node>, name: string): string {
    if nodes == [] then ""
    else if Named(nodes[0], name) then Chars(nodes[0].children)
    else TextAt(nodes[1..], name)
  }

  // ---- Versioning ----

  predicate VersioningRoot(n: Node) {
    && Named(n, "VersioningConfiguration") && RootHead(n) && AtMostOnce(n.children, "Status")
    && forall i :: 0 <= i < |n.children| ==> Spacing(n.children[i]) || Scalar(n.children[i], "Status")
  }

  /** At most a declaration of the default namespace, none or that of S3. */
  predicate RootHead(n: Node)
    requires n.Element?
  {
    && (n.head.space == "" || n.head.space == "http://s3.amazonaws.com/doc/2006-03-01/")
    && |n.head.attributes| <= 1
    && forall i :: 0 <= i < |n.head.attributes| ==>
         && n.head.attributes[i].space == "" && n.head.attributes[i].local == "xmlns"
         && n.head.attributes[i].value in {"", "http://s3.amazonaws.com/doc/2006-03-01/"}
  }

  // ---- Lifecycle ----

  predicate TagPart(n: Node) { Spacing(n) || Scalar(n, "Key") || Scalar(n, "Value") }

  /** A key of 1 to 128 characters and a value of at most 256. */
  predicate TagElement(n: Node) {
    && Bare(n, "Tag") && AtMostOnce(n.children, "Key") && AtMostOnce(n.children, "Value")
    && (forall i :: 0 <= i < |n.children| ==> TagPart(n.children[i]))
    && 1 <= |TextAt(n.children, "Key")| <= 128 && |TextAt(n.children, "Value")| <= 256
  }

  predicate AndPart(n: Node) { Spacing(n) || Scalar(n, "Prefix") || TagElement(n) }

  /** One prefix and one or more tags. */
  predicate AndElement(n: Node) {
    && Bare(n, "And") && AtMostOnce(n.children, "Prefix") && Has(n.children, "Prefix") && Has(n.children, "Tag")
    && forall i :: 0 <= i < |n.children| ==> AndPart(n.children[i])
  }

  predicate FilterPart(n: Node) { Spacing(n) || Scalar(n, "Prefix") || TagElement(n) || AndElement(n) }

  /** One condition at most: a prefix, a tag or a conjunction. */
  predicate FilterElement(n: Node) {
    && Bare(n, "Filter")
    && Single(n.children) && forall i :: 0 <= i < |n.children| ==> FilterPart(n.children[i])
  }

  predicate ExpirationPart(n: Node) {
    Spacing(n) || Scalar(n, "Days") || Scalar(n, "Date") || Scalar(n, "ExpiredObjectDeleteMarker")
  }

  /** By days or by date, not both. */
  predicate ExpirationElement(n: Node) {
    && Bare(n, "Expiration") && AtMostOnce(n.children, "Days") && AtMostOnce(n.children, "Date")
    && AtMostOnce(n.children, "ExpiredObjectDeleteMarker")
    && (forall i :: 0 <= i < |n.children| ==> ExpirationPart(n.children[i]))
    && !(Has(n.children, "Days") && Has(n.children, "Date"))
  }

  predicate TransitionPart(n: Node) {
    Spacing(n) || Scalar(n, "Days") || Scalar(n, "Date") || Scalar(n, "StorageClass")
  }

  predicate TransitionElement(n: Node) {
    && Bare(n, "Transition") && AtMostOnce(n.children, "Days") && AtMostOnce(n.children, "Date")
    && AtMostOnce(n.children, "StorageClass")
    && (forall i :: 0 <= i < |n.children| ==> TransitionPart(n.children[i]))
    && !(Has(n.children, "Days") && Has(n.children, "Date"))
  }

  predicate NoncurrentExpirationElement(n: Node) {
    && Bare(n, "NoncurrentVersionExpiration") && AtMostOnce(n.children, "NoncurrentDays")
    && forall i :: 0 <= i < |n.children| ==> Spacing(n.children[i]) || Scalar(n.children[i], "NoncurrentDays")
  }

  predicate NoncurrentTransitionElement(n: Node) {
    && Bare(n, "NoncurrentVersionTransition") && AtMostOnce(n.children, "NoncurrentDays")
    && AtMostOnce(n.children, "StorageClass")
    && forall i :: 0 <= i < |n.children| ==>
         || Spacing(n.children[i]) || Scalar(n.children[i], "NoncurrentDays") || Scalar(n.children[i], "StorageClass")
  }

  predicate RulePart(n: Node) {
    || Spacing(n) || Scalar(n, "ID") || Scalar(n, "Status") || Scalar(n, "Prefix") || FilterElement(n)
    || ExpirationElement(n) || TransitionElement(n) || NoncurrentExpirationElement(n) || NoncurrentTransitionElement(n)
  }

  /** The filter restricts the rule by a tag. */
  predicate RestrictsByTag(n: Node) { Named(n, "Filter") && (Has(n.children, "Tag") || Has(n.children, "And")) }

  /** The expiration removes delete markers that have become lonely, as ParseBool reads the text. */
  predicate RemovesMarkers(n: Node) {
    && Named(n, "Expiration")
    && Trim(TextAt(n.children, "ExpiredObjectDeleteMarker")) in {"1", "t", "T", "true", "TRUE", "True"}
  }

  /** Each part at most once, and no tag on a rule that removes delete markers, which have none. */
  predicate RuleElement(n: Node) {
    && Bare(n, "Rule") && AllDiffer(n.children) && (forall i :: 0 <= i < |n.children| ==> RulePart(n.children[i]))
    && !((exists i :: 0 <= i < |n.children| && RestrictsByTag(n.children[i]))
         && (exists i :: 0 <= i < |n.children| && RemovesMarkers(n.children[i])))
  }

  predicate LifecycleRoot(n: Node) {
    && (Named(n, "LifecycleConfiguration") || Named(n, "BucketLifecycleConfiguration")) && RootHead(n)
    && forall i :: 0 <= i < |n.children| ==> Spacing(n.children[i]) || RuleElement(n.children[i])
  }

  // ---- Documents ----

  predicate XmlDeclaration(n: Node) { n.Leaf? && n.misc.ProcInst? && n.misc.target == "xml" }

  /** Spacing and at most one declaration, then the root, then spacing. */
  predicate Around(doc: seq<Node>, r: nat) {
    && (forall i :: 0 <= i < |doc| && i != r ==> Spacing(doc[i]) || (i < r && XmlDeclaration(doc[i])))
    && forall i, j :: 0 <= i < j < |doc| && j < r ==> !(XmlDeclaration(doc[i]) && XmlDeclaration(doc[j]))
  }

  ghost predicate VersioningDocument(doc: seq<Node>) {
    exists r :: 0 <= r < |doc| && Around(doc, r) && VersioningRoot(doc[r])
  }

  ghost predicate LifecycleDocument(doc: seq<Node>) {
    exists r :: 0 <= r < |doc| && Around(doc, r) && LifecycleRoot(doc[r])
  }

  // ---- The building blocks against the schema ----

  const LC: Config := ConfigFor(Lifecycle)

  lemma SpacingExactly(n: Node)
    ensures Blank(n) <==> Spacing(n)
  {
    if n.Leaf? && n.misc.CharData? { TrimsAway(n.misc.text); }
  }

  lemma LeafExactly(c: Config, parent: string, n: Node)
    requires n.Leaf? && c.Composite(parent)
    ensures ChildOk(c, parent, n) <==> Spacing(n)
  {
    SpacingExactly(n);
  }

  lemma {:induction false} CharsSnoc(nodes: seq<Node>, n: Node)
    ensures Chars(nodes + [n]) == Chars(nodes) + if n.Leaf? && n.misc.CharData? then n.misc.text else ""
  {
    if nodes != [] {
      assert (nodes + [n])[1..] == nodes[1..] + [n];
      CharsSnoc(nodes[1..], n);
    }
  }

  lemma {:induction false} CharsExactly(nodes: seq<Node>)
    ensures TextOf(nodes) == Chars(nodes)
  {
    if nodes != [] {
      var front, last := nodes[..|nodes| - 1], nodes[|nodes| - 1];
      CharsExactly(front);
      CharsSnoc(front, last);
      assert nodes == front + [last];
    }
  }

  lemma {:induction false} TextAtSnoc(nodes: seq<Node>, n: Node, name: string)
    ensures TextAt(nodes + [n], name)
            == if Has(nodes, name) then TextAt(nodes, name) else if Named(n, name) then Chars(n.children) else ""
  {
    if nodes != [] {
      assert (nodes + [n])[1..] == nodes[1..] + [n];
      TextAtSnoc(nodes[1..], n, name);
      assert Has(nodes, name) <==> Named(nodes[0], name) || Has(nodes[1..], name) by { HasCons(nodes, name); }
    }
  }

  lemma HasCons(nodes: seq<Node>, name: string)
    requires nodes != []
    ensures Has(nodes, name) <==> Named(nodes[0], name) || Has(nodes[1..], name)
  {
    if Has(nodes[1..], name) {
      var i :| 0 <= i < |nodes| - 1 && Named(nodes[1..][i], name);
      assert Named(nodes[i + 1], name);
    }
    if Has(nodes, name) && !Named(nodes[0], name) {
      var i :| 0 <= i < |nodes| && Named(nodes[i], name);
      assert Named(nodes[1..][i - 1], name);
    }
  }

  /** The value the machine keeps for a scalar that occurs once is its text. */
  lemma {:induction false} ValueExactly(c: Config, nodes: seq<Node>, name: string)
    requires !c.Composite(name) && AtMostOnce(nodes, name)
    ensures ValueOf(c, nodes, name) == TextAt(nodes, name) && (name in Values(c, nodes) <==> Has(nodes, name))
  {
    if nodes != [] {
      var front, last := nodes[..|nodes| - 1], nodes[|nodes| - 1];
      assert AtMostOnce(front, name) && nodes == front + [last];
      ValueExactly(c, front, name);
      TextAtSnoc(front, last, name);
      if Named(last, name) {
        CharsExactly(last.children);
        assert nodes[|nodes| - 1] == last;
      }
      assert Has(front, name) ==> Has(nodes, name) by {
        if Has(front, name) { var i :| 0 <= i < |front| && Named(front[i], name); assert Named(nodes[i], name); }
      }
    }
  }

  predicate Among(nodes: seq<Node>, names: set<string>) {
    forall i :: 0 <= i < |nodes| && nodes[i].Element? ==> nodes[i].head.name in names
  }

  lemma OnceExactly(c: Config, parent: string, nodes: seq<Node>, names: set<string>)
    requires Among(nodes, names) && forall name :: name in names ==> !c.Repeats(parent, name)
    ensures OnceUnlessRepeating(c, parent, nodes) <==> forall name :: name in names ==> AtMostOnce(nodes, name)
  {
    if forall name :: name in names ==> AtMostOnce(nodes, name) {
      forall i, j | 0 <= i < j < |nodes| && nodes[i].Element? && nodes[j].Element?
        ensures nodes[i].head.name != nodes[j].head.name
      {
        assert AtMostOnce(nodes, nodes[i].head.name) && Named(nodes[i], nodes[i].head.name);
      }
    }
    if OnceUnlessRepeating(c, parent, nodes) {
      forall name | name in names ensures AtMostOnce(nodes, name) {
        forall i, j | 0 <= i < j < |nodes| ensures !(Named(nodes[i], name) && Named(nodes[j], name)) {}
      }
    }
  }

  lemma HasExactly(nodes: seq<Node>, name: string)
    ensures name in Names(nodes) <==> Has(nodes, name)
  {
    if name in Names(nodes) {
      var n :| n in nodes && n.Element? && n.head.name == name;
      var i :| 0 <= i < |nodes| && nodes[i] == n;
      assert Named(nodes[i], name);
    }
    if Has(nodes, name) {
      var i :| 0 <= i < |nodes| && Named(nodes[i], name);
      assert nodes[i] in nodes;
    }
  }

  /** What the schema demands of an element below the root, its position aside. */
  predicate Sound(c: Config, n: Node) { n.Element? && n.head.attributes == [] && ElementOk(c, n) }

  predicate Scalars(name: string) {
    name in {"ID", "Status", "Prefix", "Days", "Date", "ExpiredObjectDeleteMarker", "StorageClass", "NoncurrentDays",
             "Key", "Value"}
  }

  lemma ScalarNames(name: string)
    requires Scalars(name)
    ensures !LC.Composite(name) && name !in {"Filter", "And", "Tag", "Expiration", "Transition", "Rule"}
  {}

  lemma PlainRules(c: Config, name: string, nodes: seq<Node>)
    requires name !in {"Filter", "And", "Tag", "Expiration", "Transition", "Rule"}
    ensures RulesOk(c, name, nodes)
  {}

  lemma ScalarExactly(n: Node, name: string)
    requires Scalars(name) && Named(n, name)
    ensures Sound(LC, n) <==> Scalar(n, name)
  {
    ScalarNames(name);
    PlainRules(LC, name, n.children);
    if Scalar(n, name) {
      forall i | 0 <= i < |n.children| ensures ChildOk(LC, name, n.children[i]) {}
    } else if Sound(LC, n) {
      forall i | 0 <= i < |n.children|
        ensures n.children[i].Leaf? && (n.children[i].misc.Comment? || n.children[i].misc.CharData?)
      {
        assert ChildOk(LC, name, n.children[i]);
      }
    }
  }

  predicate Parts(c: Config, parent: string, nodes: seq<Node>) {
    forall i :: 0 <= i < |nodes| ==> ChildOk(c, parent, nodes[i])
  }

  lemma SoundIs(c: Config, n: Node)
    requires n.Element?
    ensures Sound(c, n) <==>
            && Bare(n, n.head.name) && Parts(c, n.head.name, n.children)
            && OnceUnlessRepeating(c, n.head.name, n.children) && RulesOk(c, n.head.name, n.children)
  {}

  /** A child in the schema's terms: spacing, or an allowed element that is sound by itself. */
  lemma PartIs(c: Config, parent: string, n: Node)
    requires c.Composite(parent)
    ensures ChildOk(c, parent, n) <==> Spacing(n) || (n.Element? && c.Allows(parent, n.head.name) && Sound(c, n))
  {
    if n.Leaf? { LeafExactly(c, parent, n); }
  }

  // ---- Element by element ----

  lemma TagTable(name: string)
    ensures LC.Composite("Tag") && (LC.Allows("Tag", name) <==> name in {"Key", "Value"}) && !LC.Repeats("Tag", name)
  {}

  lemma TagPartExactly(n: Node)
    ensures ChildOk(LC, "Tag", n) <==> TagPart(n)
  {
    TagTable(if n.Element? then n.head.name else "");
    PartIs(LC, "Tag", n);
    if Named(n, "Key") { ScalarExactly(n, "Key"); }
    if Named(n, "Value") { ScalarExactly(n, "Value"); }
  }

  lemma TagOnce(nodes: seq<Node>)
    requires forall i :: 0 <= i < |nodes| ==> TagPart(nodes[i])
    ensures OnceUnlessRepeating(LC, "Tag", nodes) <==> AtMostOnce(nodes, "Key") && AtMostOnce(nodes, "Value")
  {
    forall name ensures !LC.Repeats("Tag", name) { TagTable(name); }
    OnceExactly(LC, "Tag", nodes, {"Key", "Value"});
  }

  lemma TagRules(nodes: seq<Node>)
    requires AtMostOnce(nodes, "Key") && AtMostOnce(nodes, "Value")
    ensures RulesOk(LC, "Tag", nodes) <==> 1 <= |TextAt(nodes, "Key")| <= 128 && |TextAt(nodes, "Value")| <= 256
  {
    ScalarNames("Key");
    ScalarNames("Value");
    ValueExactly(LC, nodes, "Key");
    ValueExactly(LC, nodes, "Value");
  }

  lemma TagExactly(n: Node)
    requires Named(n, "Tag")
    ensures Sound(LC, n) <==> TagElement(n)
  {
    SoundIs(LC, n);
    forall i | 0 <= i < |n.children| ensures ChildOk(LC, "Tag", n.children[i]) <==> TagPart(n.children[i]) {
      TagPartExactly(n.children[i]);
    }
    if forall i :: 0 <= i < |n.children| ==> TagPart(n.children[i]) {
      TagOnce(n.children);
      if AtMostOnce(n.children, "Key") && AtMostOnce(n.children, "Value") { TagRules(n.children); }
    }
  }

  lemma AndTable(name: string)
    ensures LC.Composite("And") && (LC.Allows("And", name) <==> name in {"Prefix", "Tag"})
    ensures LC.Repeats("And", name) <==> name == "Tag"
  {}

  lemma AndPartExactly(n: Node)
    ensures ChildOk(LC, "And", n) <==> AndPart(n)
  {
    AndTable(if n.Element? then n.head.name else "");
    PartIs(LC, "And", n);
    if Named(n, "Prefix") { ScalarExactly(n, "Prefix"); }
    if Named(n, "Tag") { TagExactly(n); }
  }

  lemma AndOnce(nodes: seq<Node>)
    requires forall i :: 0 <= i < |nodes| ==> AndPart(nodes[i])
    ensures OnceUnlessRepeating(LC, "And", nodes) <==> AtMostOnce(nodes, "Prefix")
  {
    forall name ensures LC.Repeats("And", name) <==> name == "Tag" { AndTable(name); }
    if AtMostOnce(nodes, "Prefix") {
      forall i, j | 0 <= i < j < |nodes| && nodes[i].Element? && nodes[j].Element?
                    && nodes[i].head.name == nodes[j].head.name
        ensures nodes[j].head.name == "Tag"
      {
        assert Named(nodes[j], "Prefix") ==> Named(nodes[i], "Prefix");
      }
    }
    if OnceUnlessRepeating(LC, "And", nodes) {
      forall i, j | 0 <= i < j < |nodes| ensures !(Named(nodes[i], "Prefix") && Named(nodes[j], "Prefix")) {}
    }
  }

  lemma AndExactly(n: Node)
    requires Named(n, "And")
    ensures Sound(LC, n) <==> AndElement(n)
  {
    SoundIs(LC, n);
    forall i | 0 <= i < |n.children| ensures ChildOk(LC, "And", n.children[i]) <==> AndPart(n.children[i]) {
      AndPartExactly(n.children[i]);
    }
    if forall i :: 0 <= i < |n.children| ==> AndPart(n.children[i]) { AndOnce(n.children); }
    HasExactly(n.children, "Prefix");
    HasExactly(n.children, "Tag");
  }

  lemma FilterTable(name: string)
    ensures LC.Composite("Filter") && (LC.Allows("Filter", name) <==> name in {"Prefix", "Tag", "And"})
    ensures !LC.Repeats("Filter", name)
  {}

  lemma FilterPartExactly(n: Node)
    ensures ChildOk(LC, "Filter", n) <==> FilterPart(n)
  {
    FilterTable(if n.Element? then n.head.name else "");
    PartIs(LC, "Filter", n);
    if Named(n, "Prefix") { ScalarExactly(n, "Prefix"); }
    if Named(n, "Tag") { TagExactly(n); }
    if Named(n, "And") { AndExactly(n); }
  }

  /** No name twice and no two names: one element at most. */
  lemma FilterSingle(nodes: seq<Node>)
    ensures OnceUnlessRepeating(LC, "Filter", nodes) && RulesOk(LC, "Filter", nodes) <==> Single(nodes)
  {
    forall name ensures !LC.Repeats("Filter", name) { FilterTable(name); }
    forall i | 0 <= i < |nodes| && nodes[i].Element? ensures nodes[i].head.name in Names(nodes) {
      assert nodes[i] in nodes;
    }
    if Single(nodes) {
      forall a, b | a in Names(nodes) && b in Names(nodes) ensures a == b {
        HasExactly(nodes, a);
        HasExactly(nodes, b);
      }
    }
  }

  lemma FilterExactly(n: Node)
    requires Named(n, "Filter")
    ensures Sound(LC, n) <==> FilterElement(n)
  {
    SoundIs(LC, n);
    forall i | 0 <= i < |n.children| ensures ChildOk(LC, "Filter", n.children[i]) <==> FilterPart(n.children[i]) {
      FilterPartExactly(n.children[i]);
    }
    FilterSingle(n.children);
  }

  lemma ExpirationTable(name: string)
    ensures LC.Composite("Expiration") && !LC.Repeats("Expiration", name)
    ensures LC.Allows("Expiration", name) <==> name in {"Days", "Date", "ExpiredObjectDeleteMarker"}
  {}

  lemma ExpirationPartExactly(n: Node)
    ensures ChildOk(LC, "Expiration", n) <==> ExpirationPart(n)
  {
    ExpirationTable(if n.Element? then n.head.name else "");
    PartIs(LC, "Expiration", n);
    if Named(n, "Days") { ScalarExactly(n, "Days"); }
    if Named(n, "Date") { ScalarExactly(n, "Date"); }
    if Named(n, "ExpiredObjectDeleteMarker") { ScalarExactly(n, "ExpiredObjectDeleteMarker"); }
  }

  lemma ExpirationOnce(nodes: seq<Node>)
    requires forall i :: 0 <= i < |nodes| ==> ExpirationPart(nodes[i])
    ensures OnceUnlessRepeating(LC, "Expiration", nodes) <==>
            AtMostOnce(nodes, "Days") && AtMostOnce(nodes, "Date") && AtMostOnce(nodes, "ExpiredObjectDeleteMarker")
  {
    forall name ensures !LC.Repeats("Expiration", name) { ExpirationTable(name); }
    OnceExactly(LC, "Expiration", nodes, {"Days", "Date", "ExpiredObjectDeleteMarker"});
  }

  lemma DaysOrDate(name: string, nodes: seq<Node>)
    requires name in {"Expiration", "Transition"}
    ensures RulesOk(LC, name, nodes) <==> !(Has(nodes, "Days") && Has(nodes, "Date"))
  {
    HasExactly(nodes, "Days");
    HasExactly(nodes, "Date");
  }

  lemma ExpirationExactly(n: Node)
    requires Named(n, "Expiration")
    ensures Sound(LC, n) <==> ExpirationElement(n)
  {
    SoundIs(LC, n);
    forall i | 0 <= i < |n.children|
      ensures ChildOk(LC, "Expiration", n.children[i]) <==> ExpirationPart(n.children[i])
    {
      ExpirationPartExactly(n.children[i]);
    }
    if forall i :: 0 <= i < |n.children| ==> ExpirationPart(n.children[i]) { ExpirationOnce(n.children); }
    DaysOrDate("Expiration", n.children);
  }

  lemma TransitionTable(name: string)
    ensures LC.Composite("Transition") && !LC.Repeats("Transition", name)
    ensures LC.Allows("Transition", name) <==> name in {"Days", "Date", "StorageClass"}
  {}

  lemma TransitionPartExactly(n: Node)
    ensures ChildOk(LC, "Transition", n) <==> TransitionPart(n)
  {
    TransitionTable(if n.Element? then n.head.name else "");
    PartIs(LC, "Transition", n);
    if Named(n, "Days") { ScalarExactly(n, "Days"); }
    if Named(n, "Date") { ScalarExactly(n, "Date"); }
    if Named(n, "StorageClass") { ScalarExactly(n, "StorageClass"); }
  }

  lemma TransitionOnce(nodes: seq<Node>)
    requires forall i :: 0 <= i < |nodes| ==> TransitionPart(nodes[i])
    ensures OnceUnlessRepeating(LC, "Transition", nodes) <==>
            AtMostOnce(nodes, "Days") && AtMostOnce(nodes, "Date") && AtMostOnce(nodes, "StorageClass")
  {
    forall name ensures !LC.Repeats("Transition", name) { TransitionTable(name); }
    OnceExactly(LC, "Transition", nodes, {"Days", "Date", "StorageClass"});
  }

  lemma TransitionExactly(n: Node)
    requires Named(n, "Transition")
    ensures Sound(LC, n) <==> TransitionElement(n)
  {
    SoundIs(LC, n);
    forall i | 0 <= i < |n.children|
      ensures ChildOk(LC, "Transition", n.children[i]) <==> TransitionPart(n.children[i])
    {
      TransitionPartExactly(n.children[i]);
    }
    if forall i :: 0 <= i < |n.children| ==> TransitionPart(n.children[i]) { TransitionOnce(n.children); }
    DaysOrDate("Transition", n.children);
  }

  lemma NoncurrentTable(name: string)
    ensures LC.Composite("NoncurrentVersionExpiration") && !LC.Repeats("NoncurrentVersionExpiration", name)
    ensures LC.Allows("NoncurrentVersionExpiration", name) <==> name == "NoncurrentDays"
    ensures LC.Composite("NoncurrentVersionTransition") && !LC.Repeats("NoncurrentVersionTransition", name)
    ensures LC.Allows("NoncurrentVersionTransition", name) <==> name in {"NoncurrentDays", "StorageClass"}
  {}

  lemma NoncurrentPart(n: Node)
    ensures ChildOk(LC, "NoncurrentVersionExpiration", n) <==> Spacing(n) || Scalar(n, "NoncurrentDays")
    ensures ChildOk(LC, "NoncurrentVersionTransition", n) <==>
            Spacing(n) || Scalar(n, "NoncurrentDays") || Scalar(n, "StorageClass")
  {
    NoncurrentTable(if n.Element? then n.head.name else "");
    PartIs(LC, "NoncurrentVersionExpiration", n);
    PartIs(LC, "NoncurrentVersionTransition", n);
    if Named(n, "NoncurrentDays") { ScalarExactly(n, "NoncurrentDays"); }
    if Named(n, "StorageClass") { ScalarExactly(n, "StorageClass"); }
  }

  lemma NoncurrentExpirationExactly(n: Node)
    requires Named(n, "NoncurrentVersionExpiration")
    ensures Sound(LC, n) <==> NoncurrentExpirationElement(n)
  {
    SoundIs(LC, n);
    PlainRules(LC, "NoncurrentVersionExpiration", n.children);
    forall i | 0 <= i < |n.children|
      ensures ChildOk(LC, "NoncurrentVersionExpiration", n.children[i]) <==>
              Spacing(n.children[i]) || Scalar(n.children[i], "NoncurrentDays")
    {
      NoncurrentPart(n.children[i]);
    }
    forall name ensures !LC.Repeats("NoncurrentVersionExpiration", name) { NoncurrentTable(name); }
    if Among(n.children, {"NoncurrentDays"}) {
      OnceExactly(LC, "NoncurrentVersionExpiration", n.children, {"NoncurrentDays"});
    }
  }

  lemma NoncurrentTransitionExactly(n: Node)
    requires Named(n, "NoncurrentVersionTransition")
    ensures Sound(LC, n) <==> NoncurrentTransitionElement(n)
  {
    SoundIs(LC, n);
    PlainRules(LC, "NoncurrentVersionTransition", n.children);
    forall i | 0 <= i < |n.children|
      ensures ChildOk(LC, "NoncurrentVersionTransition", n.children[i]) <==>
              Spacing(n.children[i]) || Scalar(n.children[i], "NoncurrentDays") || Scalar(n.children[i], "StorageClass")
    {
      NoncurrentPart(n.children[i]);
    }
    forall name ensures !LC.Repeats("NoncurrentVersionTransition", name) { NoncurrentTable(name); }
    if Among(n.children, {"NoncurrentDays", "StorageClass"}) {
      OnceExactly(LC, "NoncurrentVersionTransition", n.children, {"NoncurrentDays", "StorageClass"});
    }
  }

  // ---- Rules ----

  lemma RuleTable(name: string)
    ensures LC.Composite("Rule") && !LC.Repeats("Rule", name)
    ensures LC.Allows("Rule", name) <==>
            name in {"ID", "Status", "Filter", "Prefix", "Expiration", "Transition", "NoncurrentVersionExpiration",
                     "NoncurrentVersionTransition"}
  {}

  lemma RuleElementPart(n: Node)
    requires n.Element? && LC.Allows("Rule", n.head.name)
    ensures Sound(LC, n) <==> RulePart(n)
  {
    RuleTable(n.head.name);
    match n.head.name {
      case "ID" => ScalarExactly(n, "ID");
      case "Status" => ScalarExactly(n, "Status");
      case "Prefix" => ScalarExactly(n, "Prefix");
      case "Filter" => FilterExactly(n);
      case "Expiration" => ExpirationExactly(n);
      case "Transition" => TransitionExactly(n);
      case "NoncurrentVersionExpiration" => NoncurrentExpirationExactly(n);
      case _ => NoncurrentTransitionExactly(n);
    }
  }

  lemma RulePartExactly(n: Node)
    ensures ChildOk(LC, "Rule", n) <==> RulePart(n)
  {
    RuleTable(if n.Element? then n.head.name else "");
    PartIs(LC, "Rule", n);
    if n.Element? && LC.Allows("Rule", n.head.name) { RuleElementPart(n); }
  }

  /** Neither text nor an element that holds only text carries a tag or asks for the removal of markers. */
  lemma TextIsSilent(n: Node, name: string)
    requires Spacing(n) || (Scalars(name) && Scalar(n, name))
    ensures !Tagged(n) && !Marked(LC, n)
  {
    if n.Element? { ScalarNames(name); }
  }

  lemma TagCarries(n: Node)
    requires TagElement(n)
    ensures Tagged(n) && !Marked(LC, n)
  {
    forall i | 0 <= i < |n.children| ensures !Marked(LC, n.children[i]) {
      assert TagPart(n.children[i]);
      TextIsSilent(n.children[i], if Scalar(n.children[i], "Key") then "Key" else "Value");
    }
  }

  lemma AndCarries(n: Node)
    requires AndElement(n)
    ensures Tagged(n) && !Marked(LC, n)
  {
    forall i | 0 <= i < |n.children|
      ensures !Marked(LC, n.children[i]) && (Named(n.children[i], "Tag") ==> Tagged(n.children[i]))
    {
      assert AndPart(n.children[i]);
      if TagElement(n.children[i]) { TagCarries(n.children[i]); } else { TextIsSilent(n.children[i], "Prefix"); }
    }
  }

  lemma FilterPartCarries(n: Node)
    requires FilterPart(n)
    ensures !Marked(LC, n) && (Tagged(n) <==> Named(n, "Tag") || Named(n, "And"))
  {
    if TagElement(n) {
      TagCarries(n);
    } else if AndElement(n) {
      AndCarries(n);
    } else {
      TextIsSilent(n, "Prefix");
    }
  }

  lemma FilterCarries(n: Node)
    requires FilterElement(n)
    ensures !Marked(LC, n) && (Tagged(n) <==> RestrictsByTag(n))
  {
    forall i | 0 <= i < |n.children|
      ensures !Marked(LC, n.children[i])
      ensures Tagged(n.children[i]) <==> Named(n.children[i], "Tag") || Named(n.children[i], "And")
    {
      FilterPartCarries(n.children[i]);
    }
  }

  lemma ExpirationCarries(n: Node)
    requires ExpirationElement(n)
    ensures !Tagged(n) && (Marked(LC, n) <==> RemovesMarkers(n))
  {
    forall i | 0 <= i < |n.children| ensures !Tagged(n.children[i]) {
      var child := n.children[i];
      assert ExpirationPart(child);
      TextIsSilent(child, if Scalar(child, "Days") then "Days" else if Scalar(child, "Date") then "Date"
                          else "ExpiredObjectDeleteMarker");
    }
    ScalarNames("ExpiredObjectDeleteMarker");
    ValueExactly(LC, n.children, "ExpiredObjectDeleteMarker");
  }

  lemma TransitionCarries(n: Node)
    requires TransitionElement(n)
    ensures !Tagged(n) && !Marked(LC, n)
  {
    forall i | 0 <= i < |n.children|
      ensures !Tagged(n.children[i]) && !Named(n.children[i], "ExpiredObjectDeleteMarker")
    {
      var child := n.children[i];
      assert TransitionPart(child);
      TextIsSilent(child, if Scalar(child, "Days") then "Days" else if Scalar(child, "Date") then "Date"
                          else "StorageClass");
    }
    ScalarNames("ExpiredObjectDeleteMarker");
    ValueExactly(LC, n.children, "ExpiredObjectDeleteMarker");
    NoTextAt(n.children, "ExpiredObjectDeleteMarker");
    assert Trim("") == "";
  }

  lemma {:induction false} NoTextAt(nodes: seq<Node>, name: string)
    requires forall i :: 0 <= i < |nodes| ==> !Named(nodes[i], name)
    ensures TextAt(nodes, name) == ""
  {
    if nodes != [] { NoTextAt(nodes[1..], name); }
  }

  lemma NoncurrentCarries(n: Node)
    requires NoncurrentExpirationElement(n) || NoncurrentTransitionElement(n)
    ensures !Tagged(n) && !Marked(LC, n)
  {
    forall i | 0 <= i < |n.children| ensures !Tagged(n.children[i]) && !Marked(LC, n.children[i]) {
      TextIsSilent(n.children[i], if Scalar(n.children[i], "NoncurrentDays") then "NoncurrentDays" else "StorageClass");
    }
  }

  lemma RulePartCarries(n: Node)
    requires RulePart(n)
    ensures (Tagged(n) <==> RestrictsByTag(n)) && (Marked(LC, n) <==> RemovesMarkers(n))
  {
    if FilterElement(n) {
      FilterCarries(n);
    } else if ExpirationElement(n) {
      ExpirationCarries(n);
    } else if TransitionElement(n) {
      TransitionCarries(n);
    } else if NoncurrentExpirationElement(n) || NoncurrentTransitionElement(n) {
      NoncurrentCarries(n);
    } else {
      TextIsSilent(n, if Scalar(n, "ID") then "ID" else if Scalar(n, "Status") then "Status" else "Prefix");
    }
  }

  lemma RuleRules(nodes: seq<Node>)
    requires forall i :: 0 <= i < |nodes| ==> RulePart(nodes[i])
    ensures RulesOk(LC, "Rule", nodes) <==>
            !((exists i :: 0 <= i < |nodes| && RestrictsByTag(nodes[i]))
              && (exists i :: 0 <= i < |nodes| && RemovesMarkers(nodes[i])))
  {
    forall i | 0 <= i < |nodes|
      ensures (Tagged(nodes[i]) <==> RestrictsByTag(nodes[i])) && (Marked(LC, nodes[i]) <==> RemovesMarkers(nodes[i]))
    {
      RulePartCarries(nodes[i]);
    }
  }

  lemma RuleOnce(nodes: seq<Node>)
    ensures OnceUnlessRepeating(LC, "Rule", nodes) <==> AllDiffer(nodes)
  {
    forall name ensures !LC.Repeats("Rule", name) { RuleTable(name); }
  }

  lemma RuleExactly(n: Node)
    requires Named(n, "Rule")
    ensures Sound(LC, n) <==> RuleElement(n)
  {
    SoundIs(LC, n);
    forall i | 0 <= i < |n.children| ensures ChildOk(LC, "Rule", n.children[i]) <==> RulePart(n.children[i]) {
      RulePartExactly(n.children[i]);
    }
    RuleOnce(n.children);
    if forall i :: 0 <= i < |n.children| ==> RulePart(n.children[i]) { RuleRules(n.children); }
  }

  // ---- Whole documents ----

  lemma RootTable(root: string, name: string)
    requires root in {"LifecycleConfiguration", "BucketLifecycleConfiguration"}
    ensures LC.Composite(root) && (LC.Allows(root, name) <==> name == "Rule")
    ensures LC.Repeats(root, name) <==> name == "Rule"
    ensures root !in {"Filter", "And", "Tag", "Expiration", "Transition", "Rule"}
  {}

  lemma RootPart(root: string, n: Node)
    requires root in {"LifecycleConfiguration", "BucketLifecycleConfiguration"}
    ensures ChildOk(LC, root, n) <==> Spacing(n) || RuleElement(n)
  {
    RootTable(root, if n.Element? then n.head.name else "");
    PartIs(LC, root, n);
    if Named(n, "Rule") { RuleExactly(n); }
  }

  lemma RootHeadExactly(n: Node)
    requires n.Element?
    ensures RootHead(n) <==> NamespaceOk(n.head.space) && RootAttributes(n.head.attributes)
  {
    var attributes := n.head.attributes;
    if RootHead(n) {
      forall a | a in attributes
        ensures a.space == "" && a.local == "xmlns" && (a.value == "" || a.value == NAMESPACE)
      {
        var i :| 0 <= i < |attributes| && attributes[i] == a;
      }
    } else if RootAttributes(attributes) {
      forall i | 0 <= i < |attributes|
        ensures attributes[i].space == "" && attributes[i].local == "xmlns"
                && attributes[i].value in {"", "http://s3.amazonaws.com/doc/2006-03-01/"}
      {
        assert attributes[i] in attributes;
      }
    }
  }

  lemma LifecycleRootExactly(n: Node)
    ensures RootOk(LC, n) <==> LifecycleRoot(n)
  {
    if n.Element? && n.head.name in {"LifecycleConfiguration", "BucketLifecycleConfiguration"} {
      var root := n.head.name;
      RootHeadExactly(n);
      forall i | 0 <= i < |n.children|
        ensures ChildOk(LC, root, n.children[i]) <==> Spacing(n.children[i]) || RuleElement(n.children[i])
      {
        RootPart(root, n.children[i]);
      }
      RootTable(root, "Rule");
      PlainRules(LC, root, n.children);
      if LifecycleRoot(n) { assert OnceUnlessRepeating(LC, root, n.children); }
    }
  }

  lemma AroundExactly(c: Config, doc: seq<Node>, r: nat)
    requires r < |doc| && doc[r].Element?
    ensures RootAt(c, doc, r) <==> Around(doc, r) && RootOk(c, doc[r])
  {
    forall n ensures Blank(n) <==> Spacing(n) { SpacingExactly(n); }
    assert forall i :: 0 <= i < r ==> doc[..r][i] == doc[i];
    if Around(doc, r) {
      assert PrologOk(doc[..r]);
    }
    if RootAt(c, doc, r) {
      forall i | 0 <= i < |doc| && i != r ensures Spacing(doc[i]) || (i < r && XmlDeclaration(doc[i])) {
        if i < r { assert doc[..r][i] == doc[i]; }
      }
      forall i, j | 0 <= i < j < |doc| && j < r ensures !(XmlDeclaration(doc[i]) && XmlDeclaration(doc[j])) {
        assert doc[..r][i] == doc[i] && doc[..r][j] == doc[j];
      }
    }
  }

  /** Main result: the validator accepts exactly the lifecycle configurations described above. */
  lemma LifecycleAcceptedExactly(doc: seq<Node>)
    ensures Accepts(ConfigFor(Lifecycle), Flatten(doc)) <==> LifecycleDocument(doc)
  {
    DocumentAccepted(LC, doc);
    forall r | 0 <= r < |doc|
      ensures RootAt(LC, doc, r) <==> Around(doc, r) && LifecycleRoot(doc[r])
    {
      LifecycleRootExactly(doc[r]);
      if doc[r].Element? { AroundExactly(LC, doc, r); }
    }
  }

  const VC: Config := ConfigFor(Versioning)

  lemma VersioningTable(name: string)
    ensures VC.Composite(name) <==> name == "VersioningConfiguration"
    ensures VC.Allows("VersioningConfiguration", name) <==> name == "Status"
    ensures !VC.Repeats("VersioningConfiguration", name)
  {}

  lemma StatusExactly(n: Node)
    requires Named(n, "Status")
    ensures Sound(VC, n) <==> Scalar(n, "Status")
  {
    VersioningTable("Status");
    PlainRules(VC, "Status", n.children);
    if Scalar(n, "Status") {
      forall i | 0 <= i < |n.children| ensures ChildOk(VC, "Status", n.children[i]) {}
    } else if Sound(VC, n) {
      forall i | 0 <= i < |n.children|
        ensures n.children[i].Leaf? && (n.children[i].misc.Comment? || n.children[i].misc.CharData?)
      {
        assert ChildOk(VC, "Status", n.children[i]);
      }
    }
  }

  lemma VersioningRootExactly(n: Node)
    ensures RootOk(VC, n) <==> VersioningRoot(n)
  {
    if Named(n, "VersioningConfiguration") {
      RootHeadExactly(n);
      PlainRules(VC, "VersioningConfiguration", n.children);
      forall name ensures !VC.Repeats("VersioningConfiguration", name) { VersioningTable(name); }
      forall i | 0 <= i < |n.children|
        ensures ChildOk(VC, "VersioningConfiguration", n.children[i]) <==>
                Spacing(n.children[i]) || Scalar(n.children[i], "Status")
      {
        var child := n.children[i];
        VersioningTable(if child.Element? then child.head.name else "");
        VersioningTable("VersioningConfiguration");
        PartIs(VC, "VersioningConfiguration", child);
        if Named(child, "Status") { StatusExactly(child); }
      }
      if Among(n.children, {"Status"}) { OnceExactly(VC, "VersioningConfiguration", n.children, {"Status"}); }
    }
  }

  lemma VersioningAcceptedExactly(doc: seq<Node>)
    ensures Accepts(ConfigFor(Versioning), Flatten(doc)) <==> VersioningDocument(doc)
  {
    DocumentAccepted(VC, doc);
    forall r | 0 <= r < |doc|
      ensures RootAt(VC, doc, r) <==> Around(doc, r) && VersioningRoot(doc[r])
    {
      VersioningRootExactly(doc[r]);
      if doc[r].Element? { AroundExactly(VC, doc, r); }
    }
  }

  // ---- An ordinary configuration ----

  lemma RootAccepted(root: Node)
    ensures Accepts(ConfigFor(Lifecycle), Flatten([root])) <==> LifecycleRoot(root)
  {
    LifecycleAcceptedExactly([root]);
    if LifecycleRoot(root) { assert Around([root], 0) && LifecycleRoot([root][0]); }
  }

  function Bit(name: string, text: string): Node { Element(Head("", name, []), [Leaf(CharData(text))]) }

  function Box(name: string, children: seq<Node>): Node { Element(Head("", name, []), children) }

  lemma BitText(name: string, text: string)
    ensures Scalar(Bit(name, text), name) && TextAt([Bit(name, text)], name) == text
  {
    assert Chars([Leaf(CharData(text))]) == text + Chars([]);
  }

  lemma TagFits(key: string, value: string)
    requires 1 <= |key| <= 128 && |value| <= 256
    ensures TagElement(Box("Tag", [Bit("Key", key), Bit("Value", value)]))
  {
    var parts := [Bit("Key", key), Bit("Value", value)];
    BitText("Key", key);
    BitText("Value", value);
    assert parts[1..] == [Bit("Value", value)];
    assert TextAt(parts, "Key") == key && TextAt(parts, "Value") == value;
    assert AtMostOnce(parts, "Key") && AtMostOnce(parts, "Value") && TagPart(parts[0]) && TagPart(parts[1]);
  }

  lemma AndFits(prefix: string, tag: Node)
    requires TagElement(tag)
    ensures AndElement(Box("And", [Bit("Prefix", prefix), tag]))
  {
    var parts := [Bit("Prefix", prefix), tag];
    BitText("Prefix", prefix);
    assert Named(parts[0], "Prefix") && Named(parts[1], "Tag") && AndPart(parts[0]) && AndPart(parts[1]);
  }

  lemma TransitionFits(days: string, class_: string)
    ensures TransitionElement(Box("Transition", [Bit("Days", days), Bit("StorageClass", class_)]))
  {
    var parts := [Bit("Days", days), Bit("StorageClass", class_)];
    BitText("Days", days);
    BitText("StorageClass", class_);
    assert TransitionPart(parts[0]) && TransitionPart(parts[1]);
    assert !Has(parts, "Date");
  }

  lemma FilterFits(both: Node)
    requires AndElement(both)
    ensures FilterElement(Box("Filter", [both]))
  {
    assert FilterPart([both][0]);
  }

  lemma RuleFits(status: string, filter: Node, transition: Node)
    requires FilterElement(filter) && TransitionElement(transition)
    ensures RuleElement(Box("Rule", [Bit("Status", status), filter, transition]))
  {
    BitText("Status", status);
    var parts := [Bit("Status", status), filter, transition];
    assert RulePart(parts[0]) && RulePart(parts[1]) && RulePart(parts[2]);
    assert !RemovesMarkers(parts[0]) && !RemovesMarkers(parts[1]) && !RemovesMarkers(parts[2]);
  }

  /** A rule that moves what lies under a prefix and bears a tag to another class after some days is accepted. */
  lemma OrdinaryRuleAccepted(status: string, prefix: string, key: string, value: string, days: string, class_: string)
    requires 1 <= |key| <= 128 && |value| <= 256
    ensures var tag := Box("Tag", [Bit("Key", key), Bit("Value", value)]);
            var filter := Box("Filter", [Box("And", [Bit("Prefix", prefix), tag])]);
            var transition := Box("Transition", [Bit("Days", days), Bit("StorageClass", class_)]);
            var rule := Box("Rule", [Bit("Status", status), filter, transition]);
            Accepts(ConfigFor(Lifecycle), Flatten([Box("LifecycleConfiguration", [rule])]))
  {
    var tag := Box("Tag", [Bit("Key", key), Bit("Value", value)]);
    var both := Box("And", [Bit("Prefix", prefix), tag]);
    var transition := Box("Transition", [Bit("Days", days), Bit("StorageClass", class_)]);
    TagFits(key, value);
    AndFits(prefix, tag);
    TransitionFits(days, class_);
    FilterFits(both);
    RuleFits(status, Box("Filter", [both]), transition);
    var rule := Box("Rule", [Bit("Status", status), Box("Filter", [both]), transition]);
    RootFits(rule);
    RootAccepted(Box("LifecycleConfiguration", [rule]));
  }

  lemma RootFits(rule: Node)
    requires RuleElement(rule)
    ensures LifecycleRoot(Box("LifecycleConfiguration", [rule]))
  {}

  /** Whatever else is there, an accepted configuration has no rule that names both days and a date. */
  lemma DaysOrDateAccepted(root: Node, i: nat, j: nat)
    requires Accepts(ConfigFor(Lifecycle), Flatten([root])) && root.Element? && i < |root.children|
    requires root.children[i].Element? && j < |root.children[i].children|
    ensures var n := root.children[i].children[j];
            Named(n, "Expiration") || Named(n, "Transition") ==> !(Has(n.children, "Days") && Has(n.children, "Date"))
  {
    RootAccepted(root);
    assert RuleElement(root.children[i]);
    assert RulePart(root.children[i].children[j]);
  }
}
