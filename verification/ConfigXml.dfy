/**
 The validator for conditional bucket configuration written in XML. It reads a token stream once, with a
 stack of frames; here it is shown to accept exactly the token streams of the documents a recursive
 schema accepts.
 */
module ConfigXml {
  import opened Options
  import opened Text

  datatype Attribute = Attribute(space: string, local: string, value: string)

  datatype Head = Head(space: string, name: string, attributes: seq<Attribute>)

  datatype Misc = CharData(text: string) | Comment | Directive | ProcInst(target: string)

  /** The decoder itself pairs start and end tags, so an end tag carries no name. */
  datatype Token = Start(head: Head) | End | Other(misc: Misc)

  datatype Node = Element(head: Head, children: seq<Node>) | Leaf(misc: Misc)

  datatype File = Versioning | Lifecycle | OtherFile

  /** For each element with children: the children it may have, and whether each may repeat. Elements
      without an entry are scalars. */
  type Schema = map<string, map<string, bool>>

  const NAMESPACE := "http://s3.amazonaws.com/doc/2006-03-01/"

  const VERSIONING_SCHEMA: Schema := map["VersioningConfiguration" := map["Status" := false]]

  const LIFECYCLE_SCHEMA: Schema := map[
    "LifecycleConfiguration" := map["Rule" := true],
    "BucketLifecycleConfiguration" := map["Rule" := true],
    "Rule" := map["ID" := false, "Status" := false, "Filter" := false, "Prefix" := false, "Expiration" := false,
                  "Transition" := false, "NoncurrentVersionExpiration" := false,
                  "NoncurrentVersionTransition" := false],
    "Filter" := map["Prefix" := false, "Tag" := false, "And" := false],
    "And" := map["Prefix" := false, "Tag" := true],
    "Tag" := map["Key" := false, "Value" := false],
    "Expiration" := map["Days" := false, "Date" := false, "ExpiredObjectDeleteMarker" := false],
    "Transition" := map["Days" := false, "Date" := false, "StorageClass" := false],
    "NoncurrentVersionExpiration" := map["NoncurrentDays" := false],
    "NoncurrentVersionTransition" := map["NoncurrentDays" := false, "StorageClass" := false]]

  datatype Config = Config(file: File, schema: Schema) {
    predicate Composite(name: string) { name in schema }

    predicate Allows(parent: string, child: string) { parent in schema && child in schema[parent] }

    predicate Repeats(parent: string, child: string) { Allows(parent, child) && schema[parent][child] }
  }

  function ConfigFor(file: File): Config {
    Config(file, if file.Versioning? then VERSIONING_SCHEMA else LIFECYCLE_SCHEMA)
  }

  predicate NamespaceOk(space: string) { space == "" || space == NAMESPACE }

  predicate RootName(file: File, name: string) {
    match file
    case Versioning => name == "VersioningConfiguration"
    case Lifecycle => name == "LifecycleConfiguration" || name == "BucketLifecycleConfiguration"
    case OtherFile => true
  }

  /** At most a default namespace declaration. */
  predicate RootAttributes(attributes: seq<Attribute>) {
    && |attributes| <= 1
    && forall a :: a in attributes ==> a.space == "" && a.local == "xmlns" && (a.value == "" || a.value == NAMESPACE)
  }

  predicate TagOk(key: string, value: string) { key != "" && |key| <= 128 && |value| <= 256 }

  /** The texts Go's strconv.ParseBool reads as true. */
  predicate ReadsTrue(text: string) {
    text == "1" || text == "t" || text == "T" || text == "TRUE" || text == "true" || text == "True"
  }

  // ---- The schema ----

  function Names(nodes: seq<Node>): set<string> { set n | n in nodes && n.Element? :: n.head.name }

  function TextOf(nodes: seq<Node>): string {
    if nodes == [] then ""
    else
      var last := nodes[|nodes| - 1];
      TextOf(nodes[..|nodes| - 1]) + if last.Leaf? && last.misc.CharData? then last.misc.text else ""
  }

  /** The text of the last scalar child of each name. */
  function Values(c: Config, nodes: seq<Node>): map<string, string> {
    if nodes == [] then map[]
    else
      var last, before := nodes[|nodes| - 1], Values(c, nodes[..|nodes| - 1]);
      if last.Element? && !c.Composite(last.head.name) then before[last.head.name := TextOf(last.children)] else before
  }

  function ValueOf(c: Config, nodes: seq<Node>, name: string): string {
    var values := Values(c, nodes);
    if name in values then values[name] else ""
  }

  /** The element is or contains a tag. */
  predicate Tagged(n: Node) {
    n.Element? && (n.head.name == "Tag" || exists i :: 0 <= i < |n.children| && Tagged(n.children[i]))
  }

  predicate HoldsAction(name: string) { name == "Expiration" || name == "Transition" }

  /** The element asks for the expiration of delete markers. */
  predicate Marked(c: Config, n: Node) {
    n.Element?
    && if HoldsAction(n.head.name) then ReadsTrue(Trim(ValueOf(c, n.children, "ExpiredObjectDeleteMarker")))
       else exists i :: 0 <= i < |n.children| && Marked(c, n.children[i])
  }

  /** What a name asks of its children taken together. */
  predicate RulesOk(c: Config, name: string, children: seq<Node>) {
    var names := Names(children);
    if name == "Filter" then forall a, b :: a in names && b in names ==> a == b
    else if name == "And" then "Prefix" in names && "Tag" in names
    else if name == "Tag" then TagOk(ValueOf(c, children, "Key"), ValueOf(c, children, "Value"))
    else if HoldsAction(name) then !("Days" in names && "Date" in names)
    else if name == "Rule" then
      !((exists i :: 0 <= i < |children| && Tagged(children[i]))
        && (exists i :: 0 <= i < |children| && Marked(c, children[i])))
    else true
  }

  predicate OnceUnlessRepeating(c: Config, parent: string, children: seq<Node>) {
    forall i, j :: 0 <= i < j < |children| && children[i].Element? && children[j].Element?
                   && children[i].head.name == children[j].head.name
                   ==> c.Repeats(parent, children[j].head.name)
  }

  predicate LeafOk(c: Config, parent: string, m: Misc) {
    match m
    case CharData(text) => !c.Composite(parent) || Trim(text) == ""
    case Comment => true
    case Directive => false
    case ProcInst(_) => false
  }

  predicate ChildOk(c: Config, parent: string, n: Node)
    decreases n, 1
  {
    match n
    case Leaf(m) => LeafOk(c, parent, m)
    case Element(head, _) => c.Allows(parent, head.name) && head.attributes == [] && ElementOk(c, n)
  }

  /** An element, its position and attributes aside. */
  predicate ElementOk(c: Config, n: Node)
    requires n.Element?
    decreases n, 0
  {
    && NamespaceOk(n.head.space)
    && (forall i :: 0 <= i < |n.children| ==> ChildOk(c, n.head.name, n.children[i]))
    && OnceUnlessRepeating(c, n.head.name, n.children)
    && RulesOk(c, n.head.name, n.children)
  }

  predicate RootOk(c: Config, n: Node) {
    n.Element? && RootName(c.file, n.head.name) && RootAttributes(n.head.attributes) && ElementOk(c, n)
  }

  predicate Blank(n: Node) { n.Leaf? && (n.misc.Comment? || (n.misc.CharData? && Trim(n.misc.text) == "")) }

  predicate Declaration(n: Node) { n.Leaf? && n.misc.ProcInst? && n.misc.target == "xml" }

  predicate PrologOk(nodes: seq<Node>) {
    && (forall i :: 0 <= i < |nodes| ==> Blank(nodes[i]) || Declaration(nodes[i]))
    && forall i, j :: 0 <= i < |nodes| && 0 <= j < |nodes| && Declaration(nodes[i]) && Declaration(nodes[j]) ==> i == j
  }

  predicate RootAt(c: Config, doc: seq<Node>, r: nat)
    requires r < |doc|
  {
    && PrologOk(doc[..r])
    && RootOk(c, doc[r])
    && forall i :: r < i < |doc| ==> Blank(doc[i])
  }

  /** One root; before it blanks and at most one declaration, after it blanks. */
  ghost predicate DocumentOk(c: Config, doc: seq<Node>) { exists r :: 0 <= r < |doc| && RootAt(c, doc, r) }

  // ---- Token streams of documents ----

  function FlattenNode(n: Node): (tokens: seq<Token>)
    ensures tokens != []
    decreases n, 0
  {
    match n
    case Leaf(m) => [Other(m)]
    case Element(head, children) => [Start(head)] + Flatten(children) + [End]
  }

  function Flatten(nodes: seq<Node>): seq<Token>
    decreases nodes
  {
    if nodes == [] then [] else Flatten(nodes[..|nodes| - 1]) + FlattenNode(nodes[|nodes| - 1])
  }

  // ---- The machine ----

  datatype Frame = Frame(
    name: string, seen: set<string>, values: map<string, string>, text: string, tagged: bool, deleteMarker: bool)

  function NewFrame(name: string): Frame { Frame(name, {}, map[], "", false, false) }

  datatype State = State(stack: seq<Frame>, rootSeen: bool, rootClosed: bool, declaration: bool)

  const INITIAL := State([], false, false, false)

  /** What a parent frame becomes when a child opens. */
  function Opened(c: Config, parent: Frame, head: Head): Option<Frame> {
    if !c.Allows(parent.name, head.name) || (head.name in parent.seen && !c.Repeats(parent.name, head.name))
       || head.attributes != [] then None
    else Some(parent.(seen := parent.seen + {head.name}))
  }

  function FrameValue(f: Frame, name: string): string { if name in f.values then f.values[name] else "" }

  /** The checks made when an element ends. */
  function Finished(f: Frame): Option<Frame> {
    if f.name == "Filter" then if |f.seen| > 1 then None else Some(f)
    else if f.name == "And" then if "Prefix" !in f.seen || "Tag" !in f.seen then None else Some(f)
    else if f.name == "Tag" then
      if TagOk(FrameValue(f, "Key"), FrameValue(f, "Value")) then Some(f.(tagged := true)) else None
    else if HoldsAction(f.name) then
      if "Days" in f.seen && "Date" in f.seen then None
      else Some(f.(deleteMarker := ReadsTrue(Trim(FrameValue(f, "ExpiredObjectDeleteMarker")))))
    else if f.name == "Rule" then if f.tagged && f.deleteMarker then None else Some(f)
    else Some(f)
  }

  /** What a parent frame takes over from a finished child. */
  function Received(c: Config, parent: Frame, child: Frame): Frame {
    parent.(values := if c.Composite(child.name) then parent.values else parent.values[child.name := child.text],
            tagged := parent.tagged || child.tagged,
            deleteMarker := parent.deleteMarker || child.deleteMarker)
  }

  /** A leaf inside an element. */
  function Noted(c: Config, f: Frame, m: Misc): Option<Frame> {
    if !LeafOk(c, f.name, m) then None
    else if m.CharData? && !c.Composite(f.name) then Some(f.(text := f.text + m.text))
    else Some(f)
  }

  function Top(st: State): Frame
    requires st.stack != []
  {
    st.stack[|st.stack| - 1]
  }

  function Below(st: State): seq<Frame>
    requires st.stack != []
  {
    st.stack[..|st.stack| - 1]
  }

  function StartStep(c: Config, st: State, head: Head): Option<State> {
    if st.rootClosed || !NamespaceOk(head.space) then None
    else if st.stack == [] then
      if st.rootSeen || !RootName(c.file, head.name) || !RootAttributes(head.attributes) then None
      else Some(st.(stack := [NewFrame(head.name)], rootSeen := true))
    else
      var parent := Opened(c, Top(st), head);
      if parent.None? then None else Some(st.(stack := Below(st) + [parent.value, NewFrame(head.name)]))
  }

  function EndStep(c: Config, st: State): Option<State> {
    if st.stack == [] then None
    else
      var f := Finished(Top(st));
      if f.None? then None
      else if |st.stack| == 1 then Some(st.(stack := [], rootClosed := true))
      else
        var below := Below(st);
        Some(st.(stack := below[|below| - 1 := Received(c, below[|below| - 1], f.value)]))
  }

  function MiscStep(c: Config, st: State, m: Misc): Option<State> {
    if m.ProcInst? then
      if m.target != "xml" || st.rootSeen || st.declaration then None else Some(st.(declaration := true))
    else if st.stack == [] then if Blank(Leaf(m)) then Some(st) else None
    else
      var f := Noted(c, Top(st), m);
      if f.None? then None else Some(st.(stack := Below(st) + [f.value]))
  }

  function Step(c: Config, st: State, token: Token): Option<State> {
    match token
    case Start(head) => StartStep(c, st, head)
    case End => EndStep(c, st)
    case Other(m) => MiscStep(c, st, m)
  }

  function Run(c: Config, tokens: seq<Token>): Option<State> {
    if tokens == [] then Some(INITIAL)
    else
      var st := Run(c, tokens[..|tokens| - 1]);
      if st.None? then None else Step(c, st.value, tokens[|tokens| - 1])
  }

  predicate Accepts(c: Config, tokens: seq<Token>) {
    var st := Run(c, tokens);
    st.Some? && st.value.rootSeen && st.value.rootClosed && st.value.stack == []
  }

  method OnStart(c: Config, st: State, head: Head) returns (r: Option<State>)
    ensures r == StartStep(c, st, head)
  {
    if st.rootClosed || (head.space != "" && head.space != NAMESPACE) { return None; }
    var stack, rootSeen, root := st.stack, st.rootSeen, |st.stack| == 0;
    if root {
      if rootSeen || !RootName(c.file, head.name) { return None; }
      rootSeen := true;
    } else {
      var parent := stack[|stack| - 1];
      if !c.Allows(parent.name, head.name) || (head.name in parent.seen && !c.Repeats(parent.name, head.name)) {
        return None;
      }
      parent := parent.(seen := parent.seen + {head.name});
      stack := stack[|stack| - 1 := parent];
      assert stack + [NewFrame(head.name)] == Below(st) + [parent, NewFrame(head.name)];
    }
    var i := 0;
    while i < |head.attributes|
      invariant 0 <= i <= |head.attributes|
      invariant forall j :: 0 <= j < i ==> head.attributes[j].space == "" && head.attributes[j].local == "xmlns"
                                           && (head.attributes[j].value == "" || head.attributes[j].value == NAMESPACE)
      invariant !root ==> i == 0
    {
      var attribute := head.attributes[i];
      if !root || attribute.space != "" || attribute.local != "xmlns"
         || (attribute.value != "" && attribute.value != NAMESPACE) {
        return None;
      }
      i := i + 1;
    }
    if |head.attributes| > 1 { return None; }
    assert root ==> stack + [NewFrame(head.name)] == [NewFrame(head.name)];
    return Some(st.(stack := stack + [NewFrame(head.name)], rootSeen := rootSeen));
  }

  method Complete(f: Frame) returns (r: Option<Frame>)
    ensures r == Finished(f)
  {
    var completed := f;
    match completed.name {
      case "Filter" =>
        if |completed.seen| > 1 { return None; }
      case "And" =>
        if "Prefix" !in completed.seen || "Tag" !in completed.seen { return None; }
      case "Tag" =>
        if !TagOk(FrameValue(completed, "Key"), FrameValue(completed, "Value")) { return None; }
        completed := completed.(tagged := true);
      case "Expiration" | "Transition" =>
        if "Days" in completed.seen && "Date" in completed.seen { return None; }
        completed := completed.(deleteMarker := ReadsTrue(Trim(FrameValue(completed, "ExpiredObjectDeleteMarker"))));
      case "Rule" =>
        if completed.tagged && completed.deleteMarker { return None; }
      case _ =>
    }
    return Some(completed);
  }

  method OnEnd(c: Config, st: State) returns (r: Option<State>)
    ensures r == EndStep(c, st)
  {
    var stack := st.stack;
    if |stack| == 0 { return None; }
    var finished := Complete(stack[|stack| - 1]);
    if finished.None? { return None; }
    var completed := finished.value;
    stack := stack[..|stack| - 1];
    if |stack| == 0 { return Some(st.(stack := stack, rootClosed := true)); }
    var parent := stack[|stack| - 1];
    if !c.Composite(completed.name) {
      parent := parent.(values := parent.values[completed.name := completed.text]);
    }
    parent := parent.(tagged := parent.tagged || completed.tagged);
    parent := parent.(deleteMarker := parent.deleteMarker || completed.deleteMarker);
    return Some(st.(stack := stack[|stack| - 1 := parent]));
  }

  method OnMisc(c: Config, st: State, m: Misc) returns (r: Option<State>)
    ensures r == MiscStep(c, st, m)
  {
    var stack := st.stack;
    assert |stack| != 0 ==> stack == Below(st) + [Top(st)];
    match m {
      case CharData(text) =>
        if (|stack| == 0 || c.Composite(stack[|stack| - 1].name)) && Trim(text) != "" { return None; }
        if |stack| != 0 && !c.Composite(stack[|stack| - 1].name) {
          var top := stack[|stack| - 1];
          stack := stack[|stack| - 1 := top.(text := top.text + text)];
          assert stack == Below(st) + [top.(text := top.text + text)];
        }
        return Some(st.(stack := stack));
      case Comment => return Some(st);
      case Directive => return None;
      case ProcInst(target) =>
        if target != "xml" || st.rootSeen || st.declaration { return None; }
        return Some(st.(declaration := true));
    }
  }

  /** The validator's loop. `failed` says that the decoder stopped with an error instead of at the end. */
  method Validate(c: Config, tokens: seq<Token>, failed: bool) returns (ok: bool)
    ensures ok <==> !failed && Accepts(c, tokens)
  {
    var st, i := INITIAL, 0;
    while i < |tokens|
      invariant 0 <= i <= |tokens|
      invariant Run(c, tokens[..i]) == Some(st)
    {
      RunOne(c, tokens[..i], tokens[i]);
      assert tokens[..i + 1] == tokens[..i] + [tokens[i]];
      var next: Option<State>;
      match tokens[i] {
        case Start(head) => next := OnStart(c, st, head);
        case End => next := OnEnd(c, st);
        case Other(m) => next := OnMisc(c, st, m);
      }
      if next.None? {
        Stuck(c, tokens, i + 1);
        return false;
      }
      st, i := next.value, i + 1;
    }
    assert tokens[..i] == tokens;
    return !failed && st.rootSeen && st.rootClosed && |st.stack| == 0;
  }

  /** A rejected prefix rejects the stream. */
  lemma {:induction false} Stuck(c: Config, tokens: seq<Token>, i: nat)
    requires i <= |tokens| && Run(c, tokens[..i]).None?
    ensures Run(c, tokens).None?
    decreases |tokens| - i
  {
    if i == |tokens| {
      assert tokens[..i] == tokens;
    } else {
      assert tokens[..i + 1][..i] == tokens[..i];
      Stuck(c, tokens, i + 1);
    }
  }

  // ---- The machine inside an element ----

  /** What a frame becomes over a whole child. */
  function AbsorbNode(c: Config, f: Frame, n: Node): Option<Frame>
    decreases n, 0
  {
    match n
    case Leaf(m) => Noted(c, f, m)
    case Element(head, children) =>
      var parent, inner := Opened(c, f, head), Absorb(c, NewFrame(head.name), children);
      if !NamespaceOk(head.space) || parent.None? || inner.None? then None
      else
        var done := Finished(inner.value);
        if done.None? then None else Some(Received(c, parent.value, done.value))
  }

  function Absorb(c: Config, f: Frame, nodes: seq<Node>): Option<Frame>
    decreases nodes
  {
    if nodes == [] then Some(f)
    else
      var g := Absorb(c, f, nodes[..|nodes| - 1]);
      if g.None? then None else AbsorbNode(c, g.value, nodes[|nodes| - 1])
  }

  predicate Inside(st: State) { st.stack != [] && st.rootSeen && !st.rootClosed }

  function WithTop(st: State, f: Option<Frame>): Option<State>
    requires st.stack != []
  {
    if f.None? then None else Some(st.(stack := Below(st) + [f.value]))
  }

  lemma RunOne(c: Config, before: seq<Token>, token: Token)
    ensures Run(c, before + [token]) == if Run(c, before).None? then None else Step(c, Run(c, before).value, token)
  {}

  lemma RunStuck(c: Config, before: seq<Token>, more: seq<Token>)
    requires Run(c, before).None?
    ensures Run(c, before + more).None?
  {
    assert (before + more)[..|before|] == before;
    Stuck(c, before + more, |before|);
  }

  lemma {:induction false} RunNodes(c: Config, before: seq<Token>, st: State, nodes: seq<Node>)
    requires Run(c, before) == Some(st) && Inside(st)
    ensures Run(c, before + Flatten(nodes)) == WithTop(st, Absorb(c, Top(st), nodes))
    decreases nodes, 0
  {
    if nodes == [] {
      assert before + Flatten(nodes) == before;
      assert st.stack == Below(st) + [Top(st)];
    } else {
      var front, last := nodes[..|nodes| - 1], nodes[|nodes| - 1];
      RunNodes(c, before, st, front);
      RunNext(c, before + Flatten(front), st, Absorb(c, Top(st), front), last);
      FlattenLast(before, nodes);
    }
  }

  lemma {:induction false} FlattenLast(before: seq<Token>, nodes: seq<Node>)
    requires nodes != []
    ensures before + Flatten(nodes) == before + Flatten(nodes[..|nodes| - 1]) + FlattenNode(nodes[|nodes| - 1])
  {}

  lemma {:induction false} RunNext(c: Config, before: seq<Token>, st: State, g: Option<Frame>, n: Node)
    requires Inside(st) && Run(c, before) == WithTop(st, g)
    ensures Run(c, before + FlattenNode(n)) == WithTop(st, if g.None? then None else AbsorbNode(c, g.value, n))
    decreases n, 1
  {
    if g.None? {
      RunStuck(c, before, FlattenNode(n));
    } else {
      var next := st.(stack := Below(st) + [g.value]);
      RunNode(c, before, next, n);
      assert Below(next) == Below(st);
    }
  }

  lemma {:induction false} RunNode(c: Config, before: seq<Token>, st: State, n: Node)
    requires Run(c, before) == Some(st) && Inside(st)
    ensures Run(c, before + FlattenNode(n)) == WithTop(st, AbsorbNode(c, Top(st), n))
    decreases n, 0
  {
    match n
    case Leaf(m) => RunOne(c, before, Other(m));
    case Element(head, children) =>
      RunElement(c, before, st, head, children);
      ElementText(before, head, children);
  }

  lemma ElementText(before: seq<Token>, head: Head, children: seq<Node>)
    ensures before + FlattenNode(Element(head, children)) == before + [Start(head)] + Flatten(children) + [End]
  {}

  lemma {:induction false} RunElement(c: Config, before: seq<Token>, st: State, head: Head, children: seq<Node>)
    requires Run(c, before) == Some(st) && Inside(st)
    ensures Run(c, before + [Start(head)] + Flatten(children) + [End])
         == WithTop(st, AbsorbNode(c, Top(st), Element(head, children)))
    decreases children, 2
  {
    var begun, inner := before + [Start(head)], Absorb(c, NewFrame(head.name), children);
    RunOne(c, before, Start(head));
    var parent := Opened(c, Top(st), head);
    if !NamespaceOk(head.space) || parent.None? {
      RunStuck(c, begun, Flatten(children));
      RunOne(c, begun + Flatten(children), End);
    } else {
      RunChildren(c, begun, st, parent.value, head, children);
      RunEnd(c, begun + Flatten(children), st, parent.value, inner);
    }
  }

  lemma {:induction false} RunChildren(c: Config, begun: seq<Token>, st: State, parent: Frame, head: Head,
                                       children: seq<Node>)
    requires Inside(st) && Run(c, begun) == Some(st.(stack := Below(st) + [parent, NewFrame(head.name)]))
    ensures var inner := Absorb(c, NewFrame(head.name), children);
            Run(c, begun + Flatten(children))
            == if inner.None? then None else Some(st.(stack := Below(st) + [parent] + [inner.value]))
    decreases children, 1
  {
    var now := st.(stack := Below(st) + [parent, NewFrame(head.name)]);
    assert Below(now) == Below(st) + [parent];
    RunNodes(c, begun, now, children);
  }

  /** The end tag of a child whose parent frame is `parent`. */
  lemma RunEnd(c: Config, before: seq<Token>, st: State, parent: Frame, inner: Option<Frame>)
    requires Inside(st)
    requires Run(c, before) == if inner.None? then None else Some(st.(stack := Below(st) + [parent] + [inner.value]))
    ensures Run(c, before + [End])
         == WithTop(st, if inner.None? || Finished(inner.value).None? then None
                        else Some(Received(c, parent, Finished(inner.value).value)))
  {
    RunOne(c, before, End);
    if inner.Some? && Finished(inner.value).Some? {
      var now := st.(stack := Below(st) + [parent] + [inner.value]);
      var below := Below(st) + [parent];
      assert Below(now) == below;
      assert below[|below| - 1 := Received(c, parent, Finished(inner.value).value)]
          == Below(st) + [Received(c, parent, Finished(inner.value).value)];
    }
  }

  // ---- Frames hold what the schema asks about ----

  predicate ContentOk(c: Config, name: string, nodes: seq<Node>) {
    (forall i :: 0 <= i < |nodes| ==> ChildOk(c, name, nodes[i])) && OnceUnlessRepeating(c, name, nodes)
  }

  predicate AnyTagged(nodes: seq<Node>) { exists i :: 0 <= i < |nodes| && Tagged(nodes[i]) }

  predicate AnyMarked(c: Config, nodes: seq<Node>) { exists i :: 0 <= i < |nodes| && Marked(c, nodes[i]) }

  function Summary(c: Config, name: string, nodes: seq<Node>): Frame {
    Frame(name, Names(nodes), Values(c, nodes), if c.Composite(name) then "" else TextOf(nodes),
          AnyTagged(nodes), AnyMarked(c, nodes))
  }

  lemma SmallSet(s: set<string>)
    ensures |s| <= 1 <==> forall a, b :: a in s && b in s ==> a == b
  {
    if |s| <= 1 {
      forall a, b | a in s && b in s ensures a == b {
        if a != b { assert {a, b} <= s; SubsetSize({a, b}, s); }
      }
    } else {
      var a :| a in s;
      assert |s - {a}| >= 1;
      var b :| b in s - {a};
    }
  }

  lemma {:induction false} SubsetSize(a: set<string>, b: set<string>)
    requires a <= b
    ensures |a| <= |b|
  {
    if a != {} {
      var x :| x in a;
      SubsetSize(a - {x}, b - {x});
    }
  }

  /** The checks at an end tag are the schema's rules, and what is passed up is what the schema says of the element. */
  lemma FinishedExact(c: Config, head: Head, nodes: seq<Node>)
    ensures var r := Finished(Summary(c, head.name, nodes));
            (r.Some? <==> RulesOk(c, head.name, nodes))
            && (r.Some? ==> r.value == Summary(c, head.name, nodes).(
                  tagged := Tagged(Element(head, nodes)), deleteMarker := Marked(c, Element(head, nodes))))
  {
    var e := Element(head, nodes);
    assert Tagged(e) <==> head.name == "Tag" || AnyTagged(nodes);
    assert !HoldsAction(head.name) ==> (Marked(c, e) <==> AnyMarked(c, nodes));
    if head.name == "Filter" { SmallSet(Names(nodes)); }
  }

  lemma NamesSnoc(nodes: seq<Node>, n: Node)
    ensures Names(nodes + [n]) == if n.Element? then Names(nodes) + {n.head.name} else Names(nodes)
  {}

  lemma AnySnoc(c: Config, nodes: seq<Node>, n: Node)
    ensures AnyTagged(nodes + [n]) <==> AnyTagged(nodes) || Tagged(n)
    ensures AnyMarked(c, nodes + [n]) <==> AnyMarked(c, nodes) || Marked(c, n)
  {
    var all := nodes + [n];
    assert all[|nodes|] == n && forall i :: 0 <= i < |nodes| ==> all[i] == nodes[i];
  }

  lemma OnceSnoc(c: Config, parent: string, nodes: seq<Node>, n: Node)
    ensures OnceUnlessRepeating(c, parent, nodes + [n])
       <==> OnceUnlessRepeating(c, parent, nodes)
            && (n.Element? && n.head.name in Names(nodes) ==> c.Repeats(parent, n.head.name))
  {
    var all := nodes + [n];
    assert all[|nodes|] == n && forall i :: 0 <= i < |nodes| ==> all[i] == nodes[i];
    if n.Element? && n.head.name in Names(nodes) {
      var m :| m in nodes && m.Element? && m.head.name == n.head.name;
      var i :| 0 <= i < |nodes| && nodes[i] == m;
      assert all[i] == m;
    }
  }

  lemma ContentSnoc(c: Config, parent: string, nodes: seq<Node>, n: Node)
    ensures ContentOk(c, parent, nodes + [n])
       <==> ContentOk(c, parent, nodes) && ChildOk(c, parent, n)
            && (n.Element? && n.head.name in Names(nodes) ==> c.Repeats(parent, n.head.name))
  {
    var all := nodes + [n];
    assert all[|nodes|] == n && forall i :: 0 <= i < |nodes| ==> all[i] == nodes[i];
    OnceSnoc(c, parent, nodes, n);
  }

  lemma {:induction false} AbsorbExact(c: Config, name: string, nodes: seq<Node>)
    ensures Absorb(c, NewFrame(name), nodes)
         == if ContentOk(c, name, nodes) then Some(Summary(c, name, nodes)) else None
    decreases nodes
  {
    if nodes == [] {
      assert Names(nodes) == {};
    } else {
      var front, last := nodes[..|nodes| - 1], nodes[|nodes| - 1];
      assert nodes == front + [last];
      AbsorbExact(c, name, front);
      ContentSnoc(c, name, front, last);
      NamesSnoc(front, last);
      AnySnoc(c, front, last);
      if ContentOk(c, name, front) {
        AbsorbNodeExact(c, Summary(c, name, front), last);
        assert last.Leaf? && last.misc.CharData? ==> TextOf(nodes) == TextOf(front) + last.misc.text;
        assert TextOf(front) + "" == TextOf(front);
      }
    }
  }

  lemma {:induction false} AbsorbNodeExact(c: Config, f: Frame, n: Node)
    ensures var r := AbsorbNode(c, f, n);
            && (r.Some?
               <==> ChildOk(c, f.name, n) && (n.Element? && n.head.name in f.seen ==> c.Repeats(f.name, n.head.name)))
            && (r.Some? && n.Leaf? ==> r == Noted(c, f, n.misc))
            && (r.Some? && n.Element? ==>
                  r.value == f.(
                    seen := f.seen + {n.head.name},
                    values := if c.Composite(n.head.name) then f.values
                              else f.values[n.head.name := TextOf(n.children)],
                    tagged := f.tagged || Tagged(n), deleteMarker := f.deleteMarker || Marked(c, n)))
    decreases n, 0
  {
    if n.Element? {
      AbsorbExact(c, n.head.name, n.children);
      FinishedExact(c, n.head, n.children);
    }
  }

  // ---- Whole documents ----

  predicate HasDeclaration(nodes: seq<Node>) { exists i :: 0 <= i < |nodes| && Declaration(nodes[i]) }

  lemma PrologSnoc(nodes: seq<Node>, n: Node)
    ensures PrologOk(nodes + [n]) <==> PrologOk(nodes) && (Blank(n) || (Declaration(n) && !HasDeclaration(nodes)))
    ensures HasDeclaration(nodes + [n]) <==> HasDeclaration(nodes) || Declaration(n)
  {
    var all := nodes + [n];
    assert all[|nodes|] == n && forall i :: 0 <= i < |nodes| ==> all[i] == nodes[i];
  }

  lemma DocumentSnoc(c: Config, doc: seq<Node>, n: Node)
    ensures DocumentOk(c, doc + [n]) <==> (DocumentOk(c, doc) && Blank(n)) || (PrologOk(doc) && RootOk(c, n))
  {
    var all := doc + [n];
    assert all[|doc|] == n && forall i :: 0 <= i < |doc| ==> all[i] == doc[i];
    assert all[..|doc|] == doc;
    if DocumentOk(c, all) {
      var r :| 0 <= r < |all| && RootAt(c, all, r);
      if r < |doc| {
        assert all[..r] == doc[..r];
        assert RootAt(c, doc, r);
      }
    }
    if DocumentOk(c, doc) && Blank(n) {
      var r :| 0 <= r < |doc| && RootAt(c, doc, r);
      assert all[..r] == doc[..r];
      assert RootAt(c, all, r);
    }
    if PrologOk(doc) && RootOk(c, n) { assert RootAt(c, all, |doc|); }
  }

  lemma PrologHasNoRoot(c: Config, doc: seq<Node>)
    ensures !(PrologOk(doc) && DocumentOk(c, doc))
  {}

  lemma RunRoot(c: Config, before: seq<Token>, st: State, n: Node)
    requires n.Element? && Run(c, before) == Some(st) && st.stack == [] && st.rootSeen == st.rootClosed
    ensures Run(c, before + FlattenNode(n))
         == if !st.rootSeen && RootOk(c, n) then Some(st.(rootSeen := true, rootClosed := true)) else None
  {
    var begun := before + [Start(n.head)];
    RunOne(c, before, Start(n.head));
    assert before + FlattenNode(n) == begun + (Flatten(n.children) + [End]);
    if Run(c, begun).None? {
      RunStuck(c, begun, Flatten(n.children) + [End]);
    } else {
      RunRootBody(c, begun, st, n);
      assert before + FlattenNode(n) == begun + Flatten(n.children) + [End];
    }
  }

  lemma RunRootBody(c: Config, begun: seq<Token>, st: State, n: Node)
    requires n.Element? && st.stack == [] && !st.rootClosed
    requires Run(c, begun) == Some(st.(stack := [NewFrame(n.head.name)], rootSeen := true))
    ensures Run(c, begun + Flatten(n.children) + [End])
         == if ContentOk(c, n.head.name, n.children) && RulesOk(c, n.head.name, n.children)
            then Some(st.(rootSeen := true, rootClosed := true)) else None
  {
    var inner := st.(stack := [NewFrame(n.head.name)], rootSeen := true);
    RunNodes(c, begun, inner, n.children);
    RunOne(c, begun + Flatten(n.children), End);
    AbsorbExact(c, n.head.name, n.children);
    FinishedExact(c, n.head, n.children);
  }

  ghost function Outcome(c: Config, doc: seq<Node>): Option<State> {
    if PrologOk(doc) || DocumentOk(c, doc) then
      Some(State([], DocumentOk(c, doc), DocumentOk(c, doc), HasDeclaration(doc)))
    else None
  }

  lemma {:induction false} RunDocument(c: Config, doc: seq<Node>)
    ensures Run(c, Flatten(doc)) == Outcome(c, doc)
  {
    if doc != [] {
      var front, last := doc[..|doc| - 1], doc[|doc| - 1];
      assert doc == front + [last];
      RunDocument(c, front);
      PrologSnoc(front, last);
      DocumentSnoc(c, front, last);
      PrologHasNoRoot(c, front);
      RunLast(c, front, last);
    }
  }

  lemma RunLast(c: Config, front: seq<Node>, last: Node)
    requires Run(c, Flatten(front)) == Outcome(c, front)
    requires !(PrologOk(front) && DocumentOk(c, front))
    ensures Run(c, Flatten(front) + FlattenNode(last))
         == if DocumentOk(c, front) && Blank(last) then Outcome(c, front)
            else if PrologOk(front) && Blank(last) then Outcome(c, front)
            else if PrologOk(front) && Declaration(last) && !HasDeclaration(front) then
              Some(State([], false, false, true))
            else if PrologOk(front) && RootOk(c, last) then Some(State([], true, true, HasDeclaration(front)))
            else None
  {
    var st := Outcome(c, front);
    if st.None? {
      RunStuck(c, Flatten(front), FlattenNode(last));
    } else if last.Element? {
      RunRoot(c, Flatten(front), st.value, last);
    } else {
      RunOne(c, Flatten(front), Other(last.misc));
    }
  }

  /** Main result, on documents: the validator accepts a document's tokens exactly when the schema accepts it. */
  lemma DocumentAccepted(c: Config, doc: seq<Node>)
    ensures Accepts(c, Flatten(doc)) <==> DocumentOk(c, doc)
  {
    RunDocument(c, doc);
  }

  // ---- Every accepted stream is a document's ----

  datatype Level = Level(head: Head, nodes: seq<Node>)

  /** What has been read: the finished top-level nodes, and for each open element its finished children. */
  datatype Zipper = Zipper(doc: seq<Node>, levels: seq<Level>)

  function LevelsText(levels: seq<Level>): seq<Token> {
    if levels == [] then []
    else
      var last := levels[|levels| - 1];
      LevelsText(levels[..|levels| - 1]) + [Start(last.head)] + Flatten(last.nodes)
  }

  function ZipperText(z: Zipper): seq<Token> { Flatten(z.doc) + LevelsText(z.levels) }

  function Appended(z: Zipper, n: Node): Zipper {
    if z.levels == [] then z.(doc := z.doc + [n])
    else
      var last := z.levels[|z.levels| - 1];
      z.(levels := z.levels[..|z.levels| - 1] + [last.(nodes := last.nodes + [n])])
  }

  lemma AppendedText(z: Zipper, n: Node)
    ensures ZipperText(Appended(z, n)) == ZipperText(z) + FlattenNode(n)
  {}

  /** Reads one token into the zipper. */
  lemma ZipperStep(z: Zipper, token: Token) returns (next: Zipper)
    requires token.End? ==> z.levels != []
    ensures ZipperText(next) == ZipperText(z) + [token]
    ensures |next.levels| == |z.levels| + if token.Start? then 1 else if token.End? then -1 else 0
  {
    match token
    case Start(head) =>
      next := z.(levels := z.levels + [Level(head, [])]);
      assert next.levels[..|z.levels|] == z.levels;
    case Other(m) =>
      next := Appended(z, Leaf(m));
      AppendedText(z, Leaf(m));
    case End =>
      var below, last := z.levels[..|z.levels| - 1], z.levels[|z.levels| - 1];
      next := Appended(z.(levels := below), Element(last.head, last.nodes));
      AppendedText(z.(levels := below), Element(last.head, last.nodes));
      ClosedText(z.doc, below, last);
      assert below + [last] == z.levels;
  }

  lemma ClosedText(doc: seq<Node>, below: seq<Level>, last: Level)
    ensures ZipperText(Zipper(doc, below + [last])) + [End]
         == ZipperText(Zipper(doc, below)) + FlattenNode(Element(last.head, last.nodes))
  {}

  function Depth(tokens: seq<Token>): int {
    if tokens == [] then 0
    else
      var last := tokens[|tokens| - 1];
      Depth(tokens[..|tokens| - 1]) + if last.Start? then 1 else if last.End? then -1 else 0
  }

  /** No end tag without an open element. */
  predicate Nested(tokens: seq<Token>) {
    tokens == []
    || (Nested(tokens[..|tokens| - 1]) && (tokens[|tokens| - 1].End? ==> Depth(tokens[..|tokens| - 1]) > 0))
  }

  lemma StepDepth(c: Config, st: State, token: Token)
    requires Step(c, st, token).Some?
    ensures token.End? ==> st.stack != []
    ensures |Step(c, st, token).value.stack| == |st.stack| + if token.Start? then 1 else if token.End? then -1 else 0
  {}

  lemma {:induction false} RunNested(c: Config, tokens: seq<Token>)
    requires Run(c, tokens).Some?
    ensures Nested(tokens) && Depth(tokens) == |Run(c, tokens).value.stack|
  {
    if tokens != [] {
      RunNested(c, tokens[..|tokens| - 1]);
      StepDepth(c, Run(c, tokens[..|tokens| - 1]).value, tokens[|tokens| - 1]);
    }
  }

  lemma {:induction false} Zip(tokens: seq<Token>) returns (z: Zipper)
    requires Nested(tokens)
    ensures ZipperText(z) == tokens && |z.levels| == Depth(tokens)
  {
    if tokens == [] {
      z := Zipper([], []);
    } else {
      var front, last := tokens[..|tokens| - 1], tokens[|tokens| - 1];
      var before := Zip(front);
      z := ZipperStep(before, last);
      assert tokens == front + [last];
    }
  }

  /** Main result: the validator accepts a token stream exactly when it is the stream of a document the
      schema accepts. */
  lemma AcceptsExactly(c: Config, tokens: seq<Token>)
    ensures Accepts(c, tokens) <==> exists doc :: Flatten(doc) == tokens && DocumentOk(c, doc)
  {
    if Accepts(c, tokens) {
      RunNested(c, tokens);
      var z := Zip(tokens);
      assert Flatten(z.doc) == tokens;
      DocumentAccepted(c, z.doc);
    }
    if doc :| Flatten(doc) == tokens && DocumentOk(c, doc) { DocumentAccepted(c, doc); }
  }

  /** The validator as it is called, on all token streams. */
  method ValidXml(tokens: seq<Token>, failed: bool, file: File) returns (ok: bool)
    ensures ok <==> !failed && exists doc :: Flatten(doc) == tokens && DocumentOk(ConfigFor(file), doc)
  {
    ok := Validate(ConfigFor(file), tokens, failed);
    AcceptsExactly(ConfigFor(file), tokens);
  }

  // ---- Rules are judged one by one ----

  lemma RootChildren(head: Head, children: seq<Node>)
    requires RootName(Lifecycle, head.name)
    ensures RootOk(ConfigFor(Lifecycle), Element(head, children))
       <==> NamespaceOk(head.space) && RootAttributes(head.attributes)
            && forall i :: 0 <= i < |children| ==> ChildOk(ConfigFor(Lifecycle), head.name, children[i])
  {}

  lemma SingleRoot(c: Config, n: Node)
    requires n.Element?
    ensures DocumentOk(c, [n]) <==> RootOk(c, n)
  {
    if RootOk(c, n) { assert RootAt(c, [n], 0); }
  }

  /** A lifecycle configuration is accepted exactly when it is accepted with none and with each of its
      children alone, so that nothing seen in one rule bears on another. */
  lemma RulesJudgedAlone(head: Head, children: seq<Node>)
    ensures Accepts(ConfigFor(Lifecycle), Flatten([Element(head, children)]))
       <==> Accepts(ConfigFor(Lifecycle), Flatten([Element(head, [])]))
            && forall i :: 0 <= i < |children|
                           ==> Accepts(ConfigFor(Lifecycle), Flatten([Element(head, [children[i]])]))
  {
    var c := ConfigFor(Lifecycle);
    DocumentAccepted(c, [Element(head, children)]);
    SingleRoot(c, Element(head, children));
    DocumentAccepted(c, [Element(head, [])]);
    SingleRoot(c, Element(head, []));
    forall i | 0 <= i < |children|
      ensures Accepts(c, Flatten([Element(head, [children[i]])])) <==> RootOk(c, Element(head, [children[i]]))
    {
      DocumentAccepted(c, [Element(head, [children[i]])]);
      SingleRoot(c, Element(head, [children[i]]));
    }
    if RootName(Lifecycle, head.name) { ChildrenApart(head, children); }
  }

  lemma ChildrenApart(head: Head, children: seq<Node>)
    requires RootName(Lifecycle, head.name)
    ensures RootOk(ConfigFor(Lifecycle), Element(head, children))
       <==> RootOk(ConfigFor(Lifecycle), Element(head, []))
            && forall i :: 0 <= i < |children| ==> RootOk(ConfigFor(Lifecycle), Element(head, [children[i]]))
  {
    RootChildren(head, children);
    RootChildren(head, []);
    forall i | 0 <= i < |children|
      ensures RootOk(ConfigFor(Lifecycle), Element(head, [children[i]]))
         <==> NamespaceOk(head.space) && RootAttributes(head.attributes)
              && ChildOk(ConfigFor(Lifecycle), head.name, children[i])
    {
      RootChildren(head, [children[i]]);
      assert [children[i]][0] == children[i];
    }
  }
}
