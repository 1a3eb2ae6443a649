/**
 The results of a heal sequence: a bounded queue with running numbers, filled by the sequence and emptied
 by status requests. And the registry of heal sequences by path.
 */
module HealQueue {
  const MAX_UNCONSUMED := 1000

  /** A result as the sequence reports it, and the number it is given. */
  datatype Item<T> = Item(result: T, index: int)

  datatype Status<T> = Status(items: seq<Item<T>>, lastSent: int)

  // ---- One sequence ----

  class Sequence<T> {
    var items: seq<Item<T>>
    var lastSent: int

    ghost function State(): Status<T>
      reads this
    {
      Status(items, lastSent)
    }

    constructor ()
      ensures State() == Status([], 0)
    {
      items, lastSent := [], 0;
    }

    /** One pass of the loop that adds a result: with the queue full nothing is added, and the caller waits for
        another pass, a stop signal or a timeout. */
    method Push(result: T) returns (ok: bool)
      modifies this
      ensures ok <==> |old(items)| != 1000
      ensures ok ==> State() == Pushed(old(State()), result)
      ensures !ok ==> State() == old(State())
    {
      if |items| == MAX_UNCONSUMED { return false; }
      var index;
      if |items| > 0 { index := 1 + items[|items| - 1].index; } else { index := 1 + lastSent; }
      items := items + [Item(result, index)];
      return true;
    }

    /** Hands out all results. If they cannot be put in a response they are dropped all the same. */
    method Pop(encodes: bool) returns (delivered: seq<Item<T>>)
      modifies this
      ensures State() == Popped(old(State()))
      ensures delivered == if encodes then old(items) else []
    {
      var lastResultIndex := lastSent;
      if |items| > 0 { lastResultIndex := items[|items| - 1].index; }
      lastSent := lastResultIndex;
      if !encodes {
        items := [];
        return [];
      }
      delivered := items;
      items := [];
    }
  }

  function Pushed<T>(s: Status<T>, result: T): Status<T> {
    var index := 1 + if s.items != [] then s.items[|s.items| - 1].index else s.lastSent;
    s.(items := s.items + [Item(result, index)])
  }

  function Popped<T>(s: Status<T>): Status<T> {
    Status([], if s.items != [] then s.items[|s.items| - 1].index else s.lastSent)
  }

  // ---- Runs of one sequence ----

  /** `Pop(false)` is a status request whose response could not be encoded. */
  datatype Event<T> = Push(result: T) | Pop(encodes: bool)

  function Apply<T>(s: Status<T>, e: Event<T>): Status<T> {
    match e
    case Push(result) => if |s.items| == MAX_UNCONSUMED then s else Pushed(s, result)
    case Pop(_) => Popped(s)
  }

  function After<T>(run: seq<Event<T>>): Status<T> {
    if run == [] then Status([], 0) else Apply(After(run[..|run| - 1]), run[|run| - 1])
  }

  /** The results that found a place, in order. */
  function Accepted<T>(run: seq<Event<T>>): seq<T> {
    if run == [] then []
    else
      var before, last := run[..|run| - 1], run[|run| - 1];
      Accepted(before) + if last.Push? && |After(before).items| != MAX_UNCONSUMED then [last.result] else []
  }

  /** What status requests took out of the queue, delivered or not. */
  function Taken<T>(run: seq<Event<T>>): seq<Item<T>> {
    if run == [] then []
    else
      var before, last := run[..|run| - 1], run[|run| - 1];
      Taken(before) + if last.Pop? then After(before).items else []
  }

  function Delivered<T>(run: seq<Event<T>>): seq<Item<T>> {
    if run == [] then []
    else
      var before, last := run[..|run| - 1], run[|run| - 1];
      Delivered(before) + if last.Pop? && last.encodes then After(before).items else []
  }

  /** No results were waiting when a response could not be encoded. */
  predicate NothingLost<T>(run: seq<Event<T>>) {
    forall i :: 0 <= i < |run| && run[i].Pop? && !run[i].encodes ==> |After(run[..i]).items| == 0
  }

  function Numbered<T>(results: seq<T>): seq<Item<T>> {
    seq(|results|, i requires 0 <= i < |results| => Item(results[i], i + 1))
  }

  /** What was taken, what is pending and what was accepted. */
  ghost predicate Conserved<T>(taken: seq<Item<T>>, s: Status<T>, accepted: seq<T>) {
    taken + s.items == Numbered(accepted) && s.lastSent == |taken| && |s.items| <= MAX_UNCONSUMED
  }

  lemma ConservedLast<T>(taken: seq<Item<T>>, s: Status<T>, accepted: seq<T>)
    requires Conserved(taken, s, accepted)
    ensures |accepted| == |taken| + |s.items|
    ensures s.items != [] ==> s.items[|s.items| - 1].index == |accepted|
  {
    assert |taken + s.items| == |Numbered(accepted)|;
    if s.items != [] { assert s.items[|s.items| - 1] == Numbered(accepted)[|accepted| - 1]; }
  }

  lemma PushConserves<T>(taken: seq<Item<T>>, s: Status<T>, accepted: seq<T>, result: T)
    requires Conserved(taken, s, accepted) && |s.items| < MAX_UNCONSUMED
    ensures Conserved(taken, Pushed(s, result), accepted + [result])
  {
    ConservedLast(taken, s, accepted);
    var item := Item(result, |accepted| + 1);
    assert Pushed(s, result).items == s.items + [item];
    assert Numbered(accepted + [result]) == Numbered(accepted) + [item];
    assert taken + (s.items + [item]) == (taken + s.items) + [item];
  }

  lemma PopConserves<T>(taken: seq<Item<T>>, s: Status<T>, accepted: seq<T>)
    requires Conserved(taken, s, accepted)
    ensures Conserved(taken + s.items, Popped(s), accepted)
  {
    ConservedLast(taken, s, accepted);
    assert taken + s.items + [] == taken + s.items;
  }

  /** Main result: in every run what was taken followed by what is pending is every accepted result, in
      order, numbered from one without gap or repeat; and the queue never exceeds its bound. */
  lemma {:induction false} TakenThenPending<T>(run: seq<Event<T>>)
    ensures Taken(run) + After(run).items == Numbered(Accepted(run))
    ensures After(run).lastSent == |Taken(run)|
    ensures |After(run).items| <= MAX_UNCONSUMED
  {
    if run != [] {
      var before, last := run[..|run| - 1], run[|run| - 1];
      TakenThenPending(before);
      var taken, s, accepted := Taken(before), After(before), Accepted(before);
      assert Conserved(taken, s, accepted);
      if last.Pop? {
        PopConserves(taken, s, accepted);
        assert Accepted(run) == accepted;
      } else if |s.items| != MAX_UNCONSUMED {
        PushConserves(taken, s, accepted, last.result);
        assert Taken(run) == taken;
      } else {
        assert Accepted(run) == accepted && Taken(run) == taken;
      }
    }
  }

  lemma {:induction false} DeliveredCount<T>(run: seq<Event<T>>)
    ensures |Delivered(run)| <= |Taken(run)|
    ensures |Delivered(run)| == |Taken(run)| <==> NothingLost(run)
    ensures NothingLost(run) ==> Delivered(run) == Taken(run)
  {
    if run != [] {
      var before, last := run[..|run| - 1], run[|run| - 1];
      DeliveredCount(before);
      assert forall i :: 0 <= i < |before| ==> run[..i] == before[..i] && run[i] == before[i];
      assert run[..|before|] == before;
      assert NothingLost(run) <==> NothingLost(before) && (last.Pop? && !last.encodes ==> |After(before).items| == 0);
    }
  }

  /** What was delivered followed by what is pending is everything accepted exactly when no response that failed
      to encode held results. */
  lemma DeliveredThenPending<T>(run: seq<Event<T>>)
    ensures Delivered(run) + After(run).items == Numbered(Accepted(run)) <==> NothingLost(run)
  {
    TakenThenPending(run);
    DeliveredCount(run);
  }

  /** The loss in its smallest run: one result, taken by one response that could not be encoded. */
  lemma LossInstance<T>(x: T)
    ensures var run := [Push(x), Pop(false)];
            Accepted(run) == [x] && Delivered(run) == [] && After(run).items == [] && !NothingLost(run)
  {
    var run := [Push(x), Pop(false)];
    assert run[..1] == [Push(x)] && [Push(x)][..0] == [];
    assert After([Push(x)]) == Status([Item(x, 1)], 0);
    assert Accepted([Push(x)]) == [x] && Delivered([Push(x)]) == [];
    assert run[1].Pop? && |After(run[..1]).items| == 1;
  }

  /** Items that are the accepted results of their numbers, up to a number, with numbers that only grow. */
  ghost predicate InOrder<T>(items: seq<Item<T>>, accepted: seq<T>, upTo: int) {
    && (forall i :: 0 <= i < |items| ==>
          0 < items[i].index <= upTo && items[i].index <= |accepted| && items[i].result == accepted[items[i].index - 1])
    && forall i, j :: 0 <= i < j < |items| ==> items[i].index < items[j].index
  }

  lemma InOrderGrows<T>(items: seq<Item<T>>, accepted: seq<T>, upTo: int, more: seq<T>, later: int)
    requires InOrder(items, accepted, upTo) && upTo <= later
    ensures InOrder(items, accepted + more, later)
  {}

  lemma InOrderAppends<T>(items: seq<Item<T>>, taken: seq<Item<T>>, s: Status<T>, accepted: seq<T>)
    requires InOrder(items, accepted, s.lastSent) && Conserved(taken, s, accepted)
    ensures InOrder(items + s.items, accepted, s.lastSent + |s.items|)
  {
    var all := items + s.items;
    forall k | 0 <= k < |s.items|
      ensures s.items[k].index == s.lastSent + k + 1 <= |accepted|
              && s.items[k].result == accepted[s.lastSent + k]
    {
      assert Numbered(accepted)[s.lastSent + k] == (taken + s.items)[s.lastSent + k];
    }
    forall i | 0 <= i < |all|
      ensures 0 < all[i].index <= s.lastSent + |s.items| && all[i].index <= |accepted|
              && all[i].result == accepted[all[i].index - 1]
    {
      if i >= |items| { assert all[i] == s.items[i - |items|]; }
    }
    forall i, j | 0 <= i < j < |all| ensures all[i].index < all[j].index {
      if j >= |items| {
        assert all[j] == s.items[j - |items|];
        if i >= |items| { assert all[i] == s.items[i - |items|]; }
      }
    }
  }

  lemma PoppedLast<T>(taken: seq<Item<T>>, s: Status<T>, accepted: seq<T>)
    requires Conserved(taken, s, accepted)
    ensures Popped(s).lastSent == s.lastSent + |s.items|
  {
    ConservedLast(taken, s, accepted);
  }

  /** Whatever is lost, each delivered item is the accepted result of its number, and numbers only grow. */
  lemma {:induction false} DeliveredInOrder<T>(run: seq<Event<T>>)
    ensures InOrder(Delivered(run), Accepted(run), After(run).lastSent)
  {
    if run != [] {
      var before, last := run[..|run| - 1], run[|run| - 1];
      DeliveredInOrder(before);
      TakenThenPending(before);
      var items, s, accepted := Delivered(before), After(before), Accepted(before);
      if last.Pop? {
        PoppedLast(Taken(before), s, accepted);
        if last.encodes {
          InOrderAppends(items, Taken(before), s, accepted);
        } else {
          InOrderGrows(items, accepted, s.lastSent, [], s.lastSent + |s.items|);
        }
      } else {
        var more := if |s.items| != MAX_UNCONSUMED then [last.result] else [];
        InOrderGrows(items, accepted, s.lastSent, more, s.lastSent);
      }
    }
  }

  // ---- Sequences by path ----

  /** The background sequence never counts as ended. */
  datatype Entry = Entry(background: bool, finished: bool) {
    predicate Running() { background || !finished }
  }

  predicate Overlap(a: string, b: string) { a <= b || b <= a }

  /** No two running sequences work on overlapping paths. */
  ghost predicate Apart(entries: map<string, Entry>) {
    forall a, b :: a in entries && b in entries && a != b && entries[a].Running() && entries[b].Running() ==>
      !Overlap(a, b)
  }

  predicate Free(entries: map<string, Entry>, path: string) {
    forall k :: k in entries && entries[k].Running() ==> !Overlap(k, path)
  }

  /** `Waits`: a forced start first stops the sequence on its path and waits for it to end, which the background
      sequence never does. */
  datatype Outcome = Launched | AlreadyRunning | Overlaps | Waits

  class Registry {
    var entries: map<string, Entry>

    constructor ()
      ensures entries == map[]
    {
      entries := map[];
    }

    method Launch(path: string, background: bool, force: bool) returns (r: Outcome)
      modifies this
      ensures r == LaunchOutcome(old(entries), path, force)
      ensures entries == Registered(old(entries), RegistryEvent.Launch(path, background, force))
    {
      if force {
        if path in entries {
          if entries[path].background { return Waits; }
          entries := entries - {path};
        }
      } else if path in entries && entries[path].Running() {
        return AlreadyRunning;
      }
      assert entries == Stopped(old(entries), path, force);
      var free := Admits(path);
      if !free { return Overlaps; }
      assert entries[path := Entry(background, false)] == old(entries)[path := Entry(background, false)];
      entries := entries[path := Entry(background, false)];
      return Launched;
    }

    /** Whether no running sequence overlaps the path. */
    method Admits(path: string) returns (free: bool)
      ensures free <==> Free(entries, path)
    {
      var left := entries.Keys;
      while left != {}
        invariant left <= entries.Keys
        invariant forall k :: k in entries && k !in left && entries[k].Running() ==> !Overlap(k, path)
        decreases |left|
      {
        var k :| k in left;
        if entries[k].Running() && (path <= k || k <= path) { return false; }
        left := left - {k};
      }
      return true;
    }
  }

  /** `Remove` is a stop or the clean-up of old sequences. */
  datatype RegistryEvent =
    | Launch(path: string, background: bool, force: bool)
    | Finish(path: string)
    | Remove(path: string)

  /** What a forced start leaves of the sequences when it comes to look for overlaps. */
  function Stopped(entries: map<string, Entry>, path: string, force: bool): map<string, Entry> {
    if force then entries - {path} else entries
  }

  function LaunchOutcome(entries: map<string, Entry>, path: string, force: bool): Outcome {
    if force && path in entries && entries[path].background then Waits
    else if !force && path in entries && entries[path].Running() then AlreadyRunning
    else if Free(Stopped(entries, path, force), path) then Launched
    else Overlaps
  }

  function Registered(entries: map<string, Entry>, e: RegistryEvent): map<string, Entry> {
    match e
    case Launch(path, background, force) =>
      (match LaunchOutcome(entries, path, force)
       case Launched => entries[path := Entry(background, false)]
       case Overlaps => Stopped(entries, path, force)
       case _ => entries)
    case Finish(path) => if path in entries then entries[path := entries[path].(finished := true)] else entries
    case Remove(path) => entries - {path}
  }

  function Registrations(run: seq<RegistryEvent>): map<string, Entry> {
    if run == [] then map[] else Registered(Registrations(run[..|run| - 1]), run[|run| - 1])
  }

  lemma RegisteredApart(entries: map<string, Entry>, e: RegistryEvent)
    requires Apart(entries)
    ensures Apart(Registered(entries, e))
  {
    if e.Launch? && LaunchOutcome(entries, e.path, e.force) == Launched {
      var after := Registered(entries, e);
      forall a, b | a in after && b in after && a != b && after[a].Running() && after[b].Running()
        ensures !Overlap(a, b)
      {
        var others := Stopped(entries, e.path, e.force);
        if a == e.path {
          assert b in others && others[b].Running();
        } else if b == e.path {
          assert a in others && others[a].Running();
        }
      }
    }
  }

  lemma {:induction false} RunApart(run: seq<RegistryEvent>)
    ensures Apart(Registrations(run))
  {
    if run != [] {
      RunApart(run[..|run| - 1]);
      RegisteredApart(Registrations(run[..|run| - 1]), run[|run| - 1]);
    }
  }

  /** Of two sequences registered and running after any run, neither path begins with the other. */
  lemma PathsStayApart(run: seq<RegistryEvent>, a: string, b: string)
    requires a in Registrations(run) && b in Registrations(run) && a != b
    requires var e := Registrations(run)[a]; e.background || !e.finished
    requires var e := Registrations(run)[b]; e.background || !e.finished
    ensures !(a <= b) && !(b <= a)
  {
    RunApart(run);
    assert !Overlap(a, b);
  }

  /** When a start is admitted: unless forced, nothing runs on the path; forced, the background does not; and no other
      running sequence has a path that begins with this one or begins it. */
  lemma LaunchExactly(entries: map<string, Entry>, path: string, force: bool)
    ensures LaunchOutcome(entries, path, force) == Launched <==>
            && (path in entries ==>
                  if force then !entries[path].background else !entries[path].background && entries[path].finished)
            && forall k :: k in entries && k != path && (entries[k].background || !entries[k].finished) ==>
                 !(k <= path) && !(path <= k)
  {
    var others := Stopped(entries, path, force);
    if LaunchOutcome(entries, path, force) == Launched {
      forall k | k in entries && k != path && (entries[k].background || !entries[k].finished)
        ensures !(k <= path) && !(path <= k)
      {
        assert k in others && others[k].Running() && !Overlap(k, path);
      }
    }
  }

  /** Main result: in every run a forced start of a path on which a client's sequence is running takes its place; it is
      never refused once it has stopped the old one. */
  lemma ForcedStartReplaces(run: seq<RegistryEvent>, path: string)
    requires path in Registrations(run) && Registrations(run)[path].Running() && !Registrations(run)[path].background
    ensures LaunchOutcome(Registrations(run), path, true) == Launched
  {
    RunApart(run);
    var entries := Registrations(run);
    forall k | k in Stopped(entries, path, true) && entries[k].Running() ensures !Overlap(k, path) {
      assert !Overlap(k, path) || k == path;
    }
  }

  /** A forced start of a path whose sequence has ended can forget that sequence and be refused all the same. */
  lemma ForcedStartForgets()
    ensures var run := [Launch("a/b", false, false), Finish("a/b"), Launch("a", false, false),
                        Launch("a/b", false, true)];
            && LaunchOutcome(Registrations(run[..3]), "a/b", true) == Overlaps
            && "a/b" in Registrations(run[..3]) && "a/b" !in Registrations(run)
  {
    var e0, e1 := Launch("a/b", false, false), Finish("a/b");
    var e2, e3 := Launch("a", false, false), Launch("a/b", false, true);
    var run := [e0, e1, e2, e3];
    assert run[..3][..2] == [e0, e1] && [e0, e1][..1] == [e0] && [e0][..0] == [];
    assert Registrations([e0]) == map["a/b" := Entry(false, false)];
    assert Registrations([e0, e1]) == map["a/b" := Entry(false, true)];
    assert Registrations(run[..3]) == map["a/b" := Entry(false, true), "a" := Entry(false, false)];
    assert "a" <= "a/b";
    assert Overlap("a", "a/b");
    assert run[..|run| - 1] == run[..3];
  }
}
