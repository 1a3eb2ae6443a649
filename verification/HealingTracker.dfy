/**
 The progress record of a drive being healed: which buckets are queued, which are healed, and the totals
 to fall back to when healing resumes.
 */
module HealingTracker {
  import opened Options
  import Lex

  datatype Totals = Totals(objectsHealed: nat, objectsFailed: nat, bytesDone: nat, bytesFailed: nat)

  const ZERO := Totals(0, 0, 0, 0)

  // ---- Deleting from a slice while ranging over it ----

  /** After a deletion the entry that moved up is passed over. */
  function RemoveSkipping<Name(==)>(s: seq<Name>, bucket: Name): seq<Name> {
    if s == [] then []
    else if s[0] != bucket then [s[0]] + RemoveSkipping(s[1..], bucket)
    else if |s| == 1 then []
    else [s[1]] + RemoveSkipping(s[2..], bucket)
  }

  /** The bucket is last and occurs before: the range still visits the old end of the slice, and slicing past
      the new end fails. */
  predicate Panics<Name(==)>(s: seq<Name>, bucket: Name) { s != [] && s[|s| - 1] == bucket && bucket in s[..|s| - 1] }

  /** The entries of a list that are not in another. */
  function Except<Name(==)>(s: seq<Name>, out: seq<Name>): seq<Name> {
    if s == [] then [] else (if s[0] in out then [] else [s[0]]) + Except(s[1..], out)
  }

  class Tracker<Name(==)> {
    var totals: Totals
    var resumeTotals: Totals
    var queue: array<Name>
    var count: nat
    var healed: seq<Name>

    ghost predicate Valid()
      reads this
    {
      count <= queue.Length
    }

    ghost function Queued(): seq<Name>
      reads this, queue
      requires Valid()
    {
      queue[..count]
    }

    constructor ()
      ensures Valid() && fresh(queue) && Queued() == [] && healed == [] && totals == ZERO && resumeTotals == ZERO
    {
      totals, resumeTotals, count, healed := ZERO, ZERO, 0, [];
      queue := new Name[0];
    }

    method IsHealed(bucket: Name) returns (found: bool)
      ensures found <==> bucket in healed
    {
      for i := 0 to |healed|
        invariant bucket !in healed[..i]
      {
        if healed[i] == bucket { return true; }
      }
      return false;
    }

    method Resume()
      modifies `totals
      ensures totals == resumeTotals
    {
      totals := resumeTotals;
    }

    method SetQueuedBuckets(buckets: seq<Name>)
      modifies `queue, `count
      ensures Valid() && fresh(queue) && Queued() == Except(buckets, healed)
    {
      var names := new Name[|buckets|](i requires 0 <= i < |buckets| => buckets[i]);
      var n := 0;
      for i := 0 to |buckets|
        invariant n <= i && names[..n] == Except(buckets[..i], healed)
      {
        ExceptSnoc(buckets[..i], buckets[i], healed);
        assert buckets[..i + 1] == buckets[..i] + [buckets[i]];
        if buckets[i] !in healed {
          names[n] := buckets[i];
          n := n + 1;
        }
      }
      assert buckets[..|buckets|] == buckets;
      queue, count := names, n;
    }

    /** Moves the entries after `at` down by one. */
    method Delete(at: nat)
      requires Valid() && at < count
      modifies `count, queue
      ensures count == old(count) - 1
      ensures queue[..] == Deleted(old(queue[..]), at, old(count))
    {
      for j := at to count - 1
        invariant count == old(count)
        invariant forall k :: 0 <= k < queue.Length ==> queue[k] == old(queue[if at <= k < j then k + 1 else k])
      {
        queue[j] := queue[j + 1];
      }
      count := count - 1;
    }

    /** Go's range keeps the length the slice had at the start, and reads the array as it is now. */
    method BucketDone(bucket: Name) returns (panicked: bool)
      requires Valid()
      modifies this, queue
      ensures Valid() && queue == old(queue) && totals == old(totals)
      ensures resumeTotals == old(totals) && healed == old(healed) + [bucket]
      ensures panicked <==> Panics(old(Queued()), bucket)
      ensures !panicked ==> Queued() == RemoveSkipping(old(Queued()), bucket)
    {
      resumeTotals, healed := totals, healed + [bucket];
      panicked := DropFromQueue(bucket);
    }

    method DropFromQueue(bucket: Name) returns (panicked: bool)
      requires Valid()
      modifies `count, queue
      ensures Valid()
      ensures panicked <==> Panics(old(Queued()), bucket)
      ensures !panicked ==> Queued() == RemoveSkipping(old(Queued()), bucket)
    {
      var n, i := count, 0;
      ghost var s := Queued();
      ghost var a := s;
      while i < n
        invariant 0 <= i <= n == |s| <= queue.Length && count <= n && a == queue[..n]
        invariant Range(bucket, a, count, i) == Range(bucket, s, n, 0)
      {
        if queue[i] == bucket {
          if i + 1 > count {
            assert Range(bucket, a, count, i) == None;
            RangeExact(s, bucket);
            return true;
          }
          DeletedPrefix(queue[..], n, i, count);
          ghost var next := Deleted(a, i, count);
          assert Range(bucket, a, count, i) == Range(bucket, next, count - 1, i + 1);
          a := next;
          Delete(i);
        } else {
          assert Range(bucket, a, count, i) == Range(bucket, a, count, i + 1);
        }
        i := i + 1;
      }
      assert Range(bucket, a, count, i) == Some(a[..count]);
      assert a[..count] == queue[..count];
      RangeExact(s, bucket);
      return false;
    }
  }

  lemma {:induction false} ExceptSnoc<Name>(s: seq<Name>, x: Name, out: seq<Name>)
    ensures Except(s + [x], out) == Except(s, out) + if x in out then [] else [x]
  {
    if s != [] {
      ExceptSnoc(s[1..], x, out);
      assert (s + [x])[1..] == s[1..] + [x];
    }
  }

  /** An array after deleting the entry at `at` among its first `m`: the last of them is still there. */
  function Deleted<Name(==)>(a: seq<Name>, at: nat, m: nat): seq<Name>
    requires at < m <= |a|
  {
    a[..at] + a[at + 1..m] + a[m - 1..]
  }

  lemma DeletedPrefix<Name>(a: seq<Name>, n: nat, at: nat, m: nat)
    requires at < m <= n <= |a|
    ensures Deleted(a, at, m)[..n] == Deleted(a[..n], at, m)
  {
    var d, e := Deleted(a, at, m), Deleted(a[..n], at, m);
    forall k | 0 <= k < n ensures d[k] == e[k] {}
  }

  // ---- The loop, on values ----

  /** The queue after the rest of the range, or nothing when it fails. The array is `a`, the queue its first `m`
      entries, and `i` the next index. */
  function Range<Name(==)>(bucket: Name, a: seq<Name>, m: nat, i: nat): Option<seq<Name>>
    requires m <= |a| && i <= |a|
    decreases |a| - i
  {
    if i == |a| then Some(a[..m])
    else if a[i] != bucket then Range(bucket, a, m, i + 1)
    else if i + 1 > m then None
    else Range(bucket, Deleted(a, i, m), m - 1, i + 1)
  }

  /** Past the end of the queue the range only fails or does nothing. */
  lemma {:induction false} RangePastEnd<Name>(bucket: Name, a: seq<Name>, m: nat, i: nat)
    requires m <= i <= |a|
    ensures Range(bucket, a, m, i) == if bucket in a[i..] then None else Some(a[..m])
    decreases |a| - i
  {
    if i < |a| {
      assert a[i..] == [a[i]] + a[i + 1..];
      RangePastEnd(bucket, a, m, i + 1);
    }
  }

  /** Past the end of the queue there are only copies of its last entry. */
  predicate Padded<Name(==)>(a: seq<Name>, m: nat, i: nat) {
    i <= m < |a| && (forall j :: m <= j < |a| ==> a[j] == a[|a| - 1]) && (i < m ==> a[m - 1] == a[|a| - 1])
  }

  lemma DeletedPadded<Name>(a: seq<Name>, m: nat, i: nat)
    requires Padded(a, m, i) && i + 1 < m
    ensures Padded(Deleted(a, i, m), m - 1, i + 1) && Deleted(a, i, m)[|a| - 1] == a[|a| - 1]
  {}

  lemma DeletedParts<Name>(a: seq<Name>, i: nat, m: nat)
    requires i + 1 < m <= |a|
    ensures Deleted(a, i, m)[..i + 1] == a[..i] + [a[i + 1]] && Deleted(a, i, m)[i + 1..m - 1] == a[i + 2..m]
  {}

  lemma DeletedLast<Name>(a: seq<Name>, m: nat)
    requires 0 < m <= |a|
    ensures Deleted(a, m - 1, m) == a
  {}

  lemma SkipStep<Name>(a: seq<Name>, bucket: Name, i: nat, m: nat)
    requires i < m <= |a|
    ensures a[i] != bucket ==> RemoveSkipping(a[i..m], bucket) == [a[i]] + RemoveSkipping(a[i + 1..m], bucket)
    ensures a[i] == bucket && i + 1 == m ==> RemoveSkipping(a[i..m], bucket) == []
    ensures a[i] == bucket && i + 1 < m
            ==> RemoveSkipping(a[i..m], bucket) == [a[i + 1]] + RemoveSkipping(a[i + 2..m], bucket)
  {}

  lemma Regroup<Name>(p: seq<Name>, x: Name, q: seq<Name>)
    ensures p + ([x] + q) == (p + [x]) + q
  {}

  /** Once something was deleted. */
  lemma {:induction false} RangeMoved<Name>(bucket: Name, a: seq<Name>, m: nat, i: nat)
    requires Padded(a, m, i)
    ensures Range(bucket, a, m, i)
         == if a[|a| - 1] == bucket then None else Some(a[..i] + RemoveSkipping(a[i..m], bucket))
    decreases |a| - i
  {
    if i == m {
      RangePastEnd(bucket, a, m, i);
      assert a[|a| - 1] == a[i..][|a| - 1 - i];
      assert a[i..m] == [] && a[..i] + [] == a[..m];
    } else {
      SkipStep(a, bucket, i, m);
      if a[i] != bucket {
        RangeMoved(bucket, a, m, i + 1);
        assert a[..i + 1] == a[..i] + [a[i]];
        Regroup(a[..i], a[i], RemoveSkipping(a[i + 1..m], bucket));
      } else if i + 1 == m {
        DeletedLast(a, m);
        RangePastEnd(bucket, a, m - 1, i + 1);
        assert a[|a| - 1] == a[i + 1..][|a| - 1 - (i + 1)];
      } else {
        DeletedPadded(a, m, i);
        DeletedParts(a, i, m);
        RangeMoved(bucket, Deleted(a, i, m), m - 1, i + 1);
        Regroup(a[..i], a[i + 1], RemoveSkipping(a[i + 2..m], bucket));
      }
    }
  }

  /** Before anything was deleted. */
  lemma {:induction false} RangeUnmoved<Name>(bucket: Name, a: seq<Name>, i: nat)
    requires i <= |a| && bucket !in a[..i]
    ensures Range(bucket, a, |a|, i)
         == if Panics(a, bucket) then None else Some(a[..i] + RemoveSkipping(a[i..], bucket))
    decreases |a| - i
  {
    var n := |a|;
    assert a[i..n] == a[i..];
    if i == n {
      assert a[..i] == a && a[i..] == [] && a[..i] + [] == a[..n];
    } else {
      SkipStep(a, bucket, i, n);
      assert a[..i + 1] == a[..i] + [a[i]];
      if a[i] != bucket {
        RangeUnmoved(bucket, a, i + 1);
        assert a[i + 1..n] == a[i + 1..];
        Regroup(a[..i], a[i], RemoveSkipping(a[i + 1..n], bucket));
      } else if i + 1 == n {
        DeletedLast(a, n);
        assert a[..n - 1] == a[..i];
      } else {
        DeletedFirst(a, bucket, i);
        RangeMoved(bucket, Deleted(a, i, n), n - 1, i + 1);
        Regroup(a[..i], a[i + 1], RemoveSkipping(a[i + 2..n], bucket));
      }
    }
  }

  lemma DeletedFirst<Name>(a: seq<Name>, bucket: Name, i: nat)
    requires i + 1 < |a| && a[i] == bucket
    ensures Padded(Deleted(a, i, |a|), |a| - 1, i + 1) && Deleted(a, i, |a|)[|a| - 1] == a[|a| - 1]
    ensures Deleted(a, i, |a|)[..i + 1] == a[..i] + [a[i + 1]] && Deleted(a, i, |a|)[i + 1..|a| - 1] == a[i + 2..|a|]
    ensures Panics(a, bucket) <==> a[|a| - 1] == bucket
  {}

  /** The loop fails exactly when the bucket is last and occurs before, and otherwise removes with skips. */
  lemma RangeExact<Name>(s: seq<Name>, bucket: Name)
    ensures Range(bucket, s, |s|, 0) == if Panics(s, bucket) then None else Some(RemoveSkipping(s, bucket))
  {
    RangeUnmoved(bucket, s, 0);
    assert s[0..] == s && s[..0] + RemoveSkipping(s, bucket) == RemoveSkipping(s, bucket);
  }

  // ---- Distinct names ----

  lemma {:induction false} ExceptMembers<Name>(s: seq<Name>, out: seq<Name>, x: Name)
    ensures x in Except(s, out) <==> x in s && x !in out
  {
    if s != [] { ExceptMembers(s[1..], out, x); }
  }

  lemma {:induction false} ExceptDistinct<Name>(s: seq<Name>, out: seq<Name>)
    requires Lex.Distinct(s)
    ensures Lex.Distinct(Except(s, out))
  {
    if s != [] {
      ExceptDistinct(s[1..], out);
      ExceptMembers(s[1..], out, s[0]);
      assert s[0] !in s[1..];
    }
  }

  lemma {:induction false} ExceptNothing<Name>(s: seq<Name>, out: seq<Name>)
    requires forall x :: x in s ==> x !in out
    ensures Except(s, out) == s
  {
    if s != [] { ExceptNothing(s[1..], out); }
  }

  /** Leaving out more, one name at a time. */
  lemma {:induction false} ExceptOneMore<Name>(s: seq<Name>, out: seq<Name>, x: Name)
    ensures Except(s, out + [x]) == Except(Except(s, out), [x])
  {
    if s != [] {
      ExceptOneMore(s[1..], out, x);
      var more := Except(s[1..], out);
      assert ([s[0]] + more)[1..] == more && [] + more == more;
    }
  }

  /** From distinct names the loop stays in bounds and takes out the one entry, keeping the order. */
  lemma {:induction false} RemovesExactlyOne<Name>(s: seq<Name>, bucket: Name)
    requires Lex.Distinct(s)
    ensures !Panics(s, bucket)
    ensures RemoveSkipping(s, bucket) == Except(s, [bucket])
  {
    if s != [] {
      RemovesExactlyOne(s[1..], bucket);
      assert s[0] !in s[1..];
      if s[0] == bucket {
        ExceptNothing(s[1..], [bucket]);
        if |s| > 1 { SkippedNothing(s[2..], bucket); assert s[1..] == [s[1]] + s[2..]; }
      }
    }
  }

  lemma {:induction false} SkippedNothing<Name>(s: seq<Name>, bucket: Name)
    requires bucket !in s
    ensures RemoveSkipping(s, bucket) == s
  {
    if s != [] { SkippedNothing(s[1..], bucket); }
  }

  // ---- Runs ----

  datatype Record = Record(totals: Totals, resumeTotals: Totals, queued: seq<string>, healed: seq<string>)

  /** `Progress` is what healing objects does to the totals. */
  datatype Event = SetQueued(buckets: seq<string>) | Progress(totals: Totals) | Done(bucket: string) | Resume

  function Apply(r: Record, e: Event): Record {
    match e
    case SetQueued(buckets) => r.(queued := Except(buckets, r.healed))
    case Progress(totals) => r.(totals := totals)
    case Done(bucket) =>
      Record(r.totals, r.totals, RemoveSkipping(r.queued, bucket), r.healed + [bucket])
    case Resume => r.(totals := r.resumeTotals)
  }

  function After(run: seq<Event>): Record {
    if run == [] then Record(ZERO, ZERO, [], []) else Apply(After(run[..|run| - 1]), run[|run| - 1])
  }

  /** The list of the last call that queued buckets. */
  function Listed(run: seq<Event>): seq<string> {
    if run == [] then []
    else if run[|run| - 1].SetQueued? then run[|run| - 1].buckets
    else Listed(run[..|run| - 1])
  }

  /** The totals when the last bucket was finished. */
  function TotalsAtLastDone(run: seq<Event>): Totals {
    if run == [] then ZERO
    else if run[|run| - 1].Done? then After(run[..|run| - 1]).totals
    else TotalsAtLastDone(run[..|run| - 1])
  }

  ghost predicate DistinctLists(run: seq<Event>) {
    forall i :: 0 <= i < |run| && run[i].SetQueued? ==> Lex.Distinct(run[i].buckets)
  }

  /** Main result: in every run over lists of distinct names the queue is what was last listed without what
      is healed, in the order of the list. */
  lemma {:induction false} QueueIsListedExceptHealed(run: seq<Event>)
    requires DistinctLists(run)
    ensures After(run).queued == Except(Listed(run), After(run).healed)
    ensures Lex.Distinct(After(run).queued)
  {
    if run != [] {
      var before, last := run[..|run| - 1], run[|run| - 1];
      QueueIsListedExceptHealed(before);
      var r := After(before);
      match last
      case SetQueued(buckets) => ExceptDistinct(buckets, r.healed);
      case Done(bucket) =>
        RemovesExactlyOne(r.queued, bucket);
        ExceptOneMore(Listed(before), r.healed, bucket);
        ExceptDistinct(r.queued, [bucket]);
      case _ =>
    }
  }

  /** So queued and healed never meet and together cover the list, and no call in the run goes out of bounds. */
  lemma QueuedAndHealedPartition(run: seq<Event>, bucket: string)
    requires DistinctLists(run)
    ensures !(bucket in After(run).queued && bucket in After(run).healed)
    ensures bucket in Listed(run) ==> bucket in After(run).queued || bucket in After(run).healed
    ensures bucket in After(run).queued ==> bucket in Listed(run)
    ensures !Panics(After(run).queued, bucket)
  {
    QueueIsListedExceptHealed(run);
    ExceptMembers(Listed(run), After(run).healed, bucket);
    RemovesExactlyOne(After(run).queued, bucket);
  }

  lemma {:induction false} ResumeKept(run: seq<Event>)
    ensures After(run).resumeTotals == TotalsAtLastDone(run)
  {
    if run != [] { ResumeKept(run[..|run| - 1]); }
  }

  /** Resuming goes back to the totals of the last finished bucket, whatever came in between. */
  lemma {:induction false} ResumeRestores(run: seq<Event>)
    ensures After(run + [Resume]).totals == TotalsAtLastDone(run)
  {
    assert (run + [Resume])[..|run|] == run;
    ResumeKept(run);
  }

  /** With repeated names the loop can fail: an input on which it does. */
  lemma RepeatedNamesPanic()
    ensures Panics(["a", "a"], "a") && !Panics(["a", "a", "b"], "a")
    ensures RemoveSkipping(["a", "a", "b"], "a") == ["a", "b"]
  {
    assert ["a", "a"][..1] == ["a"];
    assert RemoveSkipping(["b"], "a") == ["b"];
  }
}
