/**
 How moving and deleting a version end: what a finished deletion has removed, that the intent to delete is durable
 before anything is removed, and that from every reachable state both can be brought to their end.
 */
module TransitionEnds {
  import opened Options
  import opened Transition

  // ---- A deletion under way ----

  /** What a deletion that looks at the record now is going to remove. */
  function Doomed(remote: Remote, r: Record): Option<Ref> {
    match r.tier
    case Plain => None
    case Complete(ref) => Some(ref)
    case Pending(ref) =>
      (match Recover(remote, ref) case None => None case Some(v) => Some(Ref(ref.key, v.id)))
  }

  predicate Gone(remote: Remote, ref: Ref) { forall v :: v in Stored(remote, ref.key) ==> v.id != ref.version }

  /** The remote object has been removed, if there was one: a complete version's own, a pending one's that was found. */
  predicate Removed(before: Remote, r: Record, after: Remote) {
    match r.tier
    case Plain => true
    case Complete(ref) => forall v :: v in Stored(after, ref.key) ==> v.id != ref.version
    case Pending(ref) =>
      match Recover(before, ref)
      case None => Stored(after, ref.key) == []
      case Some(found) => forall v :: v in Stored(after, ref.key) ==> v.id != found.id
  }

  function Actor(a: Action): Option<Worker> { if a.Create? || a.Land? then None else Some(a.w) }

  predicate LandsOn(s: State, a: Action, key: Key) {
    a.Land? && a.upload in s.uploads && s.uploads[a.upload].key == key
  }

  /** No upload to the key takes effect between two states. */
  predicate NoLanding(states: seq<State>, actions: seq<Action>, key: Key, i: nat, j: nat)
    requires i <= j <= |actions| < |states|
  {
    forall k :: i <= k < j ==> !LandsOn(states[k], actions[k], key)
  }

  lemma {:induction false} DropRemoves(versions: seq<Version>, id: string)
    ensures forall v :: v in Drop(versions, id) ==> v.id != id
  {
    if versions != [] { DropRemoves(versions[..|versions| - 1], id); }
  }

  /** Without an upload to the key, nothing comes to be stored there. */
  lemma StoredShrinks(s: State, a: Action, key: Key, v: Version)
    requires Enabled(s, a) && !LandsOn(s, a, key) && v in Stored(Fire(s, a).remote, key)
    ensures v in Stored(s.remote, key)
  {}

  predicate Ending(pc: Pc) { pc.DelIntending? || pc.DelRemoving? || pc.DelFinishing? }

  /** Past its lookup a deletion heads for what it found, and has removed it when only the record is left. */
  predicate Underway(before: Remote, r: Record, slot: Slot, s: State, w: Worker) {
    var pc, doomed := s.At(w), Doomed(before, r);
    && Ending(pc) && pc.slot == slot
    && (match doomed
        case None => pc.DelFinishing? && (r.Bound() ==> Stored(s.remote, r.tier.ref.key) == [])
        case Some(ref) => if pc.DelFinishing? then Gone(s.remote, ref) else pc.ref == ref)
  }

  lemma Begins(s: State, w: Worker)
    requires Inv(s) && Enabled(s, DeleteStat(w))
    ensures s.At(w).slot in s.records
    ensures Underway(s.remote, s.records[s.At(w).slot], s.At(w).slot, Fire(s, DeleteStat(w)), w)
  {
    assert LocksHeld(s);
  }

  lemma Goes(before: Remote, r: Record, slot: Slot, s: State, a: Action, w: Worker)
    requires Underway(before, r, slot, s, w) && Enabled(s, a) && (r.Bound() ==> !LandsOn(s, a, r.tier.ref.key))
    requires Actor(a) == Some(w) ==> a.DeleteIntent? || a.DeleteRemote?
    ensures Underway(before, r, slot, Fire(s, a), w)
  {
    var t := Fire(s, a);
    if r.Bound() {
      var key := r.tier.ref.key;
      forall v | v in Stored(t.remote, key) ensures v in Stored(s.remote, key) { StoredShrinks(s, a, key, v); }
      if a.DeleteRemote? && a.w == w { DropRemoves(Stored(s.remote, s.At(w).ref.key), s.At(w).ref.version); }
    }
  }

  /** The lookup behind a deletion that has come this far, and that the worker has done nothing else since. */
  lemma {:induction false} LookedUp(states: seq<State>, actions: seq<Action>, n: nat, w: Worker) returns (d: nat)
    requires Run(states, actions) && n < |states| && Ending(states[n].At(w))
    ensures d < n && actions[d] == DeleteStat(w) && states[d].At(w).DelChecked?
    ensures states[d].At(w).slot == states[n].At(w).slot
    ensures forall k :: d < k < n && Actor(actions[k]) == Some(w) ==>
             actions[k].DeleteIntent? || actions[k].DeleteRemote?
    decreases n
  {
    if n == 0 {
      assert false;
    } else {
      StepOf(states, actions, n);
      if actions[n - 1] == DeleteStat(w) { d := n - 1; } else { d := LookedUp(states, actions, n - 1, w); }
    }
  }

  lemma {:induction false} UnderwayUntil(states: seq<State>, actions: seq<Action>, d: nat, n: nat, w: Worker,
                                         slot: Slot, r: Record)
    requires Run(states, actions) && d < n < |states| && actions[d] == DeleteStat(w)
    requires slot == states[d].At(w).slot && slot in states[d].records && r == states[d].records[slot]
    requires forall k :: d < k < n && Actor(actions[k]) == Some(w) ==>
              actions[k].DeleteIntent? || actions[k].DeleteRemote?
    requires r.Bound() ==> NoLanding(states, actions, r.tier.ref.key, d, n)
    ensures Underway(states[d].remote, r, slot, states[n], w)
    decreases n
  {
    StepOf(states, actions, n);
    if n == d + 1 {
      RunKeeps(states, actions, d);
      Begins(states[d], w);
    } else {
      UnderwayUntil(states, actions, d, n - 1, w, slot, r);
      Goes(states[d].remote, r, slot, states[n - 1], actions[n - 1], w);
    }
  }

  lemma RemovedBy(before: Remote, r: Record, slot: Slot, s: State, w: Worker)
    requires Underway(before, r, slot, s, w) && s.At(w).DelFinishing?
    ensures Removed(before, r, s.remote)
  {}

  /** The intent to delete is durable before anything is removed, and only the version's own key is touched. */
  lemma IntentBeforeRemoval(states: seq<State>, actions: seq<Action>, n: nat, w: Worker)
    requires Run(states, actions) && n < |actions| && actions[n] == DeleteRemote(w)
    ensures var slot := states[n].At(w).slot;
            && slot in states[n].records && states[n].records[slot].deleting && states[n].records[slot].Bound()
            && forall key :: key != states[n].records[slot].tier.ref.key ==>
                 Stored(states[n + 1].remote, key) == Stored(states[n].remote, key)
  {
    assert Enabled(states[n], actions[n]) && states[n + 1] == Fire(states[n], actions[n]);
    RunKeeps(states, actions, n);
    assert LocksHeld(states[n]) && PcOk(states[n], states[n].workers[w]);
  }

  /** Main result of deletion: when the record of a version goes, the lookup of that deletion lies behind, and what it
      was about is no longer stored: the object a complete version refers to, the one found for a pending one, anything
      at all if none was found. Only an upload to the key that lands in between can put something back. */
  lemma DeletionRemovesRemote(states: seq<State>, actions: seq<Action>, n: nat, w: Worker) returns (d: nat)
    requires Run(states, actions) && n < |actions| && actions[n] == DeleteLocal(w)
    ensures d < n && actions[d] == DeleteStat(w)
    ensures var slot := states[n].At(w).slot;
            && slot in states[d].records && slot in states[n].records && slot !in states[n + 1].records
            && var r := states[d].records[slot];
            ((r.Bound() ==> NoLanding(states, actions, r.tier.ref.key, d, n))
             ==> Removed(states[d].remote, r, states[n].remote))
  {
    assert Enabled(states[n], actions[n]) && states[n + 1] == Fire(states[n], actions[n]);
    d := LookedUp(states, actions, n, w);
    RunKeeps(states, actions, d);
    RunKeeps(states, actions, n);
    assert LocksHeld(states[d]) && LocksHeld(states[n]);
    var slot := states[n].At(w).slot;
    var r := states[d].records[slot];
    if r.Bound() ==> NoLanding(states, actions, r.tier.ref.key, d, n) {
      UnderwayUntil(states, actions, d, n, w, slot, r);
      RemovedBy(states[d].remote, r, slot, states[n], w);
    }
  }

  // ---- Both come to an end ----

  /** The last three actions of a move whose upload has been sent. */
  lemma LandsAndCommits(s: State, slot: Slot, w: Worker, x: nat, id: string)
    requires Uploadable(s, slot) && w !in s.workers && x !in s.uploads
    requires id != "" ==> Find(Stored(s.remote, s.records[slot].tier.ref.key), id).None?
    ensures var s4 := Resent(s, slot, w, x);
            && Enabled(s4, Land(x, "")) && Enabled(s4, Land(x, id))
            && var s5 := Fire(s4, Land(x, id));
            && Enabled(s5, Acknowledge(w)) && Enabled(Fire(s5, Acknowledge(w)), Commit(w))
            && var r, t := s.records[slot], Fire(Fire(s5, Acknowledge(w)), Commit(w));
            && t.records == s.records[slot := r.(tier := Complete(Ref(r.tier.ref.key, id)))]
            && t.effects == s.effects + multiset{r.tier.ref.key}
  {
    var s4 := Resent(s, slot, w, x);
    assert s4.At(w) == Waiting(slot, s.records[slot], x);
    var s5 := Fire(s4, Land(x, id));
    assert s5.At(w) == Waiting(slot, s.records[slot], x) && s5.uploads[x].landed == Some(id);
    var s6 := Fire(s5, Acknowledge(w));
    assert s6.At(w) == Ready(slot, s.records[slot], Ref(s.records[slot].tier.ref.key, id));
  }

  lemma UploadCompletes(states: seq<State>, actions: seq<Action>, slot: Slot, id: string)
      returns (states': seq<State>, actions': seq<Action>)
    requires Run(states, actions) && Uploadable(states[|actions|], slot)
    requires Recover(states[|actions|].remote, states[|actions|].records[slot].tier.ref).None?
    requires id != "" ==> Find(Stored(states[|actions|].remote, states[|actions|].records[slot].tier.ref.key), id).None?
    ensures Continues(states, actions, states', actions')
    ensures var r := states[|actions|].records[slot];
            && states'[|actions'|].records
               == states[|actions|].records[slot := r.(tier := Complete(Ref(r.tier.ref.key, id)))]
            && states'[|actions'|].effects == states[|actions|].effects + multiset{r.tier.ref.key}
  {
    var s := states[|actions|];
    var w, x;
    states', actions', w, x := Resend(states, actions, slot, false);
    LandsAndCommits(s, slot, w, x, id);
    var s5 := Fire(Resent(s, slot, w, x), Land(x, id));
    var s6 := Fire(s5, Acknowledge(w));
    states', actions' := ExtendTwice(states', actions', Land(x, id), s5, Acknowledge(w), s6);
    states', actions' := Extend(states', actions', Commit(w));
  }

  lemma FindsAndCommits(s: State, slot: Slot, w: Worker)
    requires Uploadable(s, slot) && w !in s.workers && Recover(s.remote, s.records[slot].tier.ref).Some?
    requires Matches(Recover(s.remote, s.records[slot].tier.ref).value, s.records[slot], s.records[slot].tier.ref.key)
    ensures var r := s.records[slot];
            var s2, ref := Going(s, w, Checked(slot, r)), Ref(r.tier.ref.key, Recover(s.remote, r.tier.ref).value.id);
            && Leads(s2, StatFound(w), Going(s, w, Ready(slot, r, ref)))
            && Enabled(Going(s, w, Ready(slot, r, ref)), Commit(w))
            && var t := Fire(Going(s, w, Ready(slot, r, ref)), Commit(w));
            && t.records == s.records[slot := r.(tier := Complete(ref))] && t.effects == s.effects
  {}

  lemma RecoveryCompletes(states: seq<State>, actions: seq<Action>, slot: Slot)
      returns (states': seq<State>, actions': seq<Action>)
    requires Run(states, actions) && Uploadable(states[|actions|], slot)
    requires Recover(states[|actions|].remote, states[|actions|].records[slot].tier.ref).Some?
    ensures Continues(states, actions, states', actions')
    ensures var s, r := states[|actions|], states[|actions|].records[slot];
            && states'[|actions'|].records
               == s.records[slot := r.(tier := Complete(Ref(r.tier.ref.key, Recover(s.remote, r.tier.ref).value.id)))]
            && states'[|actions'|].effects == s.effects
  {
    var s := states[|actions|];
    var r := s.records[slot];
    var w := FreshNumber(s.workers.Keys);
    RecoveryAlwaysMatches(states, actions, |actions|, slot);
    ResendStarts(s, slot, w);
    FindsAndCommits(s, slot, w);
    var prepared, checked := Going(s, w, Prepared(slot, r)), Going(s, w, Checked(slot, r));
    var ready := Going(s, w, Ready(slot, r, Ref(r.tier.ref.key, Recover(s.remote, r.tier.ref).value.id)));
    states', actions' := ExtendTwice(states, actions, Prepare(w, slot), prepared, Enter(w), checked);
    states', actions' := ExtendTwice(states', actions', StatFound(w), ready, Commit(w), Fire(ready, Commit(w)));
  }

  /** A version not moved yet gets a key nothing was ever bound to, and can then be uploaded. */
  lemma MoveBegins(states: seq<State>, actions: seq<Action>, slot: Slot, version: string)
      returns (states': seq<State>, actions': seq<Action>, key: Key)
    requires Run(states, actions) && slot in states[|actions|].records && states[|actions|].Free(slot)
    requires states[|actions|].records[slot].tier.Plain? && !states[|actions|].records[slot].deleting
    ensures Continues(states, actions, states', actions') && key !in states[|actions|].bindings
    ensures var r := states[|actions|].records[slot];
            states'[|actions'|].records == states[|actions|].records[slot := r.(tier := Pending(Ref(key, version)))]
    ensures Uploadable(states'[|actions'|], slot)
  {
    var s := states[|actions|];
    var w := FreshNumber(s.workers.Keys);
    key := FreshNumber(s.bindings.Keys);
    states', actions' := Extend(states, actions, Bind(w, slot, key, version));
  }

  /** From every state with a version bound, free and not being deleted the move can be brought to its end: what the key
      holds already is committed without another upload, otherwise one upload takes effect and its version is. */
  lemma MoveCompletes(states: seq<State>, actions: seq<Action>, slot: Slot, id: string)
      returns (states': seq<State>, actions': seq<Action>)
    requires Run(states, actions) && Uploadable(states[|actions|], slot)
    requires id != "" ==> Find(Stored(states[|actions|].remote, states[|actions|].records[slot].tier.ref.key), id).None?
    ensures Continues(states, actions, states', actions')
    ensures var s, r := states[|actions|], states[|actions|].records[slot];
            var found := Recover(s.remote, r.tier.ref);
            var ref := Ref(r.tier.ref.key, if found.Some? then found.value.id else id);
            && states'[|actions'|].records == s.records[slot := r.(tier := Complete(ref))]
            && states'[|actions'|].effects == s.effects + (if found.Some? then multiset{} else multiset{ref.key})
            && Stat(states'[|actions'|].remote, ref.key, ref.version).Some?
            && Stat(states'[|actions'|].remote, ref.key, ref.version).value.content == r.source.content
  {
    var s := states[|actions|];
    if Recover(s.remote, s.records[slot].tier.ref).Some? {
      states', actions' := RecoveryCompletes(states, actions, slot);
    } else {
      states', actions' := UploadCompletes(states, actions, slot, id);
    }
    CompleteIsReadable(states', actions', |actions'|, slot);
  }

  /** The rest of a deletion past its lookup, with nobody else in between. */
  lemma FinishesDeletion(states: seq<State>, actions: seq<Action>, w: Worker, before: Remote, r: Record, slot: Slot)
      returns (states': seq<State>, actions': seq<Action>)
    requires Run(states, actions) && Underway(before, r, slot, states[|actions|], w)
    ensures Continues(states, actions, states', actions')
    ensures states'[|actions'|].records == states[|actions|].records - {slot}
    ensures Removed(before, r, states'[|actions'|].remote)
    decreases var pc := states[|actions|].At(w); if pc.DelIntending? then 2 else if pc.DelRemoving? then 1 else 0
  {
    var s := states[|actions|];
    RunKeeps(states, actions, |actions|);
    assert PcOk(s, s.workers[w]) && LocksHeld(s);
    var pc := s.At(w);
    if pc.DelFinishing? {
      RemovedBy(before, r, slot, s, w);
      states', actions' := Extend(states, actions, DeleteLocal(w));
    } else {
      var a := if pc.DelIntending? then DeleteIntent(w) else DeleteRemote(w);
      Goes(before, r, slot, s, a, w);
      var next, acts := Extend(states, actions, a);
      states', actions' := FinishesDeletion(next, acts, w, before, r, slot);
      assert Fire(s, a).records - {slot} == s.records - {slot};
    }
  }

  lemma Opens(s: State, slot: Slot, w: Worker)
    requires Inv(s) && slot in s.records && s.Free(slot) && w !in s.workers
    requires var r := s.records[slot]; r.Bound() && Recover(s.remote, r.tier.ref).Some? ==>
             Matches(Recover(s.remote, r.tier.ref).value, r, r.tier.ref.key)
    ensures var s1 := Going(s, w, DelChecked(slot, s.records[slot]));
            && Leads(s, DeleteEnter(w, slot), s1) && Enabled(s1, DeleteStat(w))
            && Underway(s.remote, s.records[slot], slot, Fire(s1, DeleteStat(w)), w)
            && Fire(s1, DeleteStat(w)).records == s.records
  {
    ActionKeeps(s, DeleteEnter(w, slot));
    Begins(Going(s, w, DelChecked(slot, s.records[slot])), w);
  }

  /** From every state with a version free it can be deleted, moved or not, with what it refers to. */
  lemma DeletionCompletes(states: seq<State>, actions: seq<Action>, slot: Slot)
      returns (states': seq<State>, actions': seq<Action>)
    requires Run(states, actions) && slot in states[|actions|].records && states[|actions|].Free(slot)
    ensures Continues(states, actions, states', actions')
    ensures states'[|actions'|].records == states[|actions|].records - {slot}
    ensures Removed(states[|actions|].remote, states[|actions|].records[slot], states'[|actions'|].remote)
  {
    var s := states[|actions|];
    var r := s.records[slot];
    var w := FreshNumber(s.workers.Keys);
    if r.Bound() && Recover(s.remote, r.tier.ref).Some? { RecoveryAlwaysMatches(states, actions, |actions|, slot); }
    RunKeeps(states, actions, |actions|);
    Opens(s, slot, w);
    var s1 := Going(s, w, DelChecked(slot, r));
    var next, acts := ExtendTwice(states, actions, DeleteEnter(w, slot), s1, DeleteStat(w), Fire(s1, DeleteStat(w)));
    states', actions' := FinishesDeletion(next, acts, w, s.remote, r, slot);
  }
}
