/**
 Lifecycle transition of object versions to a remote tier: bind a fresh remote key durably,
 upload, commit the exact remote version; and the matching deletion. Workers interleave
 freely, may die or be abandoned anywhere, and an upload may take effect without its
 acknowledgement arriving, even long after its worker is gone.
 */
module Transition {
  import opened Options

  type Slot = nat      // one version of one object
  type Key = nat       // a remote key, unique by construction
  type Worker = nat

  datatype Source = Source(modTime: int, etag: string, content: string)

  /** The durable destination. The version is empty when the remote bucket keeps none. */
  datatype Ref = Ref(key: Key, version: string)

  datatype Tier = Plain | Pending(ref: Ref) | Complete(ref: Ref)

  /** The persisted record of a source version; `deleting` is the durable deletion intent. */
  datatype Record = Record(source: Source, tier: Tier, deleting: bool) {
    predicate Bound() { !tier.Plain? }
  }

  datatype Version = Version(id: string, content: string, marker: Key)

  /** The versions stored under each remote key, newest last. */
  type Remote = map<Key, seq<Version>>

  /** A PUT on the wire; `landed` carries the version the remote gave it. */
  datatype Upload = Upload(key: Key, content: string, marker: Key, landed: Option<string>)

  /** Where a worker stands. Every form but the first two holds the lock of its slot. */
  datatype Pc =
    | Idle
    | Prepared(slot: Slot, seen: Record)
    | Checked(slot: Slot, oi: Record)
    | Sending(slot: Slot, oi: Record)
    | Waiting(slot: Slot, oi: Record, upload: nat)
    | Ready(slot: Slot, oi: Record, ref: Ref)
    | DelChecked(slot: Slot, oi: Record)
    | DelIntending(slot: Slot, oi: Record, ref: Ref)
    | DelRemoving(slot: Slot, oi: Record, ref: Ref)
    | DelFinishing(slot: Slot, oi: Record)
  {
    predicate Holds() { !Idle? && !Prepared? }
  }

  datatype State = State(
    records: map<Slot, Record>,
    remote: Remote,
    uploads: map<nat, Upload>,
    workers: map<Worker, Pc>,
    /** History: the version each key was bound for, and the keys of all uploads that took effect. */
    bindings: map<Key, (Slot, Source)>,
    effects: multiset<Key>)
  {
    function At(w: Worker): Pc { if w in workers then workers[w] else Idle }

    predicate Free(slot: Slot) { forall w :: w in workers ==> !(workers[w].Holds() && workers[w].slot == slot) }
  }

  const INIT := State(map[], map[], map[], map[], map[], multiset{})

  // ---- The remote store ----

  function Stored(remote: Remote, key: Key): seq<Version> {
    if key in remote then remote[key] else []
  }

  function Find(versions: seq<Version>, id: string): Option<Version> {
    if versions == [] then None
    else if versions[|versions| - 1].id == id then Some(versions[|versions| - 1])
    else Find(versions[..|versions| - 1], id)
  }

  /** Stat of one version, or of the newest when none is named. */
  function Stat(remote: Remote, key: Key, version: string): Option<Version> {
    var versions := Stored(remote, key);
    if version != "" then Find(versions, version)
    else if versions == [] then None else Some(versions[|versions| - 1])
  }

  /** The lookup of a retry: the version asked for, else whatever the unique key holds. */
  function Recover(remote: Remote, ref: Ref): Option<Version> {
    var exact := Stat(remote, ref.key, ref.version);
    if exact.None? && ref.version != "" then Stat(remote, ref.key, "") else exact
  }

  function Drop(versions: seq<Version>, id: string): (r: seq<Version>)
    ensures forall v :: v in r ==> v in versions
  {
    if versions == [] then []
    else
      var rest := Drop(versions[..|versions| - 1], id);
      if versions[|versions| - 1].id == id then rest else rest + [versions[|versions| - 1]]
  }

  /** An unversioned write replaces what the key held without a version; a versioned one adds. */
  function Put(remote: Remote, up: Upload, id: string): Remote {
    var v := Version(id, up.content, up.marker);
    var kept := if id == "" then Drop(Stored(remote, up.key), "") else Stored(remote, up.key);
    remote[up.key := kept + [v]]
  }

  // ---- Actions ----

  datatype Action =
    | Create(slot: Slot, source: Source)
    | Prepare(w: Worker, slot: Slot)
    | Bind(w: Worker, slot: Slot, key: Key, version: string)
    | Enter(w: Worker)
    | StatFound(w: Worker)
    | StatMissing(w: Worker)
    | StatStale(w: Worker)      // the remote reports a stored object as missing
    | Send(w: Worker, upload: nat)
    | Land(upload: nat, id: string)
    | Acknowledge(w: Worker)
    | Commit(w: Worker)
    | DeleteEnter(w: Worker, slot: Slot)
    | DeleteStat(w: Worker)
    | DeleteIntent(w: Worker)
    | DeleteRemote(w: Worker)
    | DeleteLocal(w: Worker)
    | Abandon(w: Worker)        // an error return, a lost acknowledgement or a crash

  predicate SameSource(a: Source, b: Source) {
    a.modTime == b.modTime && a.etag == b.etag && |a.content| == |b.content|
  }

  /** What the second locked section demands of the record it finds. */
  predicate StillValid(now: Record, seen: Record) {
    && SameSource(now.source, seen.source) && !now.deleting
    && now.tier.Pending? && seen.tier.Pending? && now.tier.ref == seen.tier.ref
  }

  predicate Matches(v: Version, oi: Record, key: Key) {
    |v.content| == |oi.source.content| && v.marker == key
  }

  predicate Enabled(s: State, a: Action) {
    match a
    case Create(slot, _) => s.Free(slot) && (slot in s.records ==> s.records[slot].tier.Plain?)
    case Prepare(w, slot) =>
      s.At(w).Idle? && s.Free(slot) && slot in s.records && s.records[slot].Bound() && !s.records[slot].deleting
    case Bind(w, slot, key, _) =>
      s.At(w).Idle? && s.Free(slot) && slot in s.records && !s.records[slot].Bound() && !s.records[slot].deleting
      && key !in s.bindings
    case Enter(w) =>
      s.At(w).Prepared? && s.Free(s.At(w).slot) && s.At(w).slot in s.records
      && StillValid(s.records[s.At(w).slot], s.At(w).seen)
    case StatFound(w) =>
      s.At(w).Checked? && s.At(w).oi.Bound() && Recover(s.remote, s.At(w).oi.tier.ref).Some?
      && Matches(Recover(s.remote, s.At(w).oi.tier.ref).value, s.At(w).oi, s.At(w).oi.tier.ref.key)
    case StatMissing(w) => s.At(w).Checked? && s.At(w).oi.Bound() && Recover(s.remote, s.At(w).oi.tier.ref).None?
    case StatStale(w) => s.At(w).Checked? && s.At(w).oi.Bound()
    case Send(w, u) => s.At(w).Sending? && s.At(w).oi.Bound() && u !in s.uploads
    case Land(u, id) =>
      u in s.uploads && s.uploads[u].landed.None?
      && (id != "" ==> Find(Stored(s.remote, s.uploads[u].key), id).None?)
    case Acknowledge(w) =>
      s.At(w).Waiting? && s.At(w).oi.Bound() && s.At(w).upload in s.uploads && s.uploads[s.At(w).upload].landed.Some?
    case Commit(w) =>
      s.At(w).Ready? && s.At(w).slot in s.records && SameSource(s.records[s.At(w).slot].source, s.At(w).oi.source)
    case DeleteEnter(w, slot) => s.At(w).Idle? && s.Free(slot) && slot in s.records
    case DeleteStat(w) =>
      && s.At(w).DelChecked?
      && (s.At(w).oi.tier.Pending? && Recover(s.remote, s.At(w).oi.tier.ref).Some? ==>
          Matches(Recover(s.remote, s.At(w).oi.tier.ref).value, s.At(w).oi, s.At(w).oi.tier.ref.key))
    case DeleteIntent(w) => s.At(w).DelIntending? && s.At(w).oi.Bound()
    case DeleteRemote(w) => s.At(w).DelRemoving?
    case DeleteLocal(w) => s.At(w).DelFinishing?
    case Abandon(w) => w in s.workers
  }

  function Move(s: State, w: Worker, pc: Pc): State {
    s.(workers := s.workers[w := pc])
  }

  /** The outcome of the lookup that opens a deletion. */
  function DeletePlan(s: State, slot: Slot, oi: Record): Pc {
    match oi.tier
    case Plain => DelFinishing(slot, oi)
    case Complete(ref) => if oi.deleting then DelRemoving(slot, oi, ref) else DelIntending(slot, oi, ref)
    case Pending(ref) =>
      var found := Recover(s.remote, ref);
      if found.None? then DelFinishing(slot, oi)
      else if oi.deleting then DelRemoving(slot, oi, ref.(version := found.value.id))
      else DelIntending(slot, oi, ref.(version := found.value.id))
  }

  function Fire(s: State, a: Action): State
    requires Enabled(s, a)
  {
    match a
    case Create(slot, source) => s.(records := s.records[slot := Record(source, Plain, false)])
    case Prepare(w, slot) => Move(s, w, Prepared(slot, s.records[slot]))
    case Bind(w, slot, key, version) =>
      var r := s.records[slot].(tier := Pending(Ref(key, version)));
      Move(s.(records := s.records[slot := r], bindings := s.bindings[key := (slot, r.source)]), w, Prepared(slot, r))
    case Enter(w) => Move(s, w, Checked(s.At(w).slot, s.records[s.At(w).slot]))
    case StatFound(w) =>
      var ref := s.At(w).oi.tier.ref;
      Move(s, w, Ready(s.At(w).slot, s.At(w).oi, ref.(version := Recover(s.remote, ref).value.id)))
    case StatMissing(w) => Move(s, w, Sending(s.At(w).slot, s.At(w).oi))
    case StatStale(w) => Move(s, w, Sending(s.At(w).slot, s.At(w).oi))
    case Send(w, u) =>
      var oi := s.At(w).oi;
      Move(s.(uploads := s.uploads[u := Upload(oi.tier.ref.key, oi.source.content, oi.tier.ref.key, None)]),
           w, Waiting(s.At(w).slot, oi, u))
    case Land(u, id) =>
      var up := s.uploads[u];
      s.(remote := Put(s.remote, up, id), uploads := s.uploads[u := up.(landed := Some(id))],
         effects := s.effects + multiset{up.key})
    case Acknowledge(w) =>
      var pc := s.At(w);
      Move(s, w, Ready(pc.slot, pc.oi, pc.oi.tier.ref.(version := s.uploads[pc.upload].landed.value)))
    case Commit(w) =>
      var pc := s.At(w);
      Move(s.(records := s.records[pc.slot := s.records[pc.slot].(tier := Complete(pc.ref))]), w, Idle)
    case DeleteEnter(w, slot) => Move(s, w, DelChecked(slot, s.records[slot]))
    case DeleteStat(w) => Move(s, w, DeletePlan(s, s.At(w).slot, s.At(w).oi))
    case DeleteIntent(w) =>
      var pc := s.At(w);
      var r := pc.oi.(deleting := true, tier := if pc.oi.tier.Pending? then Pending(pc.ref) else Complete(pc.ref));
      Move(s.(records := s.records[pc.slot := r]), w, DelRemoving(pc.slot, r, pc.ref))
    case DeleteRemote(w) =>
      var pc := s.At(w);
      Move(s.(remote := s.remote[pc.ref.key := Drop(Stored(s.remote, pc.ref.key), pc.ref.version)]),
           w, DelFinishing(pc.slot, pc.oi))
    case DeleteLocal(w) => Move(s.(records := s.records - {s.At(w).slot}), w, Idle)
    case Abandon(w) => Move(s, w, Idle)
  }

  ghost predicate Run(states: seq<State>, actions: seq<Action>) {
    && |states| == |actions| + 1 && states[0] == INIT
    && forall i :: 0 <= i < |actions| ==> Enabled(states[i], actions[i]) && states[i + 1] == Fire(states[i], actions[i])
  }

  // ---- The invariant ----

  /** A remote object or upload under a key carries the content and the marker the key was bound for. */
  ghost predicate Genuine(s: State, key: Key, content: string, marker: Key) {
    key in s.bindings && content == s.bindings[key].1.content && marker == key
  }

  ghost predicate RemoteGenuine(s: State) {
    forall key, v :: v in Stored(s.remote, key) ==> Genuine(s, key, v.content, v.marker)
  }

  ghost predicate UploadsGenuine(s: State) {
    forall u :: u in s.uploads ==> Genuine(s, s.uploads[u].key, s.uploads[u].content, s.uploads[u].marker)
  }

  /** Each bound key belongs to the one version it was bound for. */
  ghost predicate RefsBound(s: State) {
    forall slot :: slot in s.records && s.records[slot].Bound() ==>
      var key := s.records[slot].tier.ref.key;
      key in s.bindings && s.bindings[key] == (slot, s.records[slot].source)
  }

  ghost predicate CompleteStored(s: State) {
    forall slot :: slot in s.records && s.records[slot].tier.Complete? && !s.records[slot].deleting ==>
      Stat(s.remote, s.records[slot].tier.ref.key, s.records[slot].tier.ref.version).Some?
  }

  /** At most one worker holds a slot, and what it read under the lock is still what is stored. */
  ghost predicate LocksHeld(s: State) {
    forall w :: w in s.workers && s.workers[w].Holds() ==>
      var pc := s.workers[w];
      && pc.slot in s.records && s.records[pc.slot] == pc.oi
      && forall w' :: w' in s.workers && s.workers[w'].Holds() && s.workers[w'].slot == pc.slot ==> w' == w
  }

  ghost predicate PcOk(s: State, pc: Pc) {
    match pc
    case Checked(_, oi) => oi.tier.Pending? && !oi.deleting
    case Sending(_, oi) => oi.tier.Pending? && !oi.deleting
    case Waiting(_, oi, u) =>
      && oi.tier.Pending? && !oi.deleting && u in s.uploads && s.uploads[u].key == oi.tier.ref.key
      && (s.uploads[u].landed.Some? ==> Stat(s.remote, oi.tier.ref.key, s.uploads[u].landed.value).Some?)
    case Ready(_, oi, ref) =>
      oi.tier.Pending? && !oi.deleting && ref.key == oi.tier.ref.key && Stat(s.remote, ref.key, ref.version).Some?
    case DelIntending(_, oi, ref) =>
      oi.Bound() && ref.key == oi.tier.ref.key && (oi.tier.Complete? ==> ref == oi.tier.ref)
    case DelRemoving(_, oi, ref) => oi.Bound() && oi.deleting && ref.key == oi.tier.ref.key
    case _ => true
  }

  ghost predicate WorkersOk(s: State) {
    forall w :: w in s.workers ==> PcOk(s, s.workers[w])
  }

  ghost predicate Inv(s: State) {
    && RemoteGenuine(s) && UploadsGenuine(s) && RefsBound(s) && CompleteStored(s) && LocksHeld(s) && WorkersOk(s)
  }

  // ---- Lookup lemmas ----

  lemma {:induction false} FindIn(versions: seq<Version>, id: string)
    ensures Find(versions, id).Some? <==> exists v :: v in versions && v.id == id
    ensures Find(versions, id).Some? ==> Find(versions, id).value in versions && Find(versions, id).value.id == id
  {
    if versions != [] {
      var init, last := versions[..|versions| - 1], versions[|versions| - 1];
      FindIn(init, id);
      assert versions == init + [last];
    }
  }

  lemma {:induction false} DropKeeps(versions: seq<Version>, id: string, v: Version)
    requires v in versions && v.id != id
    ensures v in Drop(versions, id)
  {
    var init, last := versions[..|versions| - 1], versions[|versions| - 1];
    assert versions == init + [last];
    if v != last { DropKeeps(init, id, v); }
  }

  lemma StatStored(remote: Remote, key: Key, version: string)
    ensures Stat(remote, key, version).Some? ==> Stat(remote, key, version).value in Stored(remote, key)
    ensures version != "" && Stat(remote, key, version).Some? ==> Stat(remote, key, version).value.id == version
  {
    FindIn(Stored(remote, key), version);
  }

  /** What the recovery lookup finds can be looked up again under the version it reports. */
  lemma RecoverStat(remote: Remote, ref: Ref)
    requires Recover(remote, ref).Some?
    ensures Recover(remote, ref).value in Stored(remote, ref.key)
    ensures Stat(remote, ref.key, Recover(remote, ref).value.id).Some?
  {
    StatStored(remote, ref.key, ref.version);
    StatStored(remote, ref.key, "");
    FindIn(Stored(remote, ref.key), Recover(remote, ref).value.id);
  }

  /** A write never hides what could be looked up, and can be looked up itself. */
  lemma PutKeepsStat(remote: Remote, up: Upload, id: string, key: Key, version: string)
    ensures Stat(remote, key, version).Some? ==> Stat(Put(remote, up, id), key, version).Some?
    ensures Stat(Put(remote, up, id), up.key, id).Some?
  {
    var remote' := Put(remote, up, id);
    var v := Version(id, up.content, up.marker);
    assert v in Stored(remote', up.key);
    FindIn(Stored(remote', up.key), id);
    if key == up.key && version != "" && Stat(remote, key, version).Some? {
      FindIn(Stored(remote, key), version);
      var was := Find(Stored(remote, key), version).value;
      if id == "" { DropKeeps(Stored(remote, key), "", was); }
      assert was in Stored(remote', key);
      FindIn(Stored(remote', key), version);
    }
  }

  // ---- Every action keeps the invariant ----

  /** Moving one worker: only what its new position claims has to be shown. */
  lemma MoveKeeps(s: State, w: Worker, pc: Pc)
    requires Inv(s) && PcOk(s, pc)
    requires pc.Holds() ==>
             && pc.slot in s.records && s.records[pc.slot] == pc.oi
             && ((s.At(w).Holds() && s.At(w).slot == pc.slot) || s.Free(pc.slot))
    ensures Inv(Move(s, w, pc))
  {}

  lemma CreateKeeps(s: State, slot: Slot, source: Source)
    requires Inv(s) && Enabled(s, Create(slot, source))
    ensures Inv(Fire(s, Create(slot, source)))
  {}

  lemma BindKeeps(s: State, w: Worker, slot: Slot, key: Key, version: string)
    requires Inv(s) && Enabled(s, Bind(w, slot, key, version))
    ensures Inv(Fire(s, Bind(w, slot, key, version)))
  {}

  lemma SendKeeps(s: State, w: Worker, u: nat)
    requires Inv(s) && Enabled(s, Send(w, u))
    ensures Inv(Fire(s, Send(w, u)))
  {}

  lemma LandRemote(s: State, u: nat, id: string)
    requires Inv(s) && Enabled(s, Land(u, id))
    ensures RemoteGenuine(Fire(s, Land(u, id))) && UploadsGenuine(Fire(s, Land(u, id)))
  {
    var t, up := Fire(s, Land(u, id)), s.uploads[u];
    assert Genuine(s, up.key, up.content, up.marker);
    forall k, v | v in Stored(t.remote, k) ensures Genuine(t, k, v.content, v.marker) {
      assert v in Stored(s.remote, k) ==> Genuine(s, k, v.content, v.marker);
    }
    forall x | x in t.uploads ensures Genuine(t, t.uploads[x].key, t.uploads[x].content, t.uploads[x].marker) {
      assert Genuine(s, s.uploads[x].key, s.uploads[x].content, s.uploads[x].marker);
    }
  }

  lemma LandKeeps(s: State, u: nat, id: string)
    requires Inv(s) && Enabled(s, Land(u, id))
    ensures Inv(Fire(s, Land(u, id)))
  {
    var t, up := Fire(s, Land(u, id)), s.uploads[u];
    LandRemote(s, u, id);
    forall x | x in t.workers ensures PcOk(t, t.workers[x]) {
      var pc := s.workers[x];
      assert PcOk(s, pc);
      if pc.Waiting? {
        PutKeepsStat(s.remote, up, id, pc.oi.tier.ref.key, t.uploads[pc.upload].landed.GetOr(""));
      } else if pc.Ready? {
        PutKeepsStat(s.remote, up, id, pc.ref.key, pc.ref.version);
      }
    }
    forall slot | slot in t.records && t.records[slot].tier.Complete? && !t.records[slot].deleting
      ensures Stat(t.remote, t.records[slot].tier.ref.key, t.records[slot].tier.ref.version).Some?
    {
      PutKeepsStat(s.remote, up, id, t.records[slot].tier.ref.key, t.records[slot].tier.ref.version);
    }
    assert LocksHeld(t) by { assert LocksHeld(s); }
    assert RefsBound(t);
  }

  lemma CommitKeeps(s: State, w: Worker)
    requires Inv(s) && Enabled(s, Commit(w))
    ensures Inv(Fire(s, Commit(w)))
  {}

  lemma IntentKeeps(s: State, w: Worker)
    requires Inv(s) && Enabled(s, DeleteIntent(w))
    ensures Inv(Fire(s, DeleteIntent(w)))
  {}

  /** No other holder and no committed version can depend on the key a deletion removes from. */
  lemma OtherKeys(s: State, w: Worker, slot: Slot)
    requires Inv(s) && w in s.workers && s.workers[w].Holds() && s.workers[w].oi.Bound()
    requires slot in s.records && s.records[slot].Bound() && slot != s.workers[w].slot
    ensures s.records[slot].tier.ref.key != s.workers[w].oi.tier.ref.key
  {}

  lemma RemoveKeeps(s: State, w: Worker)
    requires Inv(s) && Enabled(s, DeleteRemote(w))
    ensures Inv(Fire(s, DeleteRemote(w)))
  {
    var t, pc := Fire(s, DeleteRemote(w)), s.workers[w];
    assert PcOk(s, pc);
    assert s.records[pc.slot] == pc.oi by { assert LocksHeld(s); }
    forall x | x in t.workers ensures PcOk(t, t.workers[x]) {
      var other := s.workers[x];
      assert PcOk(s, other);
      if x != w && (other.Waiting? || other.Ready?) {
        assert other.slot != pc.slot by { assert LocksHeld(s); }
        assert s.records[other.slot] == other.oi by { assert LocksHeld(s); }
        OtherKeys(s, w, other.slot);
      }
    }
    forall slot | slot in t.records && t.records[slot].tier.Complete? && !t.records[slot].deleting
      ensures Stat(t.remote, t.records[slot].tier.ref.key, t.records[slot].tier.ref.version).Some?
    {
      assert slot != pc.slot;
      OtherKeys(s, w, slot);
    }
    assert LocksHeld(t) by { assert LocksHeld(s); }
    forall k, v | v in Stored(t.remote, k) ensures Genuine(t, k, v.content, v.marker) {
      assert v in Stored(s.remote, k) && Genuine(s, k, v.content, v.marker);
    }
    assert UploadsGenuine(t) && RefsBound(t);
  }

  lemma LocalKeeps(s: State, w: Worker)
    requires Inv(s) && Enabled(s, DeleteLocal(w))
    ensures Inv(Fire(s, DeleteLocal(w)))
  {}

  lemma WorkerActionKeeps(s: State, a: Action)
    requires Inv(s) && Enabled(s, a)
    requires a.Prepare? || a.Enter? || a.StatFound? || a.StatMissing? || a.StatStale? || a.Acknowledge?
             || a.DeleteEnter? || a.DeleteStat? || a.Abandon?
    ensures Inv(Fire(s, a))
  {
    var w := a.w;
    var pc := s.At(w);
    assert PcOk(s, pc);
    assert LocksHeld(s);
    match a
    case Prepare(_, slot) => MoveKeeps(s, w, Prepared(slot, s.records[slot]));
    case Enter(_) => MoveKeeps(s, w, Checked(pc.slot, s.records[pc.slot]));
    case StatFound(_) =>
      RecoverStat(s.remote, pc.oi.tier.ref);
      MoveKeeps(s, w, Ready(pc.slot, pc.oi, pc.oi.tier.ref.(version := Recover(s.remote, pc.oi.tier.ref).value.id)));
    case StatMissing(_) => MoveKeeps(s, w, Sending(pc.slot, pc.oi));
    case StatStale(_) => MoveKeeps(s, w, Sending(pc.slot, pc.oi));
    case Acknowledge(_) =>
      MoveKeeps(s, w, Ready(pc.slot, pc.oi, pc.oi.tier.ref.(version := s.uploads[pc.upload].landed.value)));
    case DeleteEnter(_, slot) => MoveKeeps(s, w, DelChecked(slot, s.records[slot]));
    case DeleteStat(_) => MoveKeeps(s, w, DeletePlan(s, pc.slot, pc.oi));
    case Abandon(_) => MoveKeeps(s, w, Idle);
  }

  lemma ActionKeeps(s: State, a: Action)
    requires Inv(s) && Enabled(s, a)
    ensures Inv(Fire(s, a))
  {
    match a
    case Create(slot, source) => CreateKeeps(s, slot, source);
    case Bind(w, slot, key, version) => BindKeeps(s, w, slot, key, version);
    case Send(w, u) => SendKeeps(s, w, u);
    case Land(u, id) => LandKeeps(s, u, id);
    case Commit(w) => CommitKeeps(s, w);
    case DeleteIntent(w) => IntentKeeps(s, w);
    case DeleteRemote(w) => RemoveKeeps(s, w);
    case DeleteLocal(w) => LocalKeeps(s, w);
    case _ => WorkerActionKeeps(s, a);
  }

  lemma StepOf(states: seq<State>, actions: seq<Action>, i: nat)
    requires Run(states, actions) && 0 < i < |states|
    ensures Enabled(states[i - 1], actions[i - 1]) && states[i] == Fire(states[i - 1], actions[i - 1])
  {
    assert states[i - 1 + 1] == states[i];
  }

  lemma {:induction false} RunKeeps(states: seq<State>, actions: seq<Action>, i: nat)
    requires Run(states, actions) && i < |states|
    ensures Inv(states[i])
  {
    if i > 0 {
      RunKeeps(states, actions, i - 1);
      ActionKeeps(states[i - 1], actions[i - 1]);
    }
  }

  /** Main result: in every run, with any crashes, retries, stale stats, lost acknowledgements and late
      uploads, a version marked complete can be read back: looking up its reference finds a remote
      object with the version's content and the bound key as identity marker. */
  lemma CompleteIsReadable(states: seq<State>, actions: seq<Action>, i: nat, slot: Slot)
    requires Run(states, actions) && i < |states| && slot in states[i].records
    requires states[i].records[slot].tier.Complete? && !states[i].records[slot].deleting
    ensures var r := states[i].records[slot];
            var found := Stat(states[i].remote, r.tier.ref.key, r.tier.ref.version);
            && found.Some? && found.value.content == r.source.content && found.value.marker == r.tier.ref.key
            && (r.tier.ref.version != "" ==> found.value.id == r.tier.ref.version)
  {
    RunKeeps(states, actions, i);
    var s, r := states[i], states[i].records[slot];
    StatStored(s.remote, r.tier.ref.key, r.tier.ref.version);
    var v := Stat(s.remote, r.tier.ref.key, r.tier.ref.version).value;
    assert Genuine(s, r.tier.ref.key, v.content, v.marker);
    assert RefsBound(s);
  }

  /** The identity check of a retry never fails: whatever the key holds is the right object. */
  lemma RecoveryAlwaysMatches(states: seq<State>, actions: seq<Action>, i: nat, slot: Slot)
    requires Run(states, actions) && i < |states| && slot in states[i].records && states[i].records[slot].Bound()
    requires Recover(states[i].remote, states[i].records[slot].tier.ref).Some?
    ensures var r := states[i].records[slot];
            Matches(Recover(states[i].remote, r.tier.ref).value, r, r.tier.ref.key)
  {
    RunKeeps(states, actions, i);
    var s, r := states[i], states[i].records[slot];
    RecoverStat(s.remote, r.tier.ref);
    var v := Recover(s.remote, r.tier.ref).value;
    assert Genuine(s, r.tier.ref.key, v.content, v.marker);
    assert RefsBound(s);
  }

  // ---- The key of a version ----

  /** Between two records of one version. */
  ghost predicate SameKey(r: Record, r': Record) {
    r.Bound() ==>
      r'.Bound() && r'.tier.ref.key == r.tier.ref.key && r'.source == r.source
        && (r.tier.Complete? ==> r'.tier == r.tier)
  }

  /** A holder changes only the record it has read. */
  lemma HolderKeepsKey(s: State, w: Worker, slot: Slot, r: Record)
    requires Inv(s) && w in s.workers && s.workers[w].Holds() && slot in s.records
    requires s.workers[w].slot == slot ==> SameKey(s.workers[w].oi, r)
    ensures s.workers[w].slot == slot ==> SameKey(s.records[slot], r)
  {
    assert LocksHeld(s);
  }

  ghost predicate RecordedThroughout(states: seq<State>, slot: Slot, i: nat, j: nat)
    requires i <= j < |states|
  {
    forall k :: i <= k <= j ==> slot in states[k].records
  }

  lemma KeyIsKeptAt(states: seq<State>, actions: seq<Action>, i: nat, slot: Slot)
    requires Run(states, actions) && 0 < i < |states| && slot in states[i - 1].records && slot in states[i].records
    ensures SameKey(states[i - 1].records[slot], states[i].records[slot])
  {
    RunKeeps(states, actions, i - 1);
    StepOf(states, actions, i);
    var s, t := states[i - 1], states[i];
    match actions[i - 1]
    case Commit(w) =>
      assert PcOk(s, s.workers[w]);
      HolderKeepsKey(s, w, slot, t.records[slot]);
    case DeleteIntent(w) =>
      assert PcOk(s, s.workers[w]);
      HolderKeepsKey(s, w, slot, t.records[slot]);
    case Create(_, _) =>
    case Bind(_, _, _, _) =>
    case _ => assert t.records[slot] == s.records[slot];
  }

  lemma {:induction false} KeyChain(states: seq<State>, slot: Slot, i: nat, j: nat)
    requires i <= j < |states| && RecordedThroughout(states, slot, i, j)
    requires forall k, l :: i <= k < l <= j && l == k + 1 ==> SameKey(states[k].records[slot], states[l].records[slot])
    ensures SameKey(states[i].records[slot], states[j].records[slot])
    decreases j
  {
    if i < j {
      KeyChain(states, slot, i, j - 1);
      assert SameKey(states[j - 1].records[slot], states[j].records[slot]);
    }
  }

  /** Once bound, a version keeps its key, and once complete its reference, for as long as it exists. */
  lemma KeyIsKept(states: seq<State>, actions: seq<Action>, i: nat, j: nat, slot: Slot)
    requires Run(states, actions) && i <= j < |states| && RecordedThroughout(states, slot, i, j)
    ensures SameKey(states[i].records[slot], states[j].records[slot])
  {
    forall k, l | i <= k < l <= j && l == k + 1 ensures SameKey(states[k].records[slot], states[l].records[slot]) {
      KeyIsKeptAt(states, actions, l, slot);
    }
    KeyChain(states, slot, i, j);
  }

  /** Every upload sent for a version after its key was bound carries that key and the version's content. */
  lemma SendsReuseKey(states: seq<State>, actions: seq<Action>, i: nat, m: nat, slot: Slot)
    requires Run(states, actions) && i <= m < |actions| && RecordedThroughout(states, slot, i, m)
    requires states[i].records[slot].Bound()
    requires actions[m].Send? && states[m].At(actions[m].w).slot == slot
    ensures actions[m].upload in states[m + 1].uploads
    ensures var up, r := states[m + 1].uploads[actions[m].upload], states[i].records[slot];
            up.key == r.tier.ref.key && up.marker == r.tier.ref.key && up.content == r.source.content
  {
    KeyIsKept(states, actions, i, m, slot);
    RunKeeps(states, actions, m);
    assert Enabled(states[m], actions[m]) && states[m + 1] == Fire(states[m], actions[m]);
    assert LocksHeld(states[m]);
  }

  // ---- How many uploads take effect ----

  predicate Awaited(s: State, u: nat) {
    exists w :: w in s.workers && s.workers[w].Waiting? && s.workers[w].upload == u
  }

  /** An upload to the key takes effect when no worker waits for it any more. */
  predicate Late(s: State, a: Action, key: Key) {
    a.Land? && a.upload in s.uploads && s.uploads[a.upload].key == key && !Awaited(s, a.upload)
  }

  /** The remote reports the key as missing without being asked to look. */
  predicate Stale(s: State, a: Action, key: Key) {
    a.StatStale? && s.At(a.w).Checked? && s.At(a.w).oi.Bound() && s.At(a.w).oi.tier.ref.key == key
  }

  predicate Disturbs(s: State, a: Action, key: Key) { Late(s, a, key) || Stale(s, a, key) }

  /** How often late uploads and stale stats hit the key in the first `i` actions of a run. */
  function Disturbances(states: seq<State>, actions: seq<Action>, key: Key, i: nat): nat
    requires i <= |actions| < |states|
  {
    if i == 0 then 0
    else Disturbances(states, actions, key, i - 1) + if Disturbs(states[i - 1], actions[i - 1], key) then 1 else 0
  }

  /** A worker is about to upload to the key, or waits for an upload that has not landed. */
  predicate InFlight(s: State, w: Worker, key: Key) {
    && w in s.workers && (s.workers[w].Sending? || s.workers[w].Waiting?)
    && s.workers[w].oi.Bound() && s.workers[w].oi.tier.ref.key == key
    && (s.workers[w].Waiting? ==> s.workers[w].upload in s.uploads && s.uploads[s.workers[w].upload].landed.None?)
  }

  ghost predicate Busy(s: State, key: Key) { exists w :: InFlight(s, w, key) }

  ghost function Owed(s: State, key: Key): nat { if Busy(s, key) then 1 else 0 }

  /** What holds of one key after `n` disturbances of it. */
  ghost predicate Tidy(s: State, key: Key, n: nat) {
    && s.effects[key] + Owed(s, key) <= 1 + n
    && (s.effects[key] > 0 ==> key in s.bindings)
    && (Stored(s.remote, key) != [] ==> s.effects[key] > 0)
    && (forall slot :: slot in s.records && s.records[slot].Bound() && !s.records[slot].deleting
                       && s.records[slot].tier.ref.key == key && s.effects[key] > 0 ==>
          Stored(s.remote, key) != [])
  }

  /** The lock of the slot makes the worker in flight unique. */
  lemma OneInFlight(s: State, w: Worker, x: Worker, key: Key)
    requires Inv(s) && InFlight(s, x, key)
    requires w in s.workers && s.workers[w].Holds() && s.workers[w].oi.Bound() && s.workers[w].oi.tier.ref.key == key
    ensures x == w
  {
    assert LocksHeld(s) && RefsBound(s);
    assert s.records[s.workers[x].slot] == s.workers[x].oi && s.records[s.workers[w].slot] == s.workers[w].oi;
  }

  lemma MissingIsEmpty(s: State, ref: Ref)
    requires Recover(s.remote, ref).None?
    ensures Stored(s.remote, ref.key) == []
  {}

  predicate Quiet(a: Action) { !a.Land? && !a.DeleteRemote? && !a.StatMissing? && !a.StatStale? }

  lemma QuietOwed(s: State, a: Action, key: Key)
    requires Inv(s) && Enabled(s, a) && Quiet(a)
    ensures Busy(Fire(s, a), key) ==> Busy(s, key)
  {
    var t := Fire(s, a);
    if x :| InFlight(t, x, key) { assert InFlight(s, x, key); }
  }

  lemma QuietTidy(s: State, a: Action, key: Key, n: nat)
    requires Inv(s) && Tidy(s, key, n) && Enabled(s, a) && Quiet(a)
    ensures Tidy(Fire(s, a), key, n)
  {
    QuietOwed(s, a, key);
    var t := Fire(s, a);
    assert t.effects == s.effects && t.remote == s.remote;
    assert LocksHeld(s) && RefsBound(s);
    if !a.Create? && a.w in s.workers { assert PcOk(s, s.workers[a.w]); }
  }

  /** A worker that starts to upload to the key: nobody else was in flight. */
  lemma StartOwed(s: State, w: Worker, key: Key)
    requires Inv(s) && w in s.workers && s.workers[w].Checked? && s.workers[w].oi.Bound()
    ensures var t := Move(s, w, Sending(s.workers[w].slot, s.workers[w].oi));
            if s.workers[w].oi.tier.ref.key == key then !Busy(s, key) else Busy(t, key) ==> Busy(s, key)
  {
    var t := Move(s, w, Sending(s.workers[w].slot, s.workers[w].oi));
    if s.workers[w].oi.tier.ref.key == key {
      forall x ensures !InFlight(s, x, key) { if InFlight(s, x, key) { OneInFlight(s, w, x, key); } }
    } else if x :| InFlight(t, x, key) {
      assert InFlight(s, x, key);
    }
  }

  lemma MissingTidy(s: State, w: Worker, key: Key, n: nat)
    requires Inv(s) && Tidy(s, key, n) && Enabled(s, StatMissing(w))
    ensures Tidy(Fire(s, StatMissing(w)), key, n)
  {
    var pc := s.workers[w];
    MissingIsEmpty(s, pc.oi.tier.ref);
    assert PcOk(s, pc) && LocksHeld(s);
    StartOwed(s, w, key);
  }

  lemma StaleTidy(s: State, w: Worker, key: Key, n: nat)
    requires Inv(s) && Tidy(s, key, n) && Enabled(s, StatStale(w))
    ensures Tidy(Fire(s, StatStale(w)), key, if Stale(s, StatStale(w), key) then n + 1 else n)
  {
    StartOwed(s, w, key);
  }

  lemma RemoveTidy(s: State, w: Worker, key: Key, n: nat)
    requires Inv(s) && Tidy(s, key, n) && Enabled(s, DeleteRemote(w))
    ensures Tidy(Fire(s, DeleteRemote(w)), key, n)
  {
    var t, pc := Fire(s, DeleteRemote(w)), s.workers[w];
    assert PcOk(s, pc) && LocksHeld(s) && RefsBound(s);
    if x :| InFlight(t, x, key) { assert InFlight(s, x, key); }
  }

  lemma LandFlight(s: State, u: nat, id: string, x: Worker, key: Key)
    requires Enabled(s, Land(u, id))
    ensures InFlight(Fire(s, Land(u, id)), x, key)
       <==> InFlight(s, x, key) && !(s.workers[x].Waiting? && s.workers[x].upload == u)
  {}

  lemma LandOwed(s: State, u: nat, id: string, key: Key)
    requires Inv(s) && Enabled(s, Land(u, id))
    ensures Busy(Fire(s, Land(u, id)), key) ==> Busy(s, key)
    ensures s.uploads[u].key == key && Awaited(s, u) ==> Busy(s, key) && !Busy(Fire(s, Land(u, id)), key)
  {
    forall x ensures InFlight(Fire(s, Land(u, id)), x, key)
                <==> InFlight(s, x, key) && !(s.workers[x].Waiting? && s.workers[x].upload == u)
    {
      LandFlight(s, u, id, x, key);
    }
    if s.uploads[u].key == key && Awaited(s, u) {
      var w :| w in s.workers && s.workers[w].Waiting? && s.workers[w].upload == u;
      assert PcOk(s, s.workers[w]);
      assert InFlight(s, w, key);
      forall x | InFlight(s, x, key) ensures x == w { OneInFlight(s, w, x, key); }
    }
  }

  lemma LandTidy(s: State, u: nat, id: string, key: Key, n: nat)
    requires Inv(s) && Tidy(s, key, n) && Enabled(s, Land(u, id))
    ensures Tidy(Fire(s, Land(u, id)), key, if Late(s, Land(u, id), key) then n + 1 else n)
  {
    LandOwed(s, u, id, key);
    assert UploadsGenuine(s);
  }

  lemma DisturbingTidy(s: State, a: Action, key: Key, n: nat)
    requires Inv(s) && Tidy(s, key, n) && Enabled(s, a) && (a.Land? || a.StatStale?)
    ensures Tidy(Fire(s, a), key, if Disturbs(s, a, key) then n + 1 else n)
  {
    if a.Land? { LandTidy(s, a.upload, a.id, key, n); } else { StaleTidy(s, a.w, key, n); }
  }

  lemma ActionTidy(s: State, a: Action, key: Key, n: nat)
    requires Inv(s) && Tidy(s, key, n) && Enabled(s, a)
    ensures Tidy(Fire(s, a), key, if Disturbs(s, a, key) then n + 1 else n)
  {
    if a.Land? || a.StatStale? {
      DisturbingTidy(s, a, key, n);
    } else if a.DeleteRemote? {
      RemoveTidy(s, a.w, key, n);
    } else if a.StatMissing? {
      MissingTidy(s, a.w, key, n);
    } else {
      QuietTidy(s, a, key, n);
    }
  }

  lemma {:induction false} RunTidy(states: seq<State>, actions: seq<Action>, i: nat, key: Key)
    requires Run(states, actions) && i < |states|
    ensures Tidy(states[i], key, Disturbances(states, actions, key, i))
  {
    if i > 0 {
      RunTidy(states, actions, i - 1, key);
      RunKeeps(states, actions, i - 1);
      ActionTidy(states[i - 1], actions[i - 1], key, Disturbances(states, actions, key, i - 1));
    }
  }

  /** Main result: in every run the uploads that take effect on a key outnumber the late uploads and stale
      stats on that key by at most one. Without any, at most one upload takes effect. */
  lemma AtMostOneUpload(states: seq<State>, actions: seq<Action>, i: nat, key: Key)
    requires Run(states, actions) && i < |states|
    ensures states[i].effects[key] <= 1 + Disturbances(states, actions, key, i)
  {
    RunTidy(states, actions, i, key);
  }

  // ---- Per version ----

  /** An upload takes effect under a key that was bound for the slot. */
  predicate LandsFor(s: State, a: Action, slot: Slot) {
    a.Land? && a.upload in s.uploads && s.uploads[a.upload].key in s.bindings
      && s.bindings[s.uploads[a.upload].key].0 == slot
  }

  function Landings(states: seq<State>, actions: seq<Action>, slot: Slot, i: nat, j: nat): nat
    requires i <= j <= |actions| < |states|
    decreases j
  {
    if i == j then 0
    else Landings(states, actions, slot, i, j - 1) + if LandsFor(states[j - 1], actions[j - 1], slot) then 1 else 0
  }

  /** Neither a late upload nor a stale stat under any key bound for the slot. */
  ghost predicate Undisturbed(s: State, a: Action, slot: Slot) {
    forall key :: key in s.bindings && s.bindings[key].0 == slot ==> !Disturbs(s, a, key)
  }

  /** An awaited upload under a key of the slot is an upload under the key the slot's version has. */
  lemma LandsUnderOwnKey(s: State, a: Action, slot: Slot)
    requires Inv(s) && Enabled(s, a) && LandsFor(s, a, slot) && Undisturbed(s, a, slot)
    ensures slot in s.records && s.records[slot].Bound() && s.records[slot].tier.ref.key == s.uploads[a.upload].key
  {
    assert !Disturbs(s, a, s.uploads[a.upload].key);
    var w :| w in s.workers && s.workers[w].Waiting? && s.workers[w].upload == a.upload;
    assert PcOk(s, s.workers[w]) && LocksHeld(s) && RefsBound(s);
  }

  ghost function OwnEffects(s: State, slot: Slot): nat {
    if slot in s.records && s.records[slot].Bound() then s.effects[s.records[slot].tier.ref.key] else 0
  }

  lemma OwnEffectsGrow(s: State, a: Action, slot: Slot)
    requires Inv(s) && Enabled(s, a) && Undisturbed(s, a, slot) && slot in s.records && slot in Fire(s, a).records
    requires SameKey(s.records[slot], Fire(s, a).records[slot])
    ensures OwnEffects(Fire(s, a), slot) >= OwnEffects(s, slot) + if LandsFor(s, a, slot) then 1 else 0
  {
    if LandsFor(s, a, slot) { LandsUnderOwnKey(s, a, slot); }
  }

  lemma {:induction false} LandingsCounted(states: seq<State>, actions: seq<Action>, i: nat, j: nat, slot: Slot)
    requires Run(states, actions) && i <= j < |states| && RecordedThroughout(states, slot, i, j)
    requires forall m :: i <= m < j ==> Undisturbed(states[m], actions[m], slot)
    ensures Landings(states, actions, slot, i, j) <= OwnEffects(states[j], slot)
    decreases j
  {
    if i < j {
      LandingsCounted(states, actions, i, j - 1, slot);
      RunKeeps(states, actions, j - 1);
      StepOf(states, actions, j);
      assert slot in states[j].records;
      KeyIsKeptAt(states, actions, j, slot);
      OwnEffectsGrow(states[j - 1], actions[j - 1], slot);
    }
  }

  lemma {:induction false} NoDisturbances(states: seq<State>, actions: seq<Action>, key: Key, i: nat)
    requires i <= |actions| < |states| && forall m :: 0 <= m < i ==> !Disturbs(states[m], actions[m], key)
    ensures Disturbances(states, actions, key, i) == 0
  {
    if i > 0 { NoDisturbances(states, actions, key, i - 1); }
  }

  /** Before a key is bound it has no uploads and no worker has it. */
  lemma UnboundIsUndisturbed(s: State, a: Action, key: Key)
    requires Inv(s) && Enabled(s, a) && key !in s.bindings
    ensures !Disturbs(s, a, key)
  {
    assert UploadsGenuine(s) && LocksHeld(s) && RefsBound(s);
  }

  lemma BindingStaysAt(states: seq<State>, actions: seq<Action>, j: nat, key: Key)
    requires Run(states, actions) && 0 < j < |states| && key in states[j - 1].bindings
    ensures key in states[j].bindings && states[j].bindings[key] == states[j - 1].bindings[key]
  {
    StepOf(states, actions, j);
  }

  lemma {:induction false} BindingStays(states: seq<State>, actions: seq<Action>, m: nat, j: nat, key: Key)
    requires Run(states, actions) && m <= j < |states| && key in states[m].bindings
    ensures key in states[j].bindings && states[j].bindings[key] == states[m].bindings[key]
    decreases j
  {
    if m < j {
      BindingStays(states, actions, m, j - 1, key);
      BindingStaysAt(states, actions, j, key);
    }
  }

  /** Main result: for as long as a version exists, at most one upload takes effect for it, under whatever
      keys and version identifiers and whoever crashes, unless a late upload or a stale stat hits a key of
      its own. */
  lemma OneUploadPerVersion(states: seq<State>, actions: seq<Action>, i: nat, j: nat, slot: Slot)
    requires Run(states, actions) && i <= j < |states| && RecordedThroughout(states, slot, i, j)
    requires forall m :: 0 <= m < j ==> Undisturbed(states[m], actions[m], slot)
    ensures Landings(states, actions, slot, i, j) <= 1
  {
    LandingsCounted(states, actions, i, j, slot);
    RunKeeps(states, actions, j);
    if states[j].records[slot].Bound() {
      var key := states[j].records[slot].tier.ref.key;
      assert RefsBound(states[j]);
      forall m | 0 <= m < j ensures !Disturbs(states[m], actions[m], key) {
        RunKeeps(states, actions, m);
        if key in states[m].bindings {
          BindingStays(states, actions, m, j, key);
          assert Undisturbed(states[m], actions[m], slot);
        } else {
          UnboundIsUndisturbed(states[m], actions[m], key);
        }
      }
      NoDisturbances(states, actions, key, j);
      AtMostOneUpload(states, actions, j, key);
    }
  }

  // ---- Each disturbance can cost one more upload ----

  lemma {:induction false} FreshNumber(used: set<nat>) returns (n: nat)
    ensures forall m :: m in used ==> m < n
    decreases |used|
  {
    if used == {} {
      n := 0;
    } else {
      var m :| m in used;
      n := FreshNumber(used - {m});
      if n <= m { n := m + 1; }
      assert forall k :: k in used ==> k == m || k in used - {m};
    }
  }

  /** A longer run: what was there, and more. */
  ghost predicate Continues(states: seq<State>, actions: seq<Action>, states': seq<State>, actions': seq<Action>) {
    Run(states, actions) && Run(states', actions') && states <= states' && actions <= actions'
  }

  lemma Extend(states: seq<State>, actions: seq<Action>, a: Action) returns (states': seq<State>, actions': seq<Action>)
    requires Run(states, actions) && Enabled(states[|actions|], a)
    ensures Continues(states, actions, states', actions')
    ensures actions' == actions + [a] && states' == states + [Fire(states[|actions|], a)]
  {
    states', actions' := states + [Fire(states[|actions|], a)], actions + [a];
  }

  /** An action that can happen, and the state it leads to. */
  predicate Leads(s: State, a: Action, t: State) { Enabled(s, a) && t == Fire(s, a) }

  lemma ExtendTwice(states: seq<State>, actions: seq<Action>, a: Action, s1: State, b: Action, s2: State)
      returns (states': seq<State>, actions': seq<Action>)
    requires Run(states, actions) && Leads(states[|actions|], a, s1) && Leads(s1, b, s2)
    ensures Continues(states, actions, states', actions')
    ensures actions' == actions + [a, b] && states' == states + [s1, s2]
  {
    states', actions' := Extend(states, actions, a);
    states', actions' := Extend(states', actions', b);
  }

  predicate Uploadable(s: State, slot: Slot) {
    slot in s.records && s.records[slot].tier.Pending? && !s.records[slot].deleting && s.Free(slot)
  }

  /** The state once a new worker has found the key missing, rightly or not, and sent another upload. */
  function Resent(s: State, slot: Slot, w: Worker, u: nat): State
    requires Uploadable(s, slot)
  {
    var r := s.records[slot];
    s.(workers := s.workers[w := Waiting(slot, r, u)],
       uploads := s.uploads[u := Upload(r.tier.ref.key, r.source.content, r.tier.ref.key, None)])
  }

  /** The states on the way there. */
  function Going(s: State, w: Worker, pc: Pc): State { s.(workers := s.workers[w := pc]) }

  lemma ResendStarts(s: State, slot: Slot, w: Worker)
    requires Uploadable(s, slot) && w !in s.workers
    ensures Leads(s, Prepare(w, slot), Going(s, w, Prepared(slot, s.records[slot])))
    ensures Leads(Going(s, w, Prepared(slot, s.records[slot])), Enter(w), Going(s, w, Checked(slot, s.records[slot])))
  {}

  lemma ResendLooks(s: State, slot: Slot, w: Worker, look: Action)
    requires Uploadable(s, slot) && w !in s.workers
    requires look == StatStale(w) || (look == StatMissing(w) && Recover(s.remote, s.records[slot].tier.ref).None?)
    ensures Leads(Going(s, w, Checked(slot, s.records[slot])), look, Going(s, w, Sending(slot, s.records[slot])))
  {}

  lemma ResendSends(s: State, slot: Slot, w: Worker, u: nat)
    requires Uploadable(s, slot) && w !in s.workers && u !in s.uploads
    ensures Leads(Going(s, w, Sending(slot, s.records[slot])), Send(w, u), Resent(s, slot, w, u))
  {}

  /** From any state with the slot free, pending and not being deleted another upload can be sent. */
  lemma Resend(states: seq<State>, actions: seq<Action>, slot: Slot, stale: bool)
      returns (states': seq<State>, actions': seq<Action>, w: Worker, u: nat)
    requires Run(states, actions) && Uploadable(states[|actions|], slot)
    requires stale || Recover(states[|actions|].remote, states[|actions|].records[slot].tier.ref).None?
    ensures Continues(states, actions, states', actions')
    ensures w !in states[|actions|].workers && u !in states[|actions|].uploads
    ensures actions'
            == actions + [Prepare(w, slot), Enter(w), if stale then StatStale(w) else StatMissing(w), Send(w, u)]
    ensures states'[|actions'|] == Resent(states[|actions|], slot, w, u)
    ensures states'[|actions| + 2].At(w) == Checked(slot, states[|actions|].records[slot])
  {
    var s := states[|actions|];
    var r := s.records[slot];
    w := FreshNumber(s.workers.Keys);
    u := FreshNumber(s.uploads.Keys);
    var look := if stale then StatStale(w) else StatMissing(w);
    ResendStarts(s, slot, w);
    ResendLooks(s, slot, w, look);
    ResendSends(s, slot, w, u);
    var prepared, checked, sending := Prepared(slot, r), Checked(slot, r), Sending(slot, r);
    states', actions' := ExtendTwice(states, actions, Prepare(w, slot), Going(s, w, prepared), Enter(w),
                                     Going(s, w, checked));
    states', actions' := ExtendTwice(states', actions', look, Going(s, w, sending), Send(w, u), Resent(s, slot, w, u));
  }

  /** The new upload lands while it is awaited, then the one nobody waits for. */
  lemma LandBoth(s: State, slot: Slot, w: Worker, x: nat, u: nat, key: Key)
    requires Uploadable(s, slot) && w !in s.workers && x !in s.uploads
    requires u in s.uploads && s.uploads[u].landed.None? && !Awaited(s, u) && s.uploads[u].key == key
    requires s.records[slot].tier.ref.key == key
    ensures var s4 := Resent(s, slot, w, x);
            var s5 := Fire(s4, Land(x, ""));
            && Enabled(s4, Land(x, "")) && !Disturbs(s4, Land(x, ""), key)
            && Enabled(s5, Land(u, "")) && Disturbs(s5, Land(u, ""), key)
            && Fire(s5, Land(u, "")).effects[key] == s.effects[key] + 2
  {
    var s4 := Resent(s, slot, w, x);
    assert s4.workers[w].Waiting? && s4.workers[w].upload == x;
    assert Awaited(s4, x);
    var s5 := Fire(s4, Land(x, ""));
    assert forall y :: y in s5.workers && y != w ==> y in s.workers && s5.workers[y] == s.workers[y];
    assert !Awaited(s5, u);
  }

  lemma NothingStored(states: seq<State>, actions: seq<Action>, ref: Ref)
    requires Run(states, actions) && states[|actions|].effects[ref.key] == 0
    ensures Recover(states[|actions|].remote, ref).None?
  {
    RunTidy(states, actions, |actions|, ref.key);
  }

  /** From any state with an upload that nobody waits for any more, its version free, pending and not being
      deleted, and no effect on the key yet, two uploads can take effect with that one upload late. */
  lemma LateUploadRepeats(states: seq<State>, actions: seq<Action>, u: nat, slot: Slot)
      returns (states': seq<State>, actions': seq<Action>)
    requires Run(states, actions) && Uploadable(states[|actions|], slot)
    requires u in states[|actions|].uploads && states[|actions|].uploads[u].landed.None?
             && !Awaited(states[|actions|], u)
    requires states[|actions|].records[slot].tier.ref.key == states[|actions|].uploads[u].key
    requires states[|actions|].effects[states[|actions|].uploads[u].key] == 0
    ensures Continues(states, actions, states', actions')
    ensures states'[|actions'|].effects[states[|actions|].uploads[u].key] == 2
    ensures forall m :: |actions| <= m < |actions'| ==>
              (Disturbs(states'[m], actions'[m], states[|actions|].uploads[u].key) <==> m == |actions'| - 1)
  {
    var s, key := states[|actions|], states[|actions|].uploads[u].key;
    NothingStored(states, actions, s.records[slot].tier.ref);
    var w, x;
    states', actions', w, x := Resend(states, actions, slot, false);
    var s4 := Resent(s, slot, w, x);
    var s5 := Fire(s4, Land(x, ""));
    LandBoth(s, slot, w, x, u, key);
    states', actions' := ExtendTwice(states', actions', Land(x, ""), s5, Land(u, ""), Fire(s5, Land(u, "")));
  }

  /** From any state with such a version whose key has had effect, a stale stat can cost another upload. */
  lemma StaleStatRepeats(states: seq<State>, actions: seq<Action>, slot: Slot)
      returns (states': seq<State>, actions': seq<Action>)
    requires Run(states, actions) && Uploadable(states[|actions|], slot)
    ensures Continues(states, actions, states', actions')
    ensures var key := states[|actions|].records[slot].tier.ref.key;
            && states'[|actions'|].effects[key] == states[|actions|].effects[key] + 1
            && forall m :: |actions| <= m < |actions'| ==>
                 (Disturbs(states'[m], actions'[m], key) <==> m == |actions| + 2)
  {
    var s := states[|actions|];
    var w, x;
    states', actions', w, x := Resend(states, actions, slot, true);
    var s4 := Resent(s, slot, w, x);
    assert s4.workers[w].Waiting? && s4.workers[w].upload == x;
    assert Awaited(s4, x);
    states', actions' := Extend(states', actions', Land(x, ""));
  }

  /** The worker dies before the upload it sent has landed. */
  lemma Orphaned(s: State, slot: Slot, w: Worker, u: nat)
    requires Uploadable(s, slot) && w !in s.workers && u !in s.uploads && !Awaited(s, u)
    ensures var s4 := Resent(s, slot, w, u);
            var s5 := Fire(s4, Abandon(w));
            && Enabled(s4, Abandon(w)) && Uploadable(s5, slot) && !Awaited(s5, u)
            && s5.records == s.records && s5.effects == s.effects && s5.uploads == s4.uploads
  {}

  /** Such a state is reached: a version is bound, a worker uploads and dies before the upload lands. */
  lemma LateUploadInstance() returns (states: seq<State>, actions: seq<Action>, key: Key)
    ensures Run(states, actions) && states[|actions|].effects[key] == 2
  {
    var source := Source(1, "e", "x");
    var s1 := Fire(INIT, Create(0, source));
    var s2 := Fire(s1, Bind(1, 0, 7, ""));
    assert s2.records == map[0 := Record(source, Pending(Ref(7, "")), false)];
    states, actions := ExtendTwice([INIT], [], Create(0, source), s1, Bind(1, 0, 7, ""), s2);
    var w, u;
    states, actions, w, u := Resend(states, actions, 0, false);
    Orphaned(s2, 0, w, u);
    states, actions := Extend(states, actions, Abandon(w));
    states, actions := LateUploadRepeats(states, actions, u, 0);
    key := 7;
  }
}
