/**
 A stored version of a transitioned object, what is read out of its metadata, and the write that puts a
 restored copy back: it builds the metadata anew from what was read and is refused by the storage layer
 unless it describes the version that is there.
 */
module StoredVersion {
  import opened Options

  /** The names of metadata entries; `Spelled` is the restore header in another mix of cases, `Other` any name
      not listed. */
  datatype Key =
    | EntityTag // etag
    | LegacyETag // md5Sum
    | ExpiresHeader // expires
    | Tagging // X-Amz-Tagging
    | LastModified // last-modified
    | ContentType // content-type
    | Class // x-amz-storage-class
    | RestoreHeader // x-amz-restore
    | ExpiryDays // X-Amz-Restore-Expiry-Days
    | RequestDate // X-Amz-Restore-Request-Date
    | Transition // x-otterio-internal-transition-reference
    | RestoreParts // x-otterio-internal-transition-restore-parts
    | Intent // x-otterio-internal-transition-delete-intent
    | Spelled(name: string)
    | Other(name: string)

  type Metadata = map<Key, string>

  const STANDARD := "STANDARD"
  const MAX_PART: int := 10_000
  const MAX_INT64: int := 0x7fff_ffff_ffff_ffff

  /** A missing entry reads as the empty text. */
  function Look(meta: Metadata, key: Key): string { if key in meta then meta[key] else "" }

  // ---- Parts and the remote reference ----

  datatype Part = Part(etag: string, number: int, size: int, actualSize: int)

  datatype Reference = Reference(arn: string, key: string, version: string, storageClass: string)

  function Total(parts: seq<Part>): int {
    if parts == [] then 0 else Total(parts[..|parts| - 1]) + parts[|parts| - 1].size
  }

  predicate PartFits(parts: seq<Part>, i: nat)
    requires i < |parts|
  {
    && (if i == 0 then 0 else parts[i - 1].number) < parts[i].number <= MAX_PART
    && parts[i].size >= 0 && parts[i].actualSize >= 0 && Total(parts[..i + 1]) <= MAX_INT64
  }

  predicate ValidParts(parts: seq<Part>) {
    0 < |parts| <= MAX_PART && forall i :: 0 <= i < |parts| ==> PartFits(parts, i)
  }

  /** How references and parts are printed into the metadata; a reading is an error or a valid reference. */
  datatype Encoding = Encoding(
    printRef: Reference -> string, parseRef: string -> Option<Reference>,
    printParts: seq<Part> -> string, parseParts: string -> Option<seq<Part>>)

  ghost predicate Exact(e: Encoding) {
    && (forall s :: e.parseRef(s).Some? ==> e.parseRef(e.printRef(e.parseRef(s).value)) == e.parseRef(s))
    && (forall p :: ValidParts(p) ==> e.printParts(p) != "" && e.parseParts(e.printParts(p)) == Some(p))
  }

  // ---- What is read from a version ----

  datatype Status = Unset | Pending | Complete

  datatype Object = Object(modTime: int, size: nat, status: Status, parts: seq<Part>, meta: Metadata) {
    function Tag(): string { if LegacyETag in meta then meta[LegacyETag] else Look(meta, EntityTag) }

    function Ref(e: Encoding): Option<Reference> { e.parseRef(Look(meta, Transition)) }

    /** The parts recorded by a restore write, if readable. */
    function Recorded(e: Encoding): Option<seq<Part>> {
      if Look(meta, RestoreParts) == "" then None
      else match e.parseParts(meta[RestoreParts])
        case Some(p) => if ValidParts(p) then Some(p) else None
        case None => None
    }

    /** The logical parts of the data, which outlive the parts it is stored in. */
    function Parts(e: Encoding): seq<Part> { if status == Complete then Recorded(e).GetOr(parts) else parts }

    predicate Deleting() { Look(meta, Intent) != "" }

    /** The storage class shown; `rule` is the class of the bucket's own rule, empty if there is none. */
    function StorageClass(e: Encoding, rule: string): string {
      var stored := if Class in meta then meta[Class] else STANDARD;
      if status != Complete then stored
      else match Ref(e)
        case Some(r) => if r.storageClass != "" then r.storageClass else if rule != "" then rule else stored
        case None => if rule != "" then rule else stored
    }

    /** Same identity, status, remote reference and intended deletion. */
    predicate Same(e: Encoding, o: Object) {
      && modTime == o.modTime && size == o.size && status == o.status && Tag() == o.Tag()
      && Ref(e) == o.Ref(e) && Deleting() == o.Deleting()
    }
  }

  predicate Hidden(meta: Metadata, key: Key)
    requires key in meta
  {
    key in {LegacyETag, EntityTag, ExpiresHeader, Tagging, LastModified} || (key == Class && meta[key] == STANDARD)
  }

  /** The metadata handed to callers: without what is shown in fields of its own. */
  function Cleaned(meta: Metadata): Metadata { map key | key in meta && !Hidden(meta, key) :: meta[key] }

  // ---- The restore write ----

  /** What was copied back: its length, the checksum of the data, the content type its name suggests, and the class
      of the bucket's rule. */
  datatype Copy = Copy(size: int, md5: string, contentType: string, rule: string)

  /** Entries set whenever they have something to hwas. */
  function Put(meta: Metadata, key: Key, value: string): Metadata { if value == "" then meta else meta[key := value] }

  /** Entries filled in only where there is none. */
  function Fill(meta: Metadata, key: Key, value: string): Metadata {
    if Look(meta, key) == "" then meta[key := value] else meta
  }

  /** The metadata the restore asks for. */
  function Requested(e: Encoding, o: Object, rule: string, header: string): Metadata {
    var meta := map[Class := o.StorageClass(e, rule)] + Cleaned(o.meta);
    Put(meta[EntityTag := o.Tag()], Tagging, Look(o.meta, Tagging))[RestoreHeader := header]
  }

  function Referred(e: Encoding, o: Object, meta: Metadata): Metadata {
    match o.Ref(e) case Some(r) => meta[Transition := e.printRef(r)] case None => meta
  }

  function Divided(e: Encoding, o: Object, meta: Metadata): Metadata {
    if o.Parts(e) == [] then meta else meta[RestoreParts := e.printParts(o.Parts(e))]
  }

  /** The metadata the write ends up with. */
  function Rebuilt(e: Encoding, o: Object, copy: Copy, header: string): Metadata {
    var meta := Divided(e, o, Referred(e, o, Requested(e, o, copy.rule, header)));
    Fill(Fill(meta, EntityTag, copy.md5), ContentType, copy.contentType)
  }

  function Written(e: Encoding, o: Object, copy: Copy, header: string): Object
    requires copy.size >= 0
  {
    Object(o.modTime, copy.size, Complete, [Part("", 1, copy.size, copy.size)], Rebuilt(e, o, copy, header))
  }

  /** The storage layer's last check before it replaces a transitioned version. */
  predicate Replaces(e: Encoding, was: Object, next: Object) {
    && next.status != Unset
    && (match (was.Ref(e), next.Ref(e))
        case (Some(r), Some(r')) =>
          && r.arn == r'.arn && r.key == r'.key && r.storageClass == r'.storageClass
          && (r.version == r'.version || (was.status == Pending && next.status == Complete && r.version == ""))
        case _ => Look(was.meta, Transition) == Look(next.meta, Transition))
    && (Look(was.meta, Intent) == "" || Look(was.meta, Intent) == Look(next.meta, Intent))
    && was.modTime == next.modTime && was.Tag() == next.Tag() && was.size == next.size
  }

  /** Writes the restored copy back under the version's own identity, or not at all. */
  function WriteBack(e: Encoding, o: Object, copy: Copy, header: string): Option<Object> {
    if o.status != Complete || copy.size != o.size then None
    else if o.Parts(e) != [] && !(ValidParts(o.Parts(e)) && Total(o.Parts(e)) == o.size) then None
    else
      var o' := Written(e, o, copy, header);
      if Replaces(e, o, o') then Some(o') else None
  }

  // ---- What the write keeps ----

  /** Entries the write manages itself. */
  predicate Managed(key: Key) { key in {EntityTag, LegacyETag, Class, RestoreHeader, Transition, RestoreParts} }

  /** Entries the write does not carry over. */
  predicate Dropped(key: Key) { key in {ExpiresHeader, LastModified} }

  lemma CleanedAt(meta: Metadata, key: Key)
    ensures key in {LegacyETag, EntityTag, ExpiresHeader, Tagging, LastModified} ==> Look(Cleaned(meta), key) == ""
    ensures key !in {LegacyETag, EntityTag, ExpiresHeader, Tagging, LastModified, Class}
            ==> Look(Cleaned(meta), key) == Look(meta, key)
  {}

  lemma RequestedAt(e: Encoding, o: Object, rule: string, header: string, key: Key)
    ensures var meta := Requested(e, o, rule, header);
            && LegacyETag !in meta && Look(meta, EntityTag) == o.Tag() && RestoreHeader in meta
            && meta[RestoreHeader] == header
            && (!Managed(key) ==> Look(meta, key) == if Dropped(key) then "" else Look(o.meta, key))
            && (key in {Transition, RestoreParts} ==> Look(meta, key) == Look(o.meta, key))
  {
    CleanedAt(o.meta, key);
  }

  lemma BoundAt(e: Encoding, o: Object, meta: Metadata, key: Key)
    ensures var bound := Divided(e, o, Referred(e, o, meta));
            && (LegacyETag in bound <==> LegacyETag in meta)
            && (RestoreHeader in bound <==> RestoreHeader in meta)
            && Look(bound, RestoreHeader) == Look(meta, RestoreHeader)
            && (key !in {Transition, RestoreParts} ==> Look(bound, key) == Look(meta, key))
            && Look(bound, Transition)
               == (match o.Ref(e) case Some(r) => e.printRef(r) case None => Look(meta, Transition))
            && Look(bound, RestoreParts)
               == if o.Parts(e) == [] then Look(meta, RestoreParts) else e.printParts(o.Parts(e))
  {}

  lemma FilledAt(meta: Metadata, copy: Copy, key: Key)
    ensures var filled := Fill(Fill(meta, EntityTag, copy.md5), ContentType, copy.contentType);
            && (LegacyETag in filled <==> LegacyETag in meta) && (RestoreHeader in filled <==> RestoreHeader in meta)
            && Look(filled, key) == if key == EntityTag && Look(meta, key) == "" then copy.md5
                                    else if key == ContentType && Look(meta, key) == "" then copy.contentType
                                    else Look(meta, key)
  {}

  /** The entries the write manages. */
  lemma RebuiltManaged(e: Encoding, o: Object, copy: Copy, header: string)
    ensures var meta := Rebuilt(e, o, copy, header);
            && LegacyETag !in meta && Look(meta, EntityTag) == (if o.Tag() == "" then copy.md5 else o.Tag())
            && RestoreHeader in meta && meta[RestoreHeader] == header
            && Look(meta, Transition)
               == (match o.Ref(e) case Some(r) => e.printRef(r) case None => Look(o.meta, Transition))
            && Look(meta, RestoreParts)
               == if o.Parts(e) == [] then Look(o.meta, RestoreParts) else e.printParts(o.Parts(e))
  {
    var requested := Requested(e, o, copy.rule, header);
    var bound := Divided(e, o, Referred(e, o, requested));
    RequestedAt(e, o, copy.rule, header, Transition);
    RequestedAt(e, o, copy.rule, header, RestoreParts);
    BoundAt(e, o, requested, EntityTag);
    FilledAt(bound, copy, EntityTag);
    FilledAt(bound, copy, Transition);
    FilledAt(bound, copy, RestoreParts);
    FilledAt(bound, copy, RestoreHeader);
  }

  /** Every other entry is carried over, except `expires` and `last-modified`, which are lost, and a missing content
      type, which is guessed. */
  lemma RebuiltEntry(e: Encoding, o: Object, copy: Copy, header: string, key: Key)
    requires !Managed(key)
    ensures Look(Rebuilt(e, o, copy, header), key)
            == if Dropped(key) then ""
               else if key == ContentType && Look(o.meta, key) == "" then copy.contentType
               else Look(o.meta, key)
  {
    var requested := Requested(e, o, copy.rule, header);
    RequestedAt(e, o, copy.rule, header, key);
    BoundAt(e, o, requested, key);
    FilledAt(Divided(e, o, Referred(e, o, requested)), copy, key);
  }

  /** The storage class written: the version's own unless it is the standard one, else the one bound to the reference,
      the rule's, or the standard one. */
  lemma RebuiltClass(e: Encoding, o: Object, copy: Copy, header: string)
    requires o.status == Complete
    ensures Look(Rebuilt(e, o, copy, header), Class)
            == if Class in o.meta && o.meta[Class] != "STANDARD" then o.meta[Class]
               else if o.Ref(e).Some? && o.Ref(e).value.storageClass != "" then o.Ref(e).value.storageClass
               else if copy.rule != "" then copy.rule
               else "STANDARD"
  {
    var requested := Requested(e, o, copy.rule, header);
    assert Look(requested, Class) == Look(map[Class := o.StorageClass(e, copy.rule)] + Cleaned(o.meta), Class);
    BoundAt(e, o, requested, Class);
    FilledAt(Divided(e, o, Referred(e, o, requested)), copy, Class);
  }

  // ---- When the write goes through, and what it keeps ----

  /** What the data copied back and the recorded parts must satisfy. */
  predicate Fits(e: Encoding, o: Object, copy: Copy) {
    && copy.size == o.size && (o.Tag() != "" || copy.md5 == "")
    && (o.Parts(e) == [] || (ValidParts(o.Parts(e)) && Total(o.Parts(e)) == o.size))
  }

  lemma WrittenViews(e: Encoding, o: Object, copy: Copy, header: string)
    requires Exact(e) && o.status == Complete && copy.size >= 0
    ensures var o' := Written(e, o, copy, header);
            && o'.Tag() == (if o.Tag() == "" then copy.md5 else o.Tag()) && o'.Ref(e) == o.Ref(e)
            && Look(o'.meta, Intent) == Look(o.meta, Intent) && Look(o'.meta, RestoreHeader) == header
            && (o.Ref(e) == None ==> Look(o'.meta, Transition) == Look(o.meta, Transition))
  {
    RebuiltManaged(e, o, copy, header);
    RebuiltEntry(e, o, copy, header, Intent);
  }

  /** The storage layer's check lets the write through exactly when the copy has the version's length and the version
      has a tag to carry over. */
  lemma WriteBackExactly(e: Encoding, o: Object, copy: Copy, header: string)
    requires Exact(e) && o.status == Complete
    ensures WriteBack(e, o, copy, header).Some? <==> Fits(e, o, copy)
  {
    if copy.size == o.size {
      WrittenViews(e, o, copy, header);
    }
  }

  /** The metadata is built anew, yet the version reads back as the one it replaces. */
  lemma WriteBackKeeps(e: Encoding, o: Object, copy: Copy, header: string)
    requires Exact(e) && WriteBack(e, o, copy, header).Some?
    ensures WriteBack(e, o, copy, header).value.Same(e, o)
    ensures o.Parts(e) != [] ==> WriteBack(e, o, copy, header).value.Parts(e) == o.Parts(e)
    ensures RestoreHeader in WriteBack(e, o, copy, header).value.meta
    ensures WriteBack(e, o, copy, header).value.meta[RestoreHeader] == header
  {
    WriteBackExactly(e, o, copy, header);
    WrittenViews(e, o, copy, header);
    RebuiltManaged(e, o, copy, header);
  }
}
