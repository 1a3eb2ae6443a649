/**
 Temporary restore of a transitioned version: reserve it durably, copy the remote data back,
 and, if the process dies in between, let the scanner finish from the persisted request.
 Times are nanoseconds since the Unix epoch, in UTC.
 */
module Restore {
  import opened Options
  import opened StoredVersion
  import opened Text

  const SECOND: int := 1_000_000_000
  const DAY: int := 86_400 * SECOND
  /** Midnight of 31 December 9999, counted in days. */
  const LAST_DAY: int := 2_932_896

  function Day(t: int): int { t / DAY }
  function WholeSecond(t: int): int { t / SECOND * SECOND }

  /** The midnight after the given day plus the requested days, no later than the last printable day. */
  function ExpiryDay(day: int, days: int): int {
    if days >= 0 && day < LAST_DAY && days >= LAST_DAY - day then LAST_DAY
    else if days >= 0 && day >= LAST_DAY then day
    else day + days + 1
  }

  function ExpectedExpiry(t: int, days: int): int { ExpiryDay(Day(t), days) * DAY }

  /** The first day of the year 0, counted in days. */
  const FIRST_DAY: int := -719_528

  /** The times an HTTP date can hold: years of four digits. */
  predicate Printable(t: int) { FIRST_DAY * DAY <= t < (LAST_DAY + 1) * DAY }

  predicate Int64(n: int) { -0x8000_0000_0000_0000 <= n < 0x8000_0000_0000_0000 }

  lemma DayBounds(t: int)
    ensures Printable(t) <==> FIRST_DAY <= Day(t) <= LAST_DAY
  {}

  /** The cap is what keeps every deadline printable, whatever the number of days. */
  lemma DeadlinePrintable(t: int, days: int)
    requires Printable(t) && days >= 0
    ensures Printable(ExpectedExpiry(t, days)) && ExpectedExpiry(t, days) >= Day(t) * DAY
  {
    DayBounds(t);
    DayBounds(ExpectedExpiry(t, days));
    MidnightIsDay(ExpiryDay(Day(t), days));
  }

  /** How long a copy lasts that is asked for now: to the first midnight more than the given number of days away,
      but not beyond 31 December 9999. */
  predicate Lasts(t: int, days: int, expiry: int) {
    && expiry % 86_400_000_000_000 == 0
    && if t / 86_400_000_000_000 + days + 1 < 2_932_896
       then days * 86_400_000_000_000 < expiry - t <= (days + 1) * 86_400_000_000_000
       else expiry == 2_932_896 * 86_400_000_000_000
  }

  lemma MultipleOfDay(q: int)
    ensures (q * 86_400_000_000_000) % 86_400_000_000_000 == 0
  {}

  lemma DeadlineExactly(t: int, days: int)
    requires Printable(t) && days > 0
    ensures Lasts(t, days, ExpectedExpiry(t, days))
  {
    var day := t / 86_400_000_000_000;
    DayBounds(t);
    assert DAY == 86_400_000_000_000 && Day(t) == day;
    MultipleOfDay(ExpiryDay(day, days));
    assert ExpiryDay(day, days) == if day + days + 1 < 2_932_896 then day + days + 1 else 2_932_896;
    assert t == day * 86_400_000_000_000 + t % 86_400_000_000_000;
  }

  lemma MidnightIsDay(day: int)
    ensures Day(day * DAY) == day && WholeSecond(day * DAY) == day * DAY
  {}

  /** A time that survives being printed. */
  predicate Deadline(t: int) { Printable(t) && WholeSecond(t) == t }

  lemma DeadlineMade(t: int, days: int)
    requires Printable(t) && days > 0
    ensures Deadline(ExpectedExpiry(t, days))
  {
    DeadlinePrintable(t, days);
    MidnightIsDay(ExpiryDay(Day(t), days));
  }

  // ---- Text forms ----

  datatype Header = Missing | Malformed | Ongoing | Expires(ongoing: bool, expiry: int)

  /** How the persisted metadata is printed and parsed: HTTP dates (whole seconds) and decimal integers
      by the Go library, the restore header by the server, references and parts as JSON. */
  datatype Codec = Codec(
    format: int -> string, parse: string -> Option<int>,
    itoa: int -> string, atoi: string -> Option<int>,
    ongoing: string, done: int -> string, header: string -> Header, json: Encoding)

  /** What the library promises: times of four-digit years, 64-bit numbers, references and parts can be read back,
      and no other time is ever read. */
  ghost predicate LibraryFaithful(c: Codec) {
    && (forall t :: Printable(t) ==> c.parse(c.format(t)) == Some(WholeSecond(t)))
    && (forall s :: c.parse(s).Some? ==> Printable(c.parse(s).value))
    && (forall n :: Int64(n) ==> c.atoi(c.itoa(n)) == Some(n))
    && Exact(c.json)
  }

  ghost predicate Faithful(c: Codec) {
    && LibraryFaithful(c)
    && c.header(c.ongoing) == Ongoing
    && (forall t :: Printable(t) ==> c.header(c.done(t)) == Expires(false, WholeSecond(t)))
  }

  // ---- The restore header ----

  function Cut(s: string, sep: char): Option<(string, string)> {
    if s == "" then None
    else if s[0] == sep then Some(("", s[1..]))
    else match Cut(s[1..], sep)
      case None => None
      case Some((a, b)) => Some(([s[0]] + a, b))
  }

  const ONGOING := "ongoing-request=true"

  function DoneText(format: int -> string, expiry: int): string {
    "ongoing-request=false" + "," + " expiry-date" + "=" + format(expiry)
  }

  function ParseDated(parse: string -> Option<int>, first: string, second: string): Header {
    match (Cut(first, '='), Cut(second, '='))
    case (Some((_, status)), Some((_, date))) =>
      (match parse(date)
       case None => Malformed
       case Some(t) => Expires(status == "true", t))
    case _ => Malformed
  }

  function ParseText(parse: string -> Option<int>, text: string): Header {
    match Cut(text, ',')
    case None => if Trim(text) == ONGOING then Ongoing else Malformed
    case Some((first, second)) => ParseDated(parse, first, second)
  }

  lemma {:induction false} CutAt(a: string, sep: char, b: string)
    requires sep !in a
    ensures Cut(a + [sep] + b, sep) == Some((a, b))
  {
    var s := a + [sep] + b;
    if a == "" {
      assert s[1..] == b;
    } else {
      assert s[1..] == a[1..] + [sep] + b;
      CutAt(a[1..], sep, b);
      assert a == [a[0]] + a[1..];
    }
  }

  lemma {:induction false} CutNone(a: string, sep: char)
    requires sep !in a
    ensures Cut(a, sep) == None
  {
    if a != "" { CutNone(a[1..], sep); }
  }

  lemma PlainText(parse: string -> Option<int>, text: string)
    requires ',' !in text && text != "" && !IsSpace(text[0]) && !IsSpace(text[|text| - 1])
    ensures ParseText(parse, text) == if text == ONGOING then Ongoing else Malformed
  {
    CutNone(text, ',');
    assert TrimLeft(text) == text && TrimRight(text) == text;
  }

  lemma OngoingIsPlain()
    ensures ',' !in ONGOING && ONGOING != "" && !IsSpace(ONGOING[0]) && !IsSpace(ONGOING[|ONGOING| - 1])
  {}

  lemma DatedText(parse: string -> Option<int>, a: string, status: string, b: string, date: string)
    requires ',' !in a && ',' !in status && '=' !in a && '=' !in b
    ensures ParseText(parse, a + ['='] + status + [','] + (b + ['='] + date))
            == match parse(date) case None => Malformed case Some(t) => Expires(status == "true", t)
  {
    CutAt(a + ['='] + status, ',', b + ['='] + date);
    CutAt(a, '=', status);
    CutAt(b, '=', date);
  }

  lemma DoneIsDated(date: string)
    ensures "ongoing-request=false" + "," + " expiry-date" + "=" + date
            == "ongoing-request" + ['='] + "false" + [','] + (" expiry-date" + ['='] + date)
    ensures ',' !in "ongoing-request" && ',' !in "false" && '=' !in "ongoing-request" && '=' !in " expiry-date"
  {}

  /** Parsing undoes both printed forms, whatever text the date has, commas and equals signs included. */
  lemma HeaderRoundTrip(format: int -> string, parse: string -> Option<int>, expiry: int)
    requires parse(format(expiry)) == Some(WholeSecond(expiry))
    ensures ParseText(parse, ONGOING) == Ongoing
    ensures ParseText(parse, DoneText(format, expiry)) == Expires(false, WholeSecond(expiry))
  {
    OngoingIsPlain();
    PlainText(parse, ONGOING);
    DoneIsDated(format(expiry));
    DatedText(parse, "ongoing-request", "false", " expiry-date", format(expiry));
  }

  /** The header as clients see it. */
  lemma HeaderText(c: Codec, t: int)
    ensures ServerCodec(c).ongoing == "ongoing-request=true"
    ensures ServerCodec(c).done(t) == "ongoing-request=false, expiry-date=" + c.format(t)
  {
    assert "ongoing-request=false" + "," + " expiry-date" + "=" == "ongoing-request=false, expiry-date=";
  }

  function ServerCodec(c: Codec): Codec {
    c.(ongoing := ONGOING, done := t => DoneText(c.format, t), header := s => ParseText(c.parse, s))
  }

  lemma ServerHeader(c: Codec, t: int)
    requires c.parse(c.format(t)) == Some(WholeSecond(t))
    ensures ServerCodec(c).header(ServerCodec(c).ongoing) == Ongoing
    ensures ServerCodec(c).header(ServerCodec(c).done(t)) == Expires(false, WholeSecond(t))
  {
    HeaderRoundTrip(c.format, c.parse, t);
  }

  /** The server's header text, over a library date codec, satisfies everything the protocol relies on. */
  lemma ServerTextFaithful(c: Codec)
    requires LibraryFaithful(c)
    ensures Faithful(ServerCodec(c))
  {
    var d := ServerCodec(c);
    ServerHeader(c, 0);
    forall t | Printable(t) ensures d.header(d.done(t)) == Expires(false, WholeSecond(t)) { ServerHeader(c, t); }
    assert d.parse == c.parse && d.format == c.format && d.itoa == c.itoa && d.atoi == c.atoi && d.json == c.json;
  }

  function ParseHeader(c: Codec, meta: Metadata): Header {
    if RestoreHeader in meta then c.header(meta[RestoreHeader]) else Missing
  }

  // ---- The operations on a version ----

  datatype Reply<+T> = Ok(value: T) | Refused | InProgress

  function IsOngoing(c: Codec, o: Object): bool {
    var h := ParseHeader(c, o.meta); h.Ongoing? || (h.Expires? && h.ongoing)
  }

  /** A restored copy that has not expired at the given time. */
  function IsRestored(c: Codec, o: Object, now: int): bool {
    var h := ParseHeader(c, o.meta); h.Expires? && !h.ongoing && now < h.expiry
  }

  /** Reserves the exact version; a version restored already only has its deadline moved. The entries are merged into
      the stored metadata. */
  function Begin(c: Codec, o: Object, expected: Object, now: int, days: int): Reply<(Object, bool)> {
    if days <= 0 || o.status != Complete || o.modTime != expected.modTime || o.Tag() != expected.Tag() then Refused
    else if o.Deleting() then Refused
    else if IsOngoing(c, o) then InProgress
    else
      var already := IsRestored(c, o, now);
      var meta := o.meta + Cleaned(o.meta)[ExpiryDays := c.itoa(days)][RequestDate := c.format(now)];
      var header := if already then c.done(ExpectedExpiry(now, days)) else c.ongoing;
      Ok((o.(meta := meta[RestoreHeader := header]), already))
  }

  /** Writes the restored copy back under the version's own identity. */
  function Finish(c: Codec, o: Object, expiry: int, copy: Copy): Reply<Object> {
    if o.Deleting() then Refused
    else match WriteBack(c.json, o, copy, c.done(expiry))
      case Some(o') => Ok(o')
      case None => Refused
  }

  /** The worker of the original request: it brings the deadline the request handler computed. */
  function FinishRequest(c: Codec, o: Object, seen: Object, now: int, expiry: int, copy: Copy): Reply<Object> {
    if o.modTime != seen.modTime || o.Tag() != seen.Tag() || o.status != Complete then Refused
    else if IsRestored(c, o, now) then Ok(o)
    else Finish(c, o, expiry, copy)
  }

  /** The scanner's worker: it recomputes the deadline from the persisted request. */
  function FinishRecovered(c: Codec, o: Object, copy: Copy): Reply<Object> {
    if o.status != Complete || o.Deleting() || !IsOngoing(c, o) then Refused
    else if ExpiryDays !in o.meta || RequestDate !in o.meta then Refused
    else match (c.atoi(o.meta[ExpiryDays]), c.parse(o.meta[RequestDate]))
      case (Some(days), Some(requested)) =>
        if days <= 0 then Refused else Finish(c, o, ExpectedExpiry(requested, days), copy)
      case _ => Refused
  }

  function WithoutHeader(meta: Metadata): Metadata {
    map key | key in meta && key != RestoreHeader && !key.Spelled? :: meta[key]
  }

  /** Dropping an expired restored copy removes the header, in any spelling, and the local data; the reference is
      written again. */
  function Expire(c: Codec, o: Object, now: int): Reply<Object> {
    var h := ParseHeader(c, o.meta);
    if o.Deleting() || o.status != Complete || !h.Expires? || h.ongoing || now < h.expiry then Refused
    else Ok(o.(meta := WithoutHeader(Referred(c.json, o, o.meta))))
  }

  // ---- Runs ----

  /** The worker of a request carries the deadline that follows from the handler's own clock reading. */
  datatype Step =
    | BeginStep(expected: Object, now: int, days: int)
    | RequestStep(seen: Object, now: int, handled: int, days: int, copy: Copy)
    | RecoverStep(copy: Copy)
    | ExpireStep(now: int)

  /** Clock readings are printable and numbers have 64 bits. A worker is started only after its reservation was
      granted, so for a positive number of days. */
  predicate Sane(step: Step) {
    match step
    case BeginStep(_, now, days) => Printable(now) && Int64(days)
    case RequestStep(_, now, handled, days, _) => Printable(now) && Printable(handled) && days > 0
    case RecoverStep(_) => true
    case ExpireStep(now) => Printable(now)
  }

  function After(c: Codec, o: Object, step: Step): Object {
    match step
    case BeginStep(expected, now, days) =>
      (match Begin(c, o, expected, now, days) case Ok((o', _)) => o' case _ => o)
    case RequestStep(seen, now, handled, days, copy) =>
      (match FinishRequest(c, o, seen, now, ExpectedExpiry(handled, days), copy) case Ok(o') => o' case _ => o)
    case RecoverStep(copy) => (match FinishRecovered(c, o, copy) case Ok(o') => o' case _ => o)
    case ExpireStep(now) => (match Expire(c, o, now) case Ok(o') => o' case _ => o)
  }

  /** A step that takes out a new reservation. */
  predicate Reserves(c: Codec, o: Object, step: Step) {
    step.BeginStep? &&
    match Begin(c, o, step.expected, step.now, step.days) case Ok((_, already)) => !already case _ => false
  }

  ghost predicate Run(c: Codec, states: seq<Object>, steps: seq<Step>) {
    && |states| == |steps| + 1
    && forall i :: 0 <= i < |steps| ==> Sane(steps[i]) && states[i + 1] == After(c, states[i], steps[i])
  }

  // ---- What every run keeps ----

  lemma BeginKeeps(c: Codec, o: Object, expected: Object, now: int, days: int, key: Key)
    requires Begin(c, o, expected, now, days).Ok?
    ensures var o' := Begin(c, o, expected, now, days).value.0;
            && o'.Same(c.json, o) && o'.Parts(c.json) == o.Parts(c.json)
            && (key !in {ExpiryDays, RequestDate, RestoreHeader} ==> Look(o'.meta, key) == Look(o.meta, key))
  {}

  lemma ExpireKeeps(c: Codec, o: Object, now: int, key: Key)
    requires Exact(c.json) && Expire(c, o, now).Ok?
    ensures var o' := Expire(c, o, now).value;
            && o'.Same(c.json, o) && o'.Parts(c.json) == o.Parts(c.json)
            && (key !in {Transition, RestoreHeader} && !key.Spelled? ==> Look(o'.meta, key) == Look(o.meta, key))
  {}

  /** The step writes a restored copy back. */
  predicate Completes(c: Codec, o: Object, step: Step) {
    match step
    case RequestStep(seen, now, handled, days, copy) =>
      && !IsRestored(c, o, now)
      && FinishRequest(c, o, seen, now, ExpectedExpiry(handled, days), copy).Ok?
    case RecoverStep(copy) => FinishRecovered(c, o, copy).Ok?
    case _ => false
  }

  function CompletedBy(c: Codec, o: Object, step: Step): int
    requires Completes(c, o, step)
  {
    match step
    case RequestStep(_, _, handled, days, _) => ExpectedExpiry(handled, days)
    case RecoverStep(_) => ExpectedExpiry(c.parse(o.meta[RequestDate]).value, c.atoi(o.meta[ExpiryDays]).value)
  }

  lemma CompletionWrites(c: Codec, o: Object, step: Step)
    requires Completes(c, o, step)
    ensures WriteBack(c.json, o, step.copy, c.done(CompletedBy(c, o, step))) == Some(After(c, o, step))
  {}

  lemma StepKeepsIdentity(c: Codec, o: Object, step: Step)
    requires Exact(c.json)
    ensures After(c, o, step).Same(c.json, o)
    ensures o.Parts(c.json) != [] ==> After(c, o, step).Parts(c.json) == o.Parts(c.json)
  {
    if Completes(c, o, step) {
      CompletionWrites(c, o, step);
      WriteBackKeeps(c.json, o, step.copy, c.done(CompletedBy(c, o, step)));
    } else if step.BeginStep? && Begin(c, o, step.expected, step.now, step.days).Ok? {
      BeginKeeps(c, o, step.expected, step.now, step.days, EntityTag);
    } else if step.ExpireStep? && Expire(c, o, step.now).Ok? {
      ExpireKeeps(c, o, step.now, EntityTag);
    }
  }

  /** No sequence of restores, recoveries and expiries changes what a version is read as: its identity, its transition
      status, its remote reference, the deletion intended for it and its logical parts. */
  lemma {:induction false} RunKeepsIdentity(c: Codec, states: seq<Object>, steps: seq<Step>, i: nat)
    requires Exact(c.json) && Run(c, states, steps) && i < |states|
    ensures states[i].Same(c.json, states[0])
    ensures states[0].Parts(c.json) != [] ==> states[i].Parts(c.json) == states[0].Parts(c.json)
  {
    if i > 0 {
      RunKeepsIdentity(c, states, steps, i - 1);
      assert states[i - 1 + 1] == After(c, states[i - 1], steps[i - 1]);
      StepKeepsIdentity(c, states[i - 1], steps[i - 1]);
    }
  }

  /** Entries restoring does not manage. */
  predicate Foreign(key: Key) { !Managed(key) && !key.Spelled? && key !in {ExpiryDays, RequestDate} }

  lemma StepKeepsEntry(c: Codec, o: Object, step: Step, key: Key)
    requires Exact(c.json) && Foreign(key)
    ensures !Completes(c, o, step) ==> Look(After(c, o, step).meta, key) == Look(o.meta, key)
    ensures Completes(c, o, step) ==>
              Look(After(c, o, step).meta, key)
              == if Dropped(key) then ""
                 else if key == ContentType && Look(o.meta, key) == "" then step.copy.contentType
                 else Look(o.meta, key)
  {
    if Completes(c, o, step) {
      CompletionWrites(c, o, step);
      RebuiltEntry(c.json, o, step.copy, c.done(CompletedBy(c, o, step)), key);
    } else if step.BeginStep? && Begin(c, o, step.expected, step.now, step.days).Ok? {
      BeginKeeps(c, o, step.expected, step.now, step.days, key);
    } else if step.ExpireStep? && Expire(c, o, step.now).Ok? {
      ExpireKeeps(c, o, step.now, key);
    }
  }

  lemma StepAt(c: Codec, states: seq<Object>, steps: seq<Step>, i: nat, key: Key)
    requires Exact(c.json) && Run(c, states, steps) && 0 < i < |states| && Foreign(key)
    ensures Dropped(key) ==>
              Look(states[i].meta, key)
              == if Completes(c, states[i - 1], steps[i - 1]) then "" else Look(states[i - 1].meta, key)
    ensures !Dropped(key) && (key != ContentType || Look(states[i - 1].meta, key) != "")
            ==> Look(states[i].meta, key) == Look(states[i - 1].meta, key)
  {
    assert states[i - 1 + 1] == After(c, states[i - 1], steps[i - 1]);
    StepKeepsEntry(c, states[i - 1], steps[i - 1], key);
  }

  /** Every entry a restore does not manage stays as it was through every run, but for `expires`, `last-modified` and
      a missing content type, which may be filled in. */
  lemma {:induction false} RunKeepsEntry(c: Codec, states: seq<Object>, steps: seq<Step>, i: nat, key: Key)
    requires Exact(c.json) && Run(c, states, steps) && i < |states| && Foreign(key) && !Dropped(key)
    requires key != ContentType || Look(states[0].meta, key) != ""
    ensures Look(states[i].meta, key) == Look(states[0].meta, key)
  {
    if i > 0 {
      RunKeepsEntry(c, states, steps, i - 1, key);
      StepAt(c, states, steps, i, key);
    }
  }

  /** A copy has been written back by one of the first i steps. */
  predicate CompletedBefore(c: Codec, states: seq<Object>, steps: seq<Step>, i: nat)
    requires i <= |steps| < |states|
  {
    exists j :: 0 <= j < i && Completes(c, states[j], steps[j])
  }

  /** `expires` and `last-modified` are gone exactly from the first completed restore on. */
  lemma {:induction false} RunDropsEntry(c: Codec, states: seq<Object>, steps: seq<Step>, i: nat, key: Key)
    requires Exact(c.json) && Run(c, states, steps) && i < |states| && Dropped(key)
    ensures Look(states[i].meta, key)
            == if CompletedBefore(c, states, steps, i) then "" else Look(states[0].meta, key)
  {
    if i > 0 {
      RunDropsEntry(c, states, steps, i - 1, key);
      StepAt(c, states, steps, i, key);
    }
  }

  // ---- Reservations ----

  lemma ReservedIsOngoing(c: Codec, o: Object, step: Step)
    requires Faithful(c) && Reserves(c, o, step)
    ensures !IsOngoing(c, o) && IsOngoing(c, After(c, o, step)) && After(c, o, step).status == Complete
    ensures !After(c, o, step).Deleting() && step.days > 0
    ensures ExpiryDays in After(c, o, step).meta && After(c, o, step).meta[ExpiryDays] == c.itoa(step.days)
    ensures RequestDate in After(c, o, step).meta && After(c, o, step).meta[RequestDate] == c.format(step.now)
  {}

  /** What a completion writes can be read back, and is no longer ongoing. */
  lemma FinishedHeader(c: Codec, o: Object, expiry: int, copy: Copy)
    requires Faithful(c) && Deadline(expiry) && o.status == Complete && !o.Deleting()
    ensures Finish(c, o, expiry, copy).Ok? <==> Fits(c.json, o, copy)
    ensures Fits(c.json, o, copy) ==> ParseHeader(c, Finish(c, o, expiry, copy).value.meta) == Expires(false, expiry)
  {
    WriteBackExactly(c.json, o, copy, c.done(expiry));
    if Fits(c.json, o, copy) {
      WriteBackKeeps(c.json, o, copy, c.done(expiry));
    }
  }

  lemma FinishEnds(c: Codec, o: Object, expiry: int, copy: Copy)
    requires Faithful(c) && Deadline(expiry) && o.status == Complete && Finish(c, o, expiry, copy).Ok?
    ensures !IsOngoing(c, Finish(c, o, expiry, copy).value)
  {
    FinishedHeader(c, o, expiry, copy);
  }

  lemma FinishRequestEnds(c: Codec, o: Object, seen: Object, now: int, expiry: int, copy: Copy)
    requires Faithful(c) && IsOngoing(c, o) && Deadline(expiry)
    ensures var r := FinishRequest(c, o, seen, now, expiry, copy); r.Ok? ==> r.value == o || !IsOngoing(c, r.value)
  {
    if o.status == Complete && Finish(c, o, expiry, copy).Ok? { FinishEnds(c, o, expiry, copy); }
  }

  lemma RequestEnds(c: Codec, o: Object, step: Step)
    requires Faithful(c) && IsOngoing(c, o) && Sane(step) && step.RequestStep?
    ensures After(c, o, step) != o ==> !IsOngoing(c, After(c, o, step))
  {
    DeadlineMade(step.handled, step.days);
    FinishRequestEnds(c, o, step.seen, step.now, ExpectedExpiry(step.handled, step.days), step.copy);
  }

  lemma RecoveryEnds(c: Codec, o: Object, copy: Copy)
    requires Faithful(c) && IsOngoing(c, o)
    ensures After(c, o, RecoverStep(copy)) != o ==> !IsOngoing(c, After(c, o, RecoverStep(copy)))
  {
    if FinishRecovered(c, o, copy).Ok? {
      var requested, days := c.parse(o.meta[RequestDate]).value, c.atoi(o.meta[ExpiryDays]).value;
      DeadlineMade(requested, days);
      FinishEnds(c, o, ExpectedExpiry(requested, days), copy);
    }
  }

  /** While a reservation is open nothing but a completion changes the version: no second reservation,
      no extension, no expiry. */
  lemma OngoingIsStable(c: Codec, o: Object, step: Step)
    requires Faithful(c) && IsOngoing(c, o) && Sane(step)
    ensures step.BeginStep? || step.ExpireStep? ==> After(c, o, step) == o && !Reserves(c, o, step)
    ensures After(c, o, step) != o ==> !IsOngoing(c, After(c, o, step))
  {
    if step.RequestStep? {
      RequestEnds(c, o, step);
    } else if step.RecoverStep? {
      RecoveryEnds(c, o, step.copy);
    }
  }

  lemma ReservedAt(c: Codec, states: seq<Object>, steps: seq<Step>, i: nat)
    requires Faithful(c) && Run(c, states, steps) && i < |steps| && Reserves(c, states[i], steps[i])
    ensures !IsOngoing(c, states[i]) && IsOngoing(c, states[i + 1])
  {
    ReservedIsOngoing(c, states[i], steps[i]);
  }

  lemma LastOngoing(c: Codec, states: seq<Object>, i: nat, j: nat)
    requires i < j < |states| && IsOngoing(c, states[i]) && !IsOngoing(c, states[j])
    ensures exists k :: i <= k < j && IsOngoing(c, states[k]) && !IsOngoing(c, states[k + 1])
  {
    var k := i;
    while IsOngoing(c, states[k + 1])
      invariant i <= k < j && IsOngoing(c, states[k])
      decreases j - k
    {
      k := k + 1;
    }
  }

  /** At most one reservation is open: between two of them the version has been completed. */
  lemma ReservationsAlternate(c: Codec, states: seq<Object>, steps: seq<Step>, i: nat, j: nat)
    requires Faithful(c) && Run(c, states, steps) && i < j < |steps|
    requires Reserves(c, states[i], steps[i]) && Reserves(c, states[j], steps[j])
    ensures exists k :: i < k < j && IsOngoing(c, states[k]) && !IsOngoing(c, states[k + 1])
  {
    ReservedAt(c, states, steps, i);
    ReservedAt(c, states, steps, j);
    LastOngoing(c, states, i + 1, j);
  }

  /** Reserved by the step and not completed since. */
  ghost predicate OpenSince(c: Codec, states: seq<Object>, steps: seq<Step>, i: nat, j: nat) {
    && Run(c, states, steps) && i < j < |states| && Reserves(c, states[i], steps[i])
    && forall k :: i < k <= j ==> IsOngoing(c, states[k])
  }

  lemma StableAt(c: Codec, states: seq<Object>, steps: seq<Step>, k: nat, l: nat)
    requires Faithful(c) && Run(c, states, steps) && k < l < |states| && l == k + 1
    requires IsOngoing(c, states[k]) && IsOngoing(c, states[l])
    ensures states[l] == states[k]
  {
    OngoingIsStable(c, states[k], steps[k]);
  }

  lemma {:induction false} SameSince(states: seq<Object>, i: nat, j: nat)
    requires i <= j < |states| && forall k, l :: i <= k < l <= j && l == k + 1 ==> states[l] == states[k]
    ensures states[j] == states[i]
    decreases j
  {
    if i < j {
      SameSince(states, i, j - 1);
      assert states[j] == states[j - 1];
    }
  }

  /** The version as the reservation left it. */
  lemma StillReserved(c: Codec, states: seq<Object>, steps: seq<Step>, i: nat, j: nat)
    requires Faithful(c) && OpenSince(c, states, steps, i, j)
    ensures states[j] == states[i + 1] && states[i + 1] == After(c, states[i], steps[i]) && Sane(steps[i])
  {
    forall k, l | i + 1 <= k < l <= j && l == k + 1 ensures states[l] == states[k] { StableAt(c, states, steps, k, l); }
    SameSince(states, i + 1, j);
  }

  lemma DayOfWholeSecond(t: int)
    ensures Day(WholeSecond(t)) == Day(t)
  {
    var day, rest := t / DAY, t % DAY;
    var second := rest / SECOND;
    assert t == SECOND * (86_400 * day + second) + rest % SECOND;
    assert t / SECOND == 86_400 * day + second;
    assert WholeSecond(t) == DAY * day + SECOND * second;
  }

  /** Main result: however long the reservation has been open, recovery writes the deadline that follows
      from the day of the reservation itself. */
  lemma RecoveryKeepsDeadline(c: Codec, states: seq<Object>, steps: seq<Step>, i: nat, j: nat, copy: Copy)
    requires Faithful(c) && OpenSince(c, states, steps, i, j)
    ensures FinishRecovered(c, states[j], copy)
            == Finish(c, states[j], ExpectedExpiry(steps[i].now, steps[i].days), copy)
    ensures FinishRecovered(c, states[j], copy).Ok? <==> Fits(c.json, states[j], copy)
    ensures Fits(c.json, states[j], copy)
            ==> ParseHeader(c, FinishRecovered(c, states[j], copy).value.meta)
                == Expires(false, ExpectedExpiry(steps[i].now, steps[i].days))
    ensures Lasts(steps[i].now, steps[i].days, ExpectedExpiry(steps[i].now, steps[i].days))
  {
    StillReserved(c, states, steps, i, j);
    ReservedIsOngoing(c, states[i], steps[i]);
    DayOfWholeSecond(steps[i].now);
    DeadlineMade(steps[i].now, steps[i].days);
    DeadlineExactly(steps[i].now, steps[i].days);
    FinishedHeader(c, states[j], ExpectedExpiry(steps[i].now, steps[i].days), copy);
  }

  // ---- What each operation asks for and leaves ----

  /** A restore can be asked for exactly when it is for a day or more, the version is the one seen, its data is in the
      tier and not about to be deleted, and no restore is running. A copy that has not expired is only extended. */
  lemma BeginExactly(c: Codec, o: Object, expected: Object, now: int, days: int)
    requires Faithful(c) && Printable(now)
    ensures Begin(c, o, expected, now, days).Ok? <==>
            && days > 0 && o.status == Complete && o.modTime == expected.modTime && o.Tag() == expected.Tag()
            && (Intent in o.meta ==> o.meta[Intent] == "")
            && (RestoreHeader in o.meta ==>
                  var h := c.header(o.meta[RestoreHeader]); !h.Ongoing? && (h.Expires? ==> !h.ongoing))
    ensures Begin(c, o, expected, now, days).Ok? ==>
              var (o', already) := Begin(c, o, expected, now, days).value;
              var h := ParseHeader(c, o.meta);
              && (already <==> h.Expires? && now < h.expiry)
              && ParseHeader(c, o'.meta) == if already then Expires(false, ExpectedExpiry(now, days)) else Ongoing
  {
    if days > 0 { DeadlineMade(now, days); }
  }

  /** An expired copy is dropped exactly when its deadline has passed and nothing else claims the version. */
  lemma ExpireExactly(c: Codec, o: Object, now: int)
    ensures Expire(c, o, now).Ok? <==>
            && o.status == Complete && (Intent in o.meta ==> o.meta[Intent] == "") && RestoreHeader in o.meta
            && var h := c.header(o.meta[RestoreHeader]); h.Expires? && !h.ongoing && h.expiry <= now
    ensures Expire(c, o, now).Ok? ==> ParseHeader(c, Expire(c, o, now).value.meta) == Missing
  {}

  /** The worker of a request is content exactly when the version is the one seen and there is a copy already or one
      that fits can be written. */
  lemma FinishRequestExactly(c: Codec, o: Object, seen: Object, now: int, expiry: int, copy: Copy)
    requires Faithful(c)
    ensures FinishRequest(c, o, seen, now, expiry, copy).Ok? <==>
            && o.modTime == seen.modTime && o.Tag() == seen.Tag() && o.status == Complete
            && (IsRestored(c, o, now) || (!o.Deleting() && Fits(c.json, o, copy)))
  {
    if o.status == Complete { WriteBackExactly(c.json, o, copy, c.done(expiry)); }
  }

  /** The clock of the step, if it reads one, shows an earlier time. */
  predicate Before(step: Step, t: int) {
    match step
    case BeginStep(_, now, _) => now < t
    case RequestStep(_, now, _, _, _) => now < t
    case RecoverStep(_) => true
    case ExpireStep(now) => now < t
  }

  /** The step reads an earlier time and is not another request that is granted. */
  predicate Calm(c: Codec, o: Object, step: Step, t: int) {
    Before(step, t) && (step.BeginStep? ==> !Begin(c, o, step.expected, step.now, step.days).Ok?)
  }

  lemma CalmStep(c: Codec, o: Object, step: Step, expiry: int)
    requires ParseHeader(c, o.meta) == Expires(false, expiry) && Calm(c, o, step, expiry)
    ensures After(c, o, step) == o
  {}

  lemma CalmAt(c: Codec, states: seq<Object>, steps: seq<Step>, j: nat, expiry: int)
    requires Run(c, states, steps) && 0 < j < |states| && ParseHeader(c, states[j - 1].meta) == Expires(false, expiry)
    requires Calm(c, states[j - 1], steps[j - 1], expiry)
    ensures states[j] == states[j - 1]
  {
    assert states[j - 1 + 1] == After(c, states[j - 1], steps[j - 1]);
    CalmStep(c, states[j - 1], steps[j - 1], expiry);
  }

  ghost predicate CalmBetween(c: Codec, states: seq<Object>, steps: seq<Step>, i: nat, j: nat, expiry: int)
    requires j <= |steps| < |states|
  {
    forall k :: i <= k < j ==> Calm(c, states[k], steps[k], expiry)
  }

  /** Nothing touches a restored copy before its deadline but another request for it. */
  lemma {:induction false} CopyLasts(c: Codec, states: seq<Object>, steps: seq<Step>, i: nat, j: nat, expiry: int)
    requires Run(c, states, steps) && i <= j < |states| && ParseHeader(c, states[i].meta) == Expires(false, expiry)
    requires CalmBetween(c, states, steps, i, j, expiry)
    ensures states[j] == states[i]
    decreases j
  {
    if i < j {
      CopyLasts(c, states, steps, i, j - 1, expiry);
      CalmAt(c, states, steps, j, expiry);
    }
  }

  // ---- Two clock readings ----

  /** The deadline is the last printable day. */
  predicate Capped(t: int, days: int) { days + 1 >= LAST_DAY - Day(t) }

  lemma DeadlinesEqual(s: int, t: int, days: int)
    requires Printable(s) && Printable(t) && days > 0
    ensures ExpectedExpiry(s, days) == ExpectedExpiry(t, days)
       <==> Day(s) == Day(t) || (Capped(s, days) && Capped(t, days))
  {
    DayBounds(s);
    DayBounds(t);
    MidnightIsDay(ExpiryDay(Day(s), days));
    MidnightIsDay(ExpiryDay(Day(t), days));
  }

  lemma RequestWrites(c: Codec, o: Object, seen: Object, now: int, handled: int, days: int, copy: Copy)
    requires Faithful(c) && IsOngoing(c, o) && o.status == Complete && !o.Deleting() && days > 0 && Printable(handled)
    requires seen.modTime == o.modTime && seen.Tag() == o.Tag()
    ensures var expiry := ExpectedExpiry(handled, days);
            var reply := FinishRequest(c, o, seen, now, expiry, copy);
            && reply == Finish(c, o, expiry, copy) && (reply.Ok? <==> Fits(c.json, o, copy))
            && (reply.Ok? ==> ParseHeader(c, reply.value.meta) == Expires(false, expiry))
  {
    DeadlineMade(handled, days);
    FinishedHeader(c, o, ExpectedExpiry(handled, days), copy);
  }

  /** The handler reads the clock before the reservation does. The worker it starts and the scanner leave the
      same version behind exactly when the copy cannot be written, both readings fall on one UTC day, or both deadlines
      are capped. */
  lemma DeadlinesAgreeExactly(c: Codec, states: seq<Object>, steps: seq<Step>, i: nat, j: nat, seen: Object, now: int,
                              handled: int, copy: Copy)
    requires Faithful(c) && OpenSince(c, states, steps, i, j) && Printable(handled)
    requires seen.modTime == states[j].modTime && seen.Tag() == states[j].Tag()
    ensures var days := steps[i].days;
            FinishRequest(c, states[j], seen, now, ExpectedExpiry(handled, days), copy)
            == FinishRecovered(c, states[j], copy) <==>
            || !Fits(c.json, states[j], copy) || Day(handled) == Day(steps[i].now)
            || (Capped(handled, days) && Capped(steps[i].now, days))
  {
    var days := steps[i].days;
    RecoveryKeepsDeadline(c, states, steps, i, j, copy);
    StillReserved(c, states, steps, i, j);
    ReservedIsOngoing(c, states[i], steps[i]);
    RequestWrites(c, states[j], seen, now, handled, days, copy);
    DeadlinesEqual(handled, steps[i].now, days);
  }

  const HANDLED := 20_000 * DAY - SECOND
  const RESERVED := 20_000 * DAY + SECOND

  lemma AcrossMidnight()
    ensures Printable(HANDLED) && Printable(RESERVED)
    ensures ExpectedExpiry(HANDLED, 7) == 20_007 * DAY && ExpectedExpiry(RESERVED, 7) == 20_008 * DAY
  {}

  lemma RunOfTwo(c: Codec, o: Object, a: Step, b: Step)
    requires Sane(a) && Sane(b)
    ensures Run(c, [o, After(c, o, a), After(c, After(c, o, a), b)], [a, b])
  {}

  lemma ReservedFits(c: Codec, o: Object, reserve: Step, copy: Copy)
    requires Exact(c.json) && Reserves(c, o, reserve) && Fits(c.json, o, copy)
    ensures Fits(c.json, After(c, o, reserve), copy)
  {
    BeginKeeps(c, o, reserve.expected, reserve.now, reserve.days, EntityTag);
  }

  lemma RecoveredAfter(c: Codec, o: Object, reserve: Step, copy: Copy)
    requires Faithful(c) && Sane(reserve) && Reserves(c, o, reserve) && Fits(c.json, o, copy)
    ensures ParseHeader(c, After(c, After(c, o, reserve), RecoverStep(copy)).meta)
            == Expires(false, ExpectedExpiry(reserve.now, reserve.days))
  {
    ReservedIsOngoing(c, o, reserve);
    ReservedFits(c, o, reserve, copy);
    RunOfTwo(c, o, reserve, RecoverStep(copy));
    var o1 := After(c, o, reserve);
    var states, steps := [o, o1, After(c, o1, RecoverStep(copy))], [reserve, RecoverStep(copy)];
    assert OpenSince(c, states, steps, 0, 1);
    RecoveryKeepsDeadline(c, states, steps, 0, 1, copy);
  }

  /** Handled one second before midnight and reserved one second after: the run in which the worker finishes ends
      with one deadline, the run in which the process died first with one a day later. */
  lemma DeadlinesDisagreeAcrossMidnight(c: Codec, o: Object, seen: Object, copy: Copy)
    requires Faithful(c) && Reserves(c, o, BeginStep(seen, RESERVED, 7)) && Fits(c.json, o, copy)
    ensures var reserve, finish := BeginStep(seen, RESERVED, 7), RequestStep(seen, RESERVED, HANDLED, 7, copy);
            var o1, recover := After(c, o, reserve), RecoverStep(copy);
            && Run(c, [o, o1, After(c, o1, finish)], [reserve, finish])
            && Run(c, [o, o1, After(c, o1, recover)], [reserve, recover])
            && ParseHeader(c, After(c, o1, finish).meta) == Expires(false, 20_007 * DAY)
            && ParseHeader(c, After(c, o1, recover).meta) == Expires(false, 20_008 * DAY)
  {
    AcrossMidnight();
    var reserve, finish := BeginStep(seen, RESERVED, 7), RequestStep(seen, RESERVED, HANDLED, 7, copy);
    RunOfTwo(c, o, reserve, finish);
    RunOfTwo(c, o, reserve, RecoverStep(copy));
    ReservedIsOngoing(c, o, reserve);
    ReservedFits(c, o, reserve, copy);
    BeginKeeps(c, o, seen, RESERVED, 7, EntityTag);
    RecoveredAfter(c, o, reserve, copy);
    RequestWrites(c, After(c, o, reserve), seen, RESERVED, HANDLED, 7, copy);
  }

  /** Such a version, moved, never restored and not being deleted, and a copy that fits it; its `expires` entry does
      not survive the run. */
  lemma ReservableInstance(c: Codec)
    ensures var meta := map[EntityTag := "e", ExpiresHeader := "Thu, 01 Jan 2099 00:00:00 GMT"];
            var o := Object(0, 1, Complete, [Part("", 1, 1, 1)], meta);
            && Reserves(c, o, BeginStep(o, RESERVED, 7)) && Fits(c.json, o, Copy(1, "m", "", ""))
            && Look(o.meta, ExpiresHeader) != ""
  {
    var parts := [Part("", 1, 1, 1)];
    assert parts[..0] == [] && parts[..1] == parts;
    assert Total(parts) == Total(parts[..0]) + 1;
  }
}
