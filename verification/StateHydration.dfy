// src/client/stellarClient.ts: exporting the pending transactions of a client to a
// JSON-safe snapshot and importing them again, with tagged dates.
module StateHydration {
  import opened Wrappers
  import opened OrderedSets

  // A value of a simulation context. A Date holds its instant, None when invalid;
  // an object lists its fields in order.
  datatype Value =
    | Str(s: string)
    | Num(n: int)
    | Bool(b: bool)
    | Null
    | Date(instant: Option<int>)
    | Arr(items: seq<Value>)
    | Obj(fields: seq<Field>)

  datatype Field = Field(key: string, value: Value)

  // Date.toISOString and the Date parser.
  datatype DateCodec = DateCodec(iso: int -> string, parse: string -> Option<int>)

  ghost predicate RoundTrips(c: DateCodec) {
    forall t :: c.parse(c.iso(t)) == Some(t)
  }

  const DATE_MARKER := "__date"

  datatype FreezeError = InvalidDate

  // ---------- Freezing and thawing ----------

  function FreezeDates(c: DateCodec, v: Value): Result<Value, FreezeError>
    decreases v, 1
  {
    match v
    case Date(None) => Err(InvalidDate)
    case Date(Some(t)) => Ok(Obj([Field(DATE_MARKER, Str(c.iso(t)))]))
    case Arr(items) =>
      var r := FreezeItems(c, items);
      if r.Err? then Err(r.error) else Ok(Arr(r.value))
    case Obj(fields) =>
      var r := FreezeFields(c, fields);
      if r.Err? then Err(r.error) else Ok(Obj(r.value))
    case _ => Ok(v)
  }

  function FreezeItems(c: DateCodec, items: seq<Value>): Result<seq<Value>, FreezeError>
    decreases items, 0
  {
    if items == [] then Ok([])
    else
      var first := FreezeDates(c, items[0]);
      var rest := FreezeItems(c, items[1..]);
      if first.Err? then Err(first.error) else if rest.Err? then rest else Ok([first.value] + rest.value)
  }

  function FreezeFields(c: DateCodec, fields: seq<Field>): Result<seq<Field>, FreezeError>
    decreases fields, 0
  {
    if fields == [] then Ok([])
    else
      var first := FreezeDates(c, fields[0].value);
      var rest := FreezeFields(c, fields[1..]);
      if first.Err? then Err(first.error) else if rest.Err? then rest
      else Ok([Field(fields[0].key, first.value)] + rest.value)
  }

  // An object with the marker as its only field, holding a parseable string.
  predicate IsMarker(c: DateCodec, fields: seq<Field>) {
    |fields| == 1 && fields[0].key == DATE_MARKER && fields[0].value.Str? && c.parse(fields[0].value.s).Some?
  }

  function ThawDates(c: DateCodec, v: Value): Value
    decreases v, 1
  {
    match v
    case Arr(items) => Arr(ThawItems(c, items))
    case Obj(fields) =>
      if IsMarker(c, fields) then Date(c.parse(fields[0].value.s)) else Obj(ThawFields(c, fields))
    case _ => v
  }

  function ThawItems(c: DateCodec, items: seq<Value>): seq<Value>
    decreases items, 0
  {
    if items == [] then [] else [ThawDates(c, items[0])] + ThawItems(c, items[1..])
  }

  function ThawFields(c: DateCodec, fields: seq<Field>): seq<Field>
    decreases fields, 0
  {
    if fields == [] then []
    else [Field(fields[0].key, ThawDates(c, fields[0].value))] + ThawFields(c, fields[1..])
  }

  // ---------- What a value must not contain ----------

  ghost predicate DatesValid(v: Value) {
    match v
    case Date(t) => t.Some?
    case Arr(items) => forall x :: x in items ==> DatesValid(x)
    case Obj(fields) => forall f :: f in fields ==> DatesValid(f.value)
    case _ => true
  }

  ghost predicate NoDates(v: Value) {
    match v
    case Date(_) => false
    case Arr(items) => forall x :: x in items ==> NoDates(x)
    case Obj(fields) => forall f :: f in fields ==> NoDates(f.value)
    case _ => true
  }

  // No object of the value already looks like a date marker.
  ghost predicate NoForgedMarker(c: DateCodec, v: Value) {
    match v
    case Arr(items) => forall x :: x in items ==> NoForgedMarker(c, x)
    case Obj(fields) => !IsMarker(c, fields) && forall f :: f in fields ==> NoForgedMarker(c, f.value)
    case _ => true
  }

  // ---------- The round trip ----------

  // Freezing fails exactly on invalid dates and leaves no date behind; thawing the
  // result gives the value back exactly when it contained no forged marker.
  lemma {:induction false} ThawFreezeIff(c: DateCodec, v: Value)
    requires RoundTrips(c)
    ensures FreezeDates(c, v).Ok? <==> DatesValid(v)
    ensures FreezeDates(c, v).Ok? ==>
      && NoDates(FreezeDates(c, v).value)
      && (ThawDates(c, FreezeDates(c, v).value) == v <==> NoForgedMarker(c, v))
    decreases v, 1
  {
    match v
    case Date(Some(t)) =>
      assert c.parse(c.iso(t)) == Some(t);
    case Arr(items) =>
      ThawFreezeItems(c, items);
    case Obj(fields) =>
      ThawFreezeFields(c, fields);
      if FreezeFields(c, fields).Ok? {
        MarkerSurvives(c, fields);
      }
    case _ =>
  }

  lemma {:induction false} ThawFreezeItems(c: DateCodec, items: seq<Value>)
    requires RoundTrips(c)
    ensures FreezeItems(c, items).Ok? <==> forall x :: x in items ==> DatesValid(x)
    ensures FreezeItems(c, items).Ok? ==>
      && (forall x :: x in FreezeItems(c, items).value ==> NoDates(x))
      && (ThawItems(c, FreezeItems(c, items).value) == items <==> forall x :: x in items ==> NoForgedMarker(c, x))
    decreases items, 0
  {
    if items != [] {
      ThawFreezeIff(c, items[0]);
      ThawFreezeItems(c, items[1..]);
      assert forall x :: x in items <==> x == items[0] || x in items[1..];
      assert items == [items[0]] + items[1..];
    }
  }

  lemma {:induction false} ThawFreezeFields(c: DateCodec, fields: seq<Field>)
    requires RoundTrips(c)
    ensures FreezeFields(c, fields).Ok? <==> forall f :: f in fields ==> DatesValid(f.value)
    ensures FreezeFields(c, fields).Ok? ==>
      && (forall f :: f in FreezeFields(c, fields).value ==> NoDates(f.value))
      && (ThawFields(c, FreezeFields(c, fields).value) == fields <==>
            forall f :: f in fields ==> NoForgedMarker(c, f.value))
    decreases fields, 0
  {
    if fields != [] {
      ThawFreezeIff(c, fields[0].value);
      ThawFreezeFields(c, fields[1..]);
      assert forall f :: f in fields <==> f == fields[0] || f in fields[1..];
      assert fields == [fields[0]] + fields[1..];
      assert fields[0] == Field(fields[0].key, fields[0].value);
    }
  }

  // A frozen object is a marker just when the object was one already.
  lemma MarkerSurvives(c: DateCodec, fields: seq<Field>)
    requires FreezeFields(c, fields).Ok?
    ensures IsMarker(c, FreezeFields(c, fields).value) <==> IsMarker(c, fields)
  {
    if |fields| == 1 {
      assert fields[1..] == [];
    } else if |fields| > 1 {
      assert FreezeFields(c, fields[1..]).value != [];
    }
  }

  // ---------- Pending transactions ----------

  // Instants and durations are in milliseconds.
  datatype Tracked = Tracked(
    hash: string,
    context: Option<Value>,
    submittedAt: int,
    intervalMs: int,
    deadline: int,
    txLabel: Option<string>)

  datatype Serialized = Serialized(
    hash: string,
    context: Option<Value>,
    submittedAt: string,
    intervalMs: int,
    deadline: string,
    txLabel: Option<string>)

  // An entry of a snapshot as read back, with None for a field of a wrong type.
  datatype RawEntry =
    | NotAnObject
    | RawEntry(hash: Option<string>, context: Option<Value>, intervalMs: Option<int>, deadline: Option<string>,
               txLabel: Option<string>)

  // A snapshot as read back; pending is None when it is not an array.
  datatype RawState = NoObject | RawState(version: Option<int>, pending: Option<seq<RawEntry>>)

  datatype HydrationError = InvalidState | UnsupportedVersion | PendingNotArray

  const HYDRATION_STATE_VERSION := 1
  const DEFAULT_INTERVAL_MS := 1_000
  const DEFAULT_TIMEOUT_MS := 30_000

  function Hashes(pending: seq<Tracked>): (r: seq<string>)
    ensures |r| == |pending| && forall i :: 0 <= i < |r| ==> r[i] == pending[i].hash
  {
    if pending == [] then [] else [pending[0].hash] + Hashes(pending[1..])
  }

  function FreezeContext(c: DateCodec, context: Option<Value>): Result<Option<Value>, FreezeError> {
    if context.None? then Ok(None)
    else
      var r := FreezeDates(c, context.value);
      if r.Err? then Err(r.error) else Ok(Some(r.value))
  }

  function ThawContext(c: DateCodec, context: Option<Value>): Option<Value> {
    if context.None? then None else Some(ThawDates(c, context.value))
  }

  function SerializeOne(c: DateCodec, t: Tracked): Result<Serialized, FreezeError> {
    var r := FreezeContext(c, t.context);
    if r.Err? then Err(r.error)
    else Ok(Serialized(t.hash, r.value, c.iso(t.submittedAt), t.intervalMs, c.iso(t.deadline), t.txLabel))
  }

  function ExportAll(c: DateCodec, pending: seq<Tracked>): Result<seq<Serialized>, FreezeError> {
    if pending == [] then Ok([])
    else
      var first := SerializeOne(c, pending[0]);
      var rest := ExportAll(c, pending[1..]);
      if first.Err? then Err(first.error) else if rest.Err? then rest else Ok([first.value] + rest.value)
  }

  // A serialized entry as the importer sees it.
  function ReadBack(s: Serialized): RawEntry {
    RawEntry(Some(s.hash), s.context, Some(s.intervalMs), Some(s.deadline), s.txLabel)
  }

  function ReadAllBack(entries: seq<Serialized>): seq<RawEntry> {
    if entries == [] then [] else [ReadBack(entries[0])] + ReadAllBack(entries[1..])
  }

  // What an entry restores at the given time, if anything.
  function Restorable(c: DateCodec, e: RawEntry, now: int): Option<Tracked> {
    if e.NotAnObject? || e.hash.None? || e.hash.value == "" || e.deadline.None? then None
    else
      match c.parse(e.deadline.value)
      case None => None
      case Some(deadline) =>
        if deadline <= now then None
        else
          var interval :=
            if e.intervalMs.Some? && e.intervalMs.value > 0 then e.intervalMs.value else DEFAULT_INTERVAL_MS;
          Some(Tracked(e.hash.value, ThawContext(c, e.context), now, interval, deadline, e.txLabel))
  }

  predicate IsTracked(pending: seq<Tracked>, e: RawEntry) {
    e.RawEntry? && e.hash.Some? && e.hash.value in Hashes(pending)
  }

  function ImportOne(c: DateCodec, pending: seq<Tracked>, e: RawEntry, now: int): seq<Tracked> {
    if IsTracked(pending, e) || Restorable(c, e, now).None? then pending
    else pending + [Restorable(c, e, now).value]
  }

  function ImportAll(c: DateCodec, pending: seq<Tracked>, entries: seq<RawEntry>, now: int): seq<Tracked>
    decreases |entries|
  {
    if entries == [] then pending else ImportAll(c, ImportOne(c, pending, entries[0], now), entries[1..], now)
  }

  function Lookup(pending: seq<Tracked>, hash: string): (t: Tracked)
    requires hash in Hashes(pending)
    ensures t in pending && t.hash == hash
  {
    if pending[0].hash == hash then pending[0] else Lookup(pending[1..], hash)
  }

  // What importing an entry hands back: the transaction now tracked under its hash.
  function RestoredOne(pending: seq<Tracked>, e: RawEntry): Option<Tracked> {
    if e.RawEntry? && e.hash.Some? && e.hash.value != "" && e.hash.value in Hashes(pending)
    then Some(Lookup(pending, e.hash.value))
    else None
  }

  function RestoredAll(c: DateCodec, pending: seq<Tracked>, entries: seq<RawEntry>, now: int): seq<Tracked>
    decreases |entries|
  {
    if entries == [] then []
    else
      var next := ImportOne(c, pending, entries[0], now);
      var one := RestoredOne(next, entries[0]);
      Listed(one) + RestoredAll(c, next, entries[1..], now)
  }

  function Listed(one: Option<Tracked>): seq<Tracked> {
    if one.Some? then [one.value] else []
  }

  lemma RestoredStep(c: DateCodec, pending: seq<Tracked>, entries: seq<RawEntry>, now: int, restored: seq<Tracked>)
    requires entries != []
    ensures var next := ImportOne(c, pending, entries[0], now);
      && ImportAll(c, pending, entries, now) == ImportAll(c, next, entries[1..], now)
      && restored + RestoredAll(c, pending, entries, now)
         == (restored + Listed(RestoredOne(next, entries[0]))) + RestoredAll(c, next, entries[1..], now)
  {
    var next := ImportOne(c, pending, entries[0], now);
    var one, rest := Listed(RestoredOne(next, entries[0])), RestoredAll(c, next, entries[1..], now);
    assert RestoredAll(c, pending, entries, now) == one + rest;
    Regrouped(restored, one, rest);
  }

  lemma Regrouped(a: seq<Tracked>, b: seq<Tracked>, c: seq<Tracked>)
    ensures a + (b + c) == (a + b) + c
  {
  }

  lemma {:induction false} LookupIsUnique(pending: seq<Tracked>, t: Tracked)
    requires NoDuplicates(Hashes(pending)) && t in pending
    ensures t.hash in Hashes(pending) && Lookup(pending, t.hash) == t
  {
    var i :| 0 <= i < |pending| && pending[i] == t;
    assert Hashes(pending)[i] == t.hash;
    if i > 0 {
      assert Hashes(pending)[0] != Hashes(pending)[i];
      assert Hashes(pending)[1..] == Hashes(pending[1..]);
      LookupIsUnique(pending[1..], t);
    }
  }

  // ---------- What an export holds ----------

  // Exporting fails exactly when some context holds an invalid date. Otherwise every
  // entry carries the fields of its transaction, with dates that can be read back.
  lemma {:induction false} ExportIs(c: DateCodec, pending: seq<Tracked>)
    requires RoundTrips(c)
    ensures ExportAll(c, pending).Err? <==>
            exists i :: 0 <= i < |pending| && pending[i].context.Some? && !DatesValid(pending[i].context.value)
    ensures ExportAll(c, pending).Ok? ==>
      && |ExportAll(c, pending).value| == |pending|
      && forall i :: 0 <= i < |pending| ==> Carries(c, ExportAll(c, pending).value[i], pending[i])
  {
    if pending != [] {
      ExportIs(c, pending[1..]);
      OneExported(c, pending[0]);
      assert forall i :: 0 < i < |pending| ==> pending[i] == pending[1..][i - 1];
      assert forall i :: 0 <= i < |pending| - 1 ==> pending[1..][i] == pending[i + 1];
    }
  }

  ghost predicate Carries(c: DateCodec, s: Serialized, t: Tracked) {
    && s.hash == t.hash && s.intervalMs == t.intervalMs && s.txLabel == t.txLabel
    && c.parse(s.submittedAt) == Some(t.submittedAt) && c.parse(s.deadline) == Some(t.deadline)
    && s.context.Some? == t.context.Some?
    && (t.context.Some? ==> NoDates(s.context.value))
    && (t.context.Some? && NoForgedMarker(c, t.context.value) ==> ThawDates(c, s.context.value) == t.context.value)
  }

  lemma OneExported(c: DateCodec, t: Tracked)
    requires RoundTrips(c)
    ensures SerializeOne(c, t).Err? <==> t.context.Some? && !DatesValid(t.context.value)
    ensures SerializeOne(c, t).Ok? ==> Carries(c, SerializeOne(c, t).value, t)
  {
    assert c.parse(c.iso(t.submittedAt)) == Some(t.submittedAt) && c.parse(c.iso(t.deadline)) == Some(t.deadline);
    if t.context.Some? {
      ThawFreezeIff(c, t.context.value);
    }
  }

  // ---------- What an import of any snapshot does ----------

  // An entry can be restored when it has a hash and a readable deadline still ahead.
  ghost predicate HasTimeLeft(c: DateCodec, e: RawEntry, now: int) {
    && e.RawEntry? && e.hash.Some? && e.hash.value != "" && e.deadline.Some?
    && c.parse(e.deadline.value).Some? && c.parse(e.deadline.value).value > now
  }

  // It then starts anew, with the default interval in place of one that is missing or
  // not positive.
  lemma RestorableIff(c: DateCodec, e: RawEntry, now: int)
    ensures Restorable(c, e, now).Some? <==> HasTimeLeft(c, e, now)
    ensures HasTimeLeft(c, e, now) ==>
      var t := Restorable(c, e, now).value;
      && t.hash == e.hash.value && t.submittedAt == now && c.parse(e.deadline.value) == Some(t.deadline)
      && t.txLabel == e.txLabel && t.context == ThawContext(c, e.context)
      && t.intervalMs == (if e.intervalMs.Some? && e.intervalMs.value > 0 then e.intervalMs.value else 1_000)
  {
  }

  // What was tracked stays, in its place; a hash is tracked afterwards exactly when it
  // was before or some entry with it can be restored, and each new transaction comes
  // from such an entry.
  lemma {:induction false} ImportTracksIff(c: DateCodec, pending: seq<Tracked>, entries: seq<RawEntry>, now: int)
    ensures var after := ImportAll(c, pending, entries, now);
      && pending <= after
      && (forall h :: h in Hashes(after) <==> h in Hashes(pending) || Brings(c, entries, h, now))
      && (forall i :: |pending| <= i < |after| ==> RestoredFrom(c, entries, after[i], now))
    decreases |entries|
  {
    if entries != [] {
      var e, rest := entries[0], entries[1..];
      var next := ImportOne(c, pending, e, now);
      RestorableIff(c, e, now);
      ImportTracksIff(c, next, rest, now);
      if next != pending {
        HashesConcat(pending, [Restorable(c, e, now).value]);
        assert Hashes([Restorable(c, e, now).value]) == [e.hash.value];
      }
      assert forall x :: x in entries <==> x == e || x in rest;
      forall h
        ensures Brings(c, entries, h, now) <==> BringsOne(c, e, h, now) || Brings(c, rest, h, now)
      {
      }
    }
  }

  ghost predicate BringsOne(c: DateCodec, e: RawEntry, hash: string, now: int) {
    HasTimeLeft(c, e, now) && e.hash.value == hash
  }

  ghost predicate Brings(c: DateCodec, entries: seq<RawEntry>, hash: string, now: int) {
    exists e :: e in entries && BringsOne(c, e, hash, now)
  }

  ghost predicate RestoredFrom(c: DateCodec, entries: seq<RawEntry>, t: Tracked, now: int) {
    exists e :: e in entries && Restorable(c, e, now) == Some(t)
  }

  // ---------- Export, then import into a fresh client ----------

  // The transactions with a hash and time left; their submission time starts anew.
  function Survivors(pending: seq<Tracked>, now: int): seq<Tracked> {
    if pending == [] then []
    else
      var p := pending[0];
      (if p.hash != "" && p.deadline > now
       then [p.(submittedAt := now, intervalMs := if p.intervalMs > 0 then p.intervalMs else DEFAULT_INTERVAL_MS)]
       else [])
      + Survivors(pending[1..], now)
  }

  ghost predicate CleanContext(c: DateCodec, t: Tracked) {
    t.context.Some? ==> NoForgedMarker(c, t.context.value)
  }

  ghost predicate AllClean(c: DateCodec, pending: seq<Tracked>) {
    forall i :: 0 <= i < |pending| ==> CleanContext(c, pending[i])
  }

  // None of the transactions with a hash is tracked in before.
  ghost predicate Unknown(before: seq<Tracked>, pending: seq<Tracked>) {
    forall i :: 0 <= i < |pending| ==> pending[i].hash == "" || pending[i].hash !in Hashes(before)
  }

  // Importing an export restores exactly the surviving transactions, with context,
  // deadline, label and positive interval intact.
  lemma {:induction false} ImportRestoresExport(c: DateCodec, before: seq<Tracked>, pending: seq<Tracked>, now: int)
    requires RoundTrips(c) && NoDuplicates(Hashes(pending))
    requires ExportAll(c, pending).Ok? && AllClean(c, pending)
    requires Unknown(before, pending) && "" !in Hashes(before)
    ensures ImportAll(c, before, ReadAllBack(ExportAll(c, pending).value), now) == before + Survivors(pending, now)
    decreases |pending|
  {
    if pending != [] {
      var p, rest := pending[0], pending[1..];
      assert pending == [p] + rest;
      FirstImported(c, before, pending, now);
      SurvivorsSplit(before, p, rest, now);
      UnknownRest(before, p, rest, now);
      ImportRestoresExport(c, before + Survivors([p], now), rest, now);
    } else {
      assert before + [] == before;
    }
  }

  lemma FirstImported(c: DateCodec, before: seq<Tracked>, pending: seq<Tracked>, now: int)
    requires RoundTrips(c) && pending != []
    requires ExportAll(c, pending).Ok? && CleanContext(c, pending[0])
    requires pending[0].hash == "" || pending[0].hash !in Hashes(before)
    ensures ImportAll(c, before, ReadAllBack(ExportAll(c, pending).value), now)
            == ImportAll(c, before + Survivors([pending[0]], now), ReadAllBack(ExportAll(c, pending[1..]).value), now)
  {
    RestoresOne(c, pending[0], now);
    ReadBackCons(c, pending);
    assert before + [] == before;
  }

  lemma SurvivorsSplit(before: seq<Tracked>, p: Tracked, rest: seq<Tracked>, now: int)
    ensures before + Survivors([p] + rest, now) == (before + Survivors([p], now)) + Survivors(rest, now)
  {
    SurvivorsCons(p, rest, now);
  }

  // A fresh client ends with the surviving transactions and nothing else.
  lemma FreshImportRestoresExport(c: DateCodec, pending: seq<Tracked>, now: int)
    requires RoundTrips(c) && NoDuplicates(Hashes(pending))
    requires ExportAll(c, pending).Ok? && AllClean(c, pending)
    ensures ImportAll(c, [], ReadAllBack(ExportAll(c, pending).value), now) == Survivors(pending, now)
  {
    ImportRestoresExport(c, [], pending, now);
    assert [] + Survivors(pending, now) == Survivors(pending, now);
  }

  // What such an import hands back is the surviving transactions too.
  lemma FreshImportReturnsSurvivors(c: DateCodec, pending: seq<Tracked>, now: int)
    requires RoundTrips(c) && NoDuplicates(Hashes(pending))
    requires ExportAll(c, pending).Ok? && AllClean(c, pending)
    ensures RestoredAll(c, [], ReadAllBack(ExportAll(c, pending).value), now) == Survivors(pending, now)
  {
    RestoredAreSurvivors(c, [], pending, now);
  }

  lemma {:induction false} RestoredAreSurvivors(c: DateCodec, before: seq<Tracked>, pending: seq<Tracked>, now: int)
    requires RoundTrips(c) && NoDuplicates(Hashes(pending)) && NoDuplicates(Hashes(before))
    requires ExportAll(c, pending).Ok? && AllClean(c, pending)
    requires Unknown(before, pending) && "" !in Hashes(before)
    ensures RestoredAll(c, before, ReadAllBack(ExportAll(c, pending).value), now) == Survivors(pending, now)
    decreases |pending|
  {
    if pending != [] {
      var p, rest := pending[0], pending[1..];
      assert pending == [p] + rest;
      FirstRestored(c, before, pending, now);
      SurvivorsCons(p, rest, now);
      UnknownRest(before, p, rest, now);
      RestoredAreSurvivors(c, before + Survivors([p], now), rest, now);
    }
  }

  lemma FirstRestored(c: DateCodec, before: seq<Tracked>, pending: seq<Tracked>, now: int)
    requires RoundTrips(c) && pending != [] && NoDuplicates(Hashes(before)) && "" !in Hashes(before)
    requires ExportAll(c, pending).Ok? && CleanContext(c, pending[0])
    requires pending[0].hash == "" || pending[0].hash !in Hashes(before)
    ensures NoDuplicates(Hashes(before + Survivors([pending[0]], now)))
    ensures RestoredAll(c, before, ReadAllBack(ExportAll(c, pending).value), now)
            == Survivors([pending[0]], now)
               + RestoredAll(c, before + Survivors([pending[0]], now),
                             ReadAllBack(ExportAll(c, pending[1..]).value), now)
  {
    var p := pending[0];
    RestoresOne(c, p, now);
    ReadBackCons(c, pending);
    OneHandedBack(c, before, p, now);
  }

  lemma OneHandedBack(c: DateCodec, before: seq<Tracked>, p: Tracked, now: int)
    requires RoundTrips(c) && SerializeOne(c, p).Ok? && CleanContext(c, p)
    requires NoDuplicates(Hashes(before)) && "" !in Hashes(before)
    requires p.hash == "" || p.hash !in Hashes(before)
    ensures var e := ReadBack(SerializeOne(c, p).value);
      var next := before + Survivors([p], now);
      && ImportOne(c, before, e, now) == next && NoDuplicates(Hashes(next))
      && Listed(RestoredOne(next, e)) == Survivors([p], now)
  {
    RestoresOne(c, p, now);
    var one := Survivors([p], now);
    if one == [] {
      assert before + one == before;
    } else {
      AppendHash(before, one[0]);
      assert one[0] in before + one;
      LookupIsUnique(before + one, one[0]);
    }
  }

  lemma ReadBackCons(c: DateCodec, pending: seq<Tracked>)
    requires pending != [] && ExportAll(c, pending).Ok?
    ensures var entries := ReadAllBack(ExportAll(c, pending).value);
      && entries != []
      && entries[0] == ReadBack(SerializeOne(c, pending[0]).value)
      && entries[1..] == ReadAllBack(ExportAll(c, pending[1..]).value)
  {
    var first, rest := SerializeOne(c, pending[0]).value, ExportAll(c, pending[1..]).value;
    assert ([first] + rest)[1..] == rest;
  }

  lemma SurvivorsCons(p: Tracked, rest: seq<Tracked>, now: int)
    ensures Survivors([p] + rest, now) == Survivors([p], now) + Survivors(rest, now)
  {
    assert ([p] + rest)[1..] == rest && [p][1..] == [];
  }

  lemma UnknownRest(before: seq<Tracked>, p: Tracked, rest: seq<Tracked>, now: int)
    requires NoDuplicates(Hashes([p] + rest)) && Unknown(before, [p] + rest) && "" !in Hashes(before)
    ensures NoDuplicates(Hashes(rest))
    ensures Unknown(before + Survivors([p], now), rest) && "" !in Hashes(before + Survivors([p], now))
  {
    var all, one := Hashes([p] + rest), Survivors([p], now);
    assert all == [p.hash] + Hashes(rest);
    HashesConcat(before, one);
    OneSurvivor(p, now);
    forall i | 0 <= i < |rest|
      ensures rest[i].hash == "" || rest[i].hash !in Hashes(before + one)
    {
      assert rest[i] == ([p] + rest)[i + 1];
      assert all[0] != all[i + 1];
    }
    assert forall i, j :: 0 <= i < j < |rest| ==> Hashes(rest)[i] == all[i + 1] && Hashes(rest)[j] == all[j + 1];
  }

  lemma OneSurvivor(p: Tracked, now: int)
    ensures forall x :: x in Hashes(Survivors([p], now)) ==> x == p.hash && x != ""
  {
    assert [p][1..] == [];
    assert |Survivors([p], now)| <= 1;
  }

  lemma RestoresOne(c: DateCodec, p: Tracked, now: int)
    requires RoundTrips(c) && SerializeOne(c, p).Ok? && CleanContext(c, p)
    ensures var r := Restorable(c, ReadBack(SerializeOne(c, p).value), now);
      Survivors([p], now) == if r.None? then [] else [r.value]
  {
    assert [p][1..] == [];
    assert c.parse(c.iso(p.deadline)) == Some(p.deadline);
    if p.context.Some? {
      ThawFreezeIff(c, p.context.value);
    }
  }

  lemma HashesConcat(a: seq<Tracked>, b: seq<Tracked>)
    ensures forall x :: x in Hashes(a + b) <==> x in Hashes(a) || x in Hashes(b)
  {
    assert forall i :: 0 <= i < |a| ==> Hashes(a + b)[i] == Hashes(a)[i];
    assert forall i :: 0 <= i < |b| ==> Hashes(a + b)[|a| + i] == Hashes(b)[i];
  }

  // ---------- Importing twice ----------

  ghost predicate Settled(c: DateCodec, pending: seq<Tracked>, e: RawEntry, now: int) {
    IsTracked(pending, e) || Restorable(c, e, now).None?
  }

  // Importing any snapshot a second time, while what it restored is still tracked,
  // changes nothing.
  lemma ImportTwiceChangesNothing(c: DateCodec, pending: seq<Tracked>, entries: seq<RawEntry>, now: int, later: int)
    requires now <= later
    ensures var once := ImportAll(c, pending, entries, now);
      ImportAll(c, once, entries, later) == once
  {
    ImportSettles(c, pending, entries, now);
    SettledStays(c, ImportAll(c, pending, entries, now), entries, now, later);
  }

  lemma {:induction false} ImportSettles(c: DateCodec, pending: seq<Tracked>, entries: seq<RawEntry>, now: int)
    ensures var once := ImportAll(c, pending, entries, now);
      && (forall x :: x in Hashes(pending) ==> x in Hashes(once))
      && (forall e :: e in entries ==> Settled(c, once, e, now))
    decreases |entries|
  {
    if entries != [] {
      var next := ImportOne(c, pending, entries[0], now);
      if next != pending {
        HashesConcat(pending, [Restorable(c, entries[0], now).value]);
        assert Hashes([Restorable(c, entries[0], now).value])[0] == Restorable(c, entries[0], now).value.hash;
      }
      ImportSettles(c, next, entries[1..], now);
      assert forall e :: e in entries <==> e == entries[0] || e in entries[1..];
    }
  }

  lemma {:induction false} SettledStays(c: DateCodec, pending: seq<Tracked>, entries: seq<RawEntry>,
                                        now: int, later: int)
    requires now <= later && forall e :: e in entries ==> Settled(c, pending, e, now)
    ensures ImportAll(c, pending, entries, later) == pending
    decreases |entries|
  {
    if entries != [] {
      assert entries[0] in entries;
      assert Settled(c, pending, entries[0], now);
      SettledStays(c, pending, entries[1..], now, later);
    }
  }

  // It hands back, entry by entry, what is tracked under the entry's hash.
  lemma {:induction false} SecondImportHandsBack(c: DateCodec, pending: seq<Tracked>, entries: seq<RawEntry>,
                                                 now: int, later: int)
    requires now <= later && forall e :: e in entries ==> Settled(c, pending, e, now)
    ensures RestoredAll(c, pending, entries, later) == TrackedUnder(pending, entries)
    decreases |entries|
  {
    if entries != [] {
      assert entries[0] in entries && Settled(c, pending, entries[0], now);
      assert ImportOne(c, pending, entries[0], later) == pending;
      SecondImportHandsBack(c, pending, entries[1..], now, later);
    }
  }

  // The tracked transaction of every entry that has one.
  function TrackedUnder(pending: seq<Tracked>, entries: seq<RawEntry>): seq<Tracked> {
    if entries == [] then []
    else
      var e, rest := entries[0], TrackedUnder(pending, entries[1..]);
      if e.RawEntry? && e.hash.Some? && e.hash.value != "" && e.hash.value in Hashes(pending)
      then [Lookup(pending, e.hash.value)] + rest
      else rest
  }

  // ---------- The client ----------

  class PendingTransactions {
    const codec: DateCodec
    var pending: seq<Tracked>

    // A Map keyed by hash, in insertion order.
    ghost predicate Valid()
      reads this
    {
      NoDuplicates(Hashes(pending))
    }

    constructor (codec: DateCodec)
      ensures Valid() && pending == [] && this.codec == codec
    {
      this.codec, pending := codec, [];
    }

    method Find(hash: string) returns (r: Option<Tracked>)
      ensures r.Some? ==> r.value in pending && r.value.hash == hash
      ensures r.None? ==> hash !in Hashes(pending)
    {
      for i := 0 to |pending|
        invariant forall j :: 0 <= j < i ==> pending[j].hash != hash
      {
        if pending[i].hash == hash {
          return Some(pending[i]);
        }
      }
      return None;
    }

    // Tracking a hash that is tracked already gives the existing entry.
    method TrackTransaction(hash: string, context: Option<Value>, intervalMs: Option<int>, timeoutMs: Option<int>,
                            deadline: Option<int>, txLabel: Option<string>, now: int) returns (t: Tracked)
      requires Valid()
      modifies this
      ensures Valid() && t in pending && t.hash == hash
      ensures if hash in Hashes(old(pending)) then pending == old(pending)
              else
                && pending == old(pending) + [t]
                && t == Tracked(hash, context, now, if intervalMs.Some? then intervalMs.value else DEFAULT_INTERVAL_MS,
                                if deadline.Some? then deadline.value
                                else now + (if timeoutMs.Some? then timeoutMs.value else DEFAULT_TIMEOUT_MS),
                                txLabel)
    {
      var existing := Find(hash);
      if existing.Some? {
        assert existing.value.hash in Hashes(pending) by {
          var i :| 0 <= i < |pending| && pending[i] == existing.value;
          assert Hashes(pending)[i] == existing.value.hash;
        }
        return existing.value;
      }
      var interval := if intervalMs.Some? then intervalMs.value else DEFAULT_INTERVAL_MS;
      var timeout := if timeoutMs.Some? then timeoutMs.value else DEFAULT_TIMEOUT_MS;
      t := Tracked(hash, context, now, interval, if deadline.Some? then deadline.value else now + timeout, txLabel);
      AppendHash(pending, t);
      pending := pending + [t];
    }

    method ExportState() returns (r: Result<seq<Serialized>, FreezeError>)
      ensures r == ExportAll(codec, pending)
    {
      var out: seq<Serialized> := [];
      assert pending[0..] == pending;
      PrependNothing(ExportAll(codec, pending));
      for i := 0 to |pending|
        invariant ExportAll(codec, pending) == Prepend(out, ExportAll(codec, pending[i..]))
      {
        var one := SerializeOne(codec, pending[i]);
        assert pending[i..][1..] == pending[i + 1..];
        if one.Err? {
          return Err(one.error);
        }
        PrependOne(out, one.value, ExportAll(codec, pending[i + 1..]));
        out := out + [one.value];
      }
      assert pending[|pending|..] == [] && out + [] == out;
      return Ok(out);
    }

    method ImportState(state: RawState, now: int) returns (r: Result<seq<Tracked>, HydrationError>)
      requires Valid()
      modifies this
      ensures Valid()
      ensures r.Err? ==> pending == old(pending)
      ensures r.Ok? <==> state.RawState? && state.version == Some(HYDRATION_STATE_VERSION) && state.pending.Some?
      ensures state.NoObject? ==> r == Err(InvalidState)
      ensures state.RawState? && state.version != Some(HYDRATION_STATE_VERSION) ==> r == Err(UnsupportedVersion)
      ensures state.RawState? && state.version == Some(HYDRATION_STATE_VERSION) && state.pending.None? ==>
        r == Err(PendingNotArray)
      ensures r.Ok? ==> pending == ImportAll(codec, old(pending), state.pending.value, now)
      ensures r.Ok? ==> r.value == RestoredAll(codec, old(pending), state.pending.value, now)
    {
      if state.NoObject? {
        return Err(InvalidState);
      }
      if state.version != Some(HYDRATION_STATE_VERSION) {
        return Err(UnsupportedVersion);
      }
      if state.pending.None? {
        return Err(PendingNotArray);
      }
      var restored := ImportEntries(state.pending.value, now);
      return Ok(restored);
    }

    method ImportEntries(entries: seq<RawEntry>, now: int) returns (restored: seq<Tracked>)
      requires Valid()
      modifies this
      ensures Valid() && pending == ImportAll(codec, old(pending), entries, now)
      ensures restored == RestoredAll(codec, old(pending), entries, now)
    {
      restored := [];
      ghost var all := RestoredAll(codec, pending, entries, now);
      assert entries[0..] == entries && restored + all == all;
      for i := 0 to |entries|
        invariant Valid()
        invariant ImportAll(codec, old(pending), entries, now) == ImportAll(codec, pending, entries[i..], now)
        invariant all == restored + RestoredAll(codec, pending, entries[i..], now)
      {
        RestoredStep(codec, pending, entries[i..], now, restored);
        assert entries[i..][1..] == entries[i + 1..];
        var one := ImportEntry(entries[i], now);
        restored := restored + Listed(one);
      }
      assert restored + [] == restored;
    }

    // One turn of the import loop.
    method ImportEntry(e: RawEntry, now: int) returns (restored: Option<Tracked>)
      requires Valid()
      modifies this
      ensures Valid() && pending == ImportOne(codec, old(pending), e, now)
      ensures restored == RestoredOne(pending, e)
    {
      restored := None;
      if e.NotAnObject? || e.hash.None? || e.hash.value == "" {
        return;
      }
      var existing := Find(e.hash.value);
      if existing.Some? {
        LookupIsUnique(pending, existing.value);
        return existing;
      }
      var deadline := if e.deadline.Some? then codec.parse(e.deadline.value) else None;
      if deadline.None? || deadline.value <= now {
        return;
      }
      var interval := if e.intervalMs.Some? && e.intervalMs.value > 0 then e.intervalMs.value else DEFAULT_INTERVAL_MS;
      var t := TrackTransaction(e.hash.value, ThawContext(codec, e.context), Some(interval),
                                None, deadline, e.txLabel, now);
      LookupIsUnique(pending, t);
      restored := Some(t);
    }
  }

  function Prepend(out: seq<Serialized>,
                   r: Result<seq<Serialized>, FreezeError>): Result<seq<Serialized>, FreezeError> {
    if r.Err? then r else Ok(out + r.value)
  }

  lemma PrependNothing(r: Result<seq<Serialized>, FreezeError>)
    ensures Prepend([], r) == r
  {
    assert r.Ok? ==> [] + r.value == r.value;
  }

  lemma PrependOne(out: seq<Serialized>, one: Serialized, rest: Result<seq<Serialized>, FreezeError>)
    ensures Prepend(out + [one], rest) == if rest.Err? then rest else Ok(out + ([one] + rest.value))
  {
    assert rest.Ok? ==> (out + [one]) + rest.value == out + ([one] + rest.value);
  }

  lemma AppendHash(pending: seq<Tracked>, t: Tracked)
    requires NoDuplicates(Hashes(pending)) && t.hash !in Hashes(pending)
    ensures NoDuplicates(Hashes(pending + [t]))
  {
    var h := Hashes(pending + [t]);
    assert forall i :: 0 <= i < |pending| ==> h[i] == Hashes(pending)[i];
  }
}
