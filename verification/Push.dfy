/**
 `pushChanges` as a function of the tables: one verdict per change, then the writes.
 The order in which a query without ORDER BY lists rows is the parameter `scan`.
 */
module Push {
  import opened Wrappers
  import opened SyncSpec
  import opened Tables
  import Seqs
  import Text

  datatype Change = Change(record: Entity, base: int)

  datatype Options = Options(allowTombstoneOverwrite: bool, preserveVersions: bool)

  const CLIENT := Options(false, false)
  const MIRROR := Options(true, true)

  datatype Request = Request(notebooks: seq<Change>, notes: seq<Change>)

  datatype Reason = DeletedRemotely | RemoteChanged | DuplicateName

  datatype Verdict =
    | Rejected(reason: Reason, local: Entity, remote: Entity)
    | Kept(entity: Entity)
    | Written(entity: Entity)
  {
    predicate Accepted() { !Rejected? }
  }

  /******* Stamps *******/

  /** Later time wins; ties fall to the version, then to the device id. */
  predicate NewerOrTie(aTime: Time, aVersion: int, aDevice: string, bTime: Time, bVersion: int, bDevice: string) {
    if aTime != bTime then aTime > bTime
    else if aVersion != bVersion then aVersion > bVersion
    else Text.AtLeast(aDevice, bDevice)
  }

  predicate TombstoneOverwriteAllowed(record: Entity, tomb: Tombstone, base: int, options: Options) {
    if base == tomb.version then true
    else if !options.allowTombstoneOverwrite then false
    else NewerOrTie(record.UpdatedAt(), record.Version(), record.DeviceId(),
                    tomb.deletedAt, tomb.version, tomb.deviceId)
  }

  /** What may come back over a tombstone is later; at the same time the version decides, and then the device. */
  predicate Outlives(x: Entity, tomb: Tombstone) {
    || x.UpdatedAt() > tomb.deletedAt
    || (x.UpdatedAt() == tomb.deletedAt && x.Version() > tomb.version)
    || (x.UpdatedAt() == tomb.deletedAt && x.Version() == tomb.version && Text.AtLeast(x.DeviceId(), tomb.deviceId))
  }

  /** A tombstone gives way to a change that knows it, and on the mirror to one that outlives it. */
  lemma GivesWayIff(record: Entity, tomb: Tombstone, base: int, options: Options)
    ensures TombstoneOverwriteAllowed(record, tomb, base, options)
      <==> base == tomb.version || (options.allowTombstoneOverwrite && Outlives(record, tomb))
  {
  }

  /******* One change *******/

  function DeletedRemote(local: Entity, tomb: Tombstone): Entity {
    match local
    case NoteEntity(n) => NoteEntity(n.(deletedAt := Some(tomb.deletedAt), updatedAt := tomb.deletedAt,
                                        deviceId := tomb.deviceId, version := tomb.version))
    case NotebookEntity(n) => NotebookEntity(n.(deletedAt := Some(tomb.deletedAt), updatedAt := tomb.deletedAt,
                                                deviceId := tomb.deviceId, version := tomb.version))
  }

  function Max(a: int, b: int): int { if a >= b then a else b }

  function AcceptedVersion(s: Store, ref: Ref, record: Entity, options: Options): int {
    if ref in s.rows then
      if options.preserveVersions then record.Version() else s.rows[ref].entity.Version() + 1
    else if ref in s.tombs then NextVersionAfter(s.tombs[ref].version)
    else if options.preserveVersions then Max(record.Version(), 1)
    else 1
  }

  /** The verdict once no version or tombstone conflict stands in the way. */
  function Accept(s: Store, ref: Ref, record: Entity, changed: bool, options: Options): Verdict {
    if && ref in s.rows && !changed && !RecordsDiffer(record, s.rows[ref].entity)
       && (!options.preserveVersions || record.Version() == s.rows[ref].entity.Version())
    then Kept(s.rows[ref].entity)
    else Written(record.WithVersion(AcceptedVersion(s, ref, record, options)))
  }

  /** The version check: `record` is what would be stored, `original` what was sent. */
  function Check(s: Store, ref: Ref, original: Entity, record: Entity, base: int, options: Options): Option<Verdict> {
    if ref !in s.rows && ref in s.tombs && !TombstoneOverwriteAllowed(record, s.tombs[ref], base, options) then
      Some(Rejected(DeletedRemotely, original, DeletedRemote(original, s.tombs[ref])))
    else if ref in s.rows && ShouldConflict(record, s.rows[ref].entity, base) then
      var remote := s.rows[ref].entity;
      Some(Rejected(if remote.IsDeleted() then DeletedRemotely else RemoteChanged, record, remote))
    else None
  }

  /******* Notes *******/

  predicate LiveNotebook(s: Store, owner: string, id: string) {
    var ref := Ref(owner, NotebookKind, id);
    ref in s.rows && !s.rows[ref].entity.IsDeleted()
  }

  /** A note as it will be stored: only references to live notebooks survive. */
  function Syncable(s: Store, owner: string, note: Note): (r: Note)
    ensures forall id :: id in r.notebookIds <==> id in NoteNotebookIds(note) && LiveNotebook(s, owner, id)
  {
    var ids := Seqs.Filter(NoteNotebookIds(note), id => LiveNotebook(s, owner, id));
    note.(notebookIds := ids, notebookId := if ids == [] then None else Some(ids[0]))
  }

  predicate RefsChanged(original: Note, normalized: Note) {
    original.notebookId != normalized.notebookId || original.notebookIds != normalized.notebookIds
  }

  function NoteVerdict(s: Store, owner: string, change: Change, options: Options): Verdict
    requires change.record.NoteEntity?
  {
    var ref := RefOf(owner, change.record);
    var note := Syncable(s, owner, change.record.note);
    var check := Check(s, ref, change.record, NoteEntity(note), change.base, options);
    if check.Some? then check.value
    else Accept(s, ref, NoteEntity(note), RefsChanged(change.record.note, note), options)
  }

  /******* Notebooks *******/

  predicate IsEncryptedName(name: string) {
    "enc:v3:" <= name || "enc:v4:" <= name
  }

  /** The duplicate keys of a notebook: its name hash and, unless encrypted, its folded name. */
  datatype NameKey = HashKey(hash: string) | PlainKey(name: string)

  function FoldedName(name: string): string { Text.Lower(Text.Trim(name)) }

  /** The database's own folding, lower(trim(name)): its trim removes spaces only. */
  function StoredFold(name: string): string { Text.Lower(Text.TrimBlanks(name)) }

  function DuplicateKeys(n: Notebook): seq<NameKey> {
    (if n.nameHash.Some? && Text.Trim(n.nameHash.value) != "" then [HashKey(Text.Trim(n.nameHash.value))] else []) +
    (if IsEncryptedName(n.name) then [] else [PlainKey(FoldedName(n.name))])
  }

  /** True when the candidate query lists the row under the key. */
  predicate RowHasKey(row: Notebook, key: NameKey) {
    match key
    case HashKey(h) => row.nameHash == Some(h)
    case PlainKey(n) => n != "" && FoldedName(row.name) == n && StoredFold(row.name) == n
  }

  predicate IsCandidate(s: Store, owner: string, ref: Ref, record: Notebook, key: NameKey) {
    ref in s.rows && ref.owner == owner && s.rows[ref].entity.NotebookEntity? &&
    !s.rows[ref].entity.IsDeleted() && ref.id != record.id && RowHasKey(s.rows[ref].entity.notebook, key)
  }

  function FirstWithKey(s: Store, owner: string, scan: seq<Ref>, record: Notebook, key: NameKey): (r: Option<Ref>)
    ensures r.Some? ==> r.value in scan && IsCandidate(s, owner, r.value, record, key)
    ensures r.None? ==> forall ref :: ref in scan ==> !IsCandidate(s, owner, ref, record, key)
  {
    if scan == [] then None
    else
      assert scan == [scan[0]] + scan[1..];
      if IsCandidate(s, owner, scan[0], record, key) then Some(scan[0])
      else FirstWithKey(s, owner, scan[1..], record, key)
  }

  /** The first stored duplicate: keys in order, then rows in scan order. */
  function FirstStoredDuplicate(s: Store, owner: string, scan: seq<Ref>, record: Notebook, keys: seq<NameKey>): (r: Option<Ref>)
    ensures r.Some? ==> exists k :: k in keys && IsCandidate(s, owner, r.value, record, k)
    ensures r.None? ==> forall ref, k :: k in keys && ref in scan ==> !IsCandidate(s, owner, ref, record, k)
  {
    if keys == [] then None
    else
      assert keys == [keys[0]] + keys[1..];
      var first := FirstWithKey(s, owner, scan, record, keys[0]);
      if first.Some? then first else FirstStoredDuplicate(s, owner, scan, record, keys[1..])
  }

  /** What the notebook loop carries: verdicts so far, accepted active names, accepted deletions. */
  datatype Acc = Acc(verdicts: seq<Verdict>, active: map<NameKey, Notebook>, deleted: set<string>)

  function FirstAccepted(active: map<NameKey, Notebook>, record: Notebook, keys: seq<NameKey>): (r: Option<Notebook>)
    ensures r.Some? ==> r.value.id != record.id && exists k :: k in keys && k in active && active[k] == r.value
    ensures r.None? ==> forall k :: k in keys && k in active ==> active[k].id == record.id
  {
    if keys == [] then None
    else
      assert keys == [keys[0]] + keys[1..];
      if keys[0] in active && active[keys[0]].id != record.id then Some(active[keys[0]])
      else FirstAccepted(active, record, keys[1..])
  }

  function Duplicate(s: Store, owner: string, scan: seq<Ref>, acc: Acc, record: Notebook): Option<Notebook> {
    if record.deletedAt.Some? then None
    else
      var keys := DuplicateKeys(record);
      var inRequest := FirstAccepted(acc.active, record, keys);
      var stored := FirstStoredDuplicate(s, owner, scan, record, keys);
      var candidate :=
        if inRequest.Some? then inRequest
        else if stored.Some? then Some(s.rows[stored.value].entity.notebook)
        else None;
      if candidate.Some? && candidate.value.id in acc.deleted then None else candidate
  }

  function NotebookVerdict(s: Store, owner: string, scan: seq<Ref>, acc: Acc, change: Change, options: Options): Verdict
    requires change.record.NotebookEntity?
  {
    var ref := RefOf(owner, change.record);
    var check := Check(s, ref, change.record, change.record, change.base, options);
    var duplicate := Duplicate(s, owner, scan, acc, change.record.notebook);
    if check.Some? then check.value
    else if duplicate.Some? then Rejected(DuplicateName, change.record, NotebookEntity(duplicate.value))
    else Accept(s, ref, change.record, false, options)
  }

  function Remember(active: map<NameKey, Notebook>, keys: seq<NameKey>, n: Notebook): (r: map<NameKey, Notebook>)
    ensures forall k :: k in r <==> k in active || k in keys
    ensures forall k :: k in r ==> r[k] == if k in keys then n else active[k]
  {
    if keys == [] then active
    else
      assert keys == keys[..|keys| - 1] + [keys[|keys| - 1]];
      Remember(active, keys[..|keys| - 1], n)[keys[|keys| - 1] := n]
  }

  function Record(acc: Acc, v: Verdict): Acc {
    var verdicts := acc.verdicts + [v];
    if v.Rejected? || !v.entity.NotebookEntity? then acc.(verdicts := verdicts)
    else if v.entity.IsDeleted() then acc.(verdicts := verdicts, deleted := acc.deleted + {v.entity.Id()})
    else acc.(verdicts := verdicts, active := Remember(acc.active, DuplicateKeys(v.entity.notebook), v.entity.notebook))
  }

  predicate AllNotebooks(changes: seq<Change>) { forall c :: c in changes ==> c.record.NotebookEntity? }

  predicate AllNotes(changes: seq<Change>) { forall c :: c in changes ==> c.record.NoteEntity? }

  /** The notebook loop. */
  function NotebookVerdicts(s: Store, owner: string, scan: seq<Ref>, changes: seq<Change>, options: Options): (acc: Acc)
    requires AllNotebooks(changes)
    ensures |acc.verdicts| == |changes|
  {
    if changes == [] then Acc([], map[], {})
    else
      assert forall c :: c in changes[..|changes| - 1] ==> c in changes;
      var acc := NotebookVerdicts(s, owner, scan, changes[..|changes| - 1], options);
      Record(acc, NotebookVerdict(s, owner, scan, acc, changes[|changes| - 1], options))
  }

  /** The note loop: each note is judged on its own. */
  function NoteVerdicts(s: Store, owner: string, changes: seq<Change>, options: Options): (r: seq<Verdict>)
    requires AllNotes(changes)
    ensures |r| == |changes|
    ensures forall i :: 0 <= i < |changes| ==> r[i] == NoteVerdict(s, owner, changes[i], options)
  {
    seq(|changes|, i requires 0 <= i < |changes| => NoteVerdict(s, owner, changes[i], options))
  }

  /******* The whole request *******/

  function ApplyVerdicts(s: Store, owner: string, verdicts: seq<Verdict>, now: Time): Store {
    if verdicts == [] then s
    else
      var t := ApplyVerdicts(s, owner, verdicts[..|verdicts| - 1], now);
      var v := verdicts[|verdicts| - 1];
      if v.Written? then Put(t, RefOf(owner, v.entity), v.entity, now) else t
  }

  lemma ApplyLast(s: Store, owner: string, verdicts: seq<Verdict>, v: Verdict, now: Time)
    ensures var t := ApplyVerdicts(s, owner, verdicts, now);
      ApplyVerdicts(s, owner, verdicts + [v], now) == if v.Written? then Put(t, RefOf(owner, v.entity), v.entity, now) else t
  {
    assert (verdicts + [v])[..|verdicts|] == verdicts;
  }

  lemma LoopLast(s: Store, owner: string, scan: seq<Ref>, changes: seq<Change>, c: Change, options: Options)
    requires AllNotebooks(changes) && c.record.NotebookEntity?
    ensures AllNotebooks(changes + [c])
    ensures var acc := NotebookVerdicts(s, owner, scan, changes, options);
      NotebookVerdicts(s, owner, scan, changes + [c], options) == Record(acc, NotebookVerdict(s, owner, scan, acc, c, options))
  {
    assert (changes + [c])[..|changes|] == changes;
  }

  predicate UniqueIds(changes: seq<Change>) {
    forall i, j :: 0 <= i < j < |changes| ==> changes[i].record.Id() != changes[j].record.Id()
  }

  /** What the route's payload validation lets through. */
  predicate WellFormed(request: Request) {
    && AllNotebooks(request.notebooks) && AllNotes(request.notes)
    && (forall c :: c in request.notebooks + request.notes ==> c.record.Version() >= 1)
  }

  datatype Outcome = Outcome(store: Store, notebooks: seq<Verdict>, notes: seq<Verdict>)

  /** The transaction of a push whose ids are unique. */
  function Run(s: Store, owner: string, scan: seq<Ref>, request: Request, options: Options, now: Time): (o: Outcome)
    requires WellFormed(request)
    ensures |o.notebooks| == |request.notebooks| && |o.notes| == |request.notes|
  {
    var notebooks := NotebookVerdicts(s, owner, scan, request.notebooks, options).verdicts;
    var mid := ApplyVerdicts(s, owner, notebooks, now);
    var notes := NoteVerdicts(mid, owner, request.notes, options);
    Outcome(ApplyVerdicts(mid, owner, notes, now), notebooks, notes)
  }

  /******* What one verdict means *******/

  /** What a push stores of the references it was sent: those to live notebooks, the first one as the primary. */
  ghost predicate RefsStored(s: Store, owner: string, stored: Entity, sent: Entity) {
    stored.NoteEntity? && sent.NoteEntity? ==>
      && (forall id :: id in stored.note.notebookIds <==>
            var ref := Ref(owner, NotebookKind, id);
            id in NoteNotebookIds(sent.note) && ref in s.rows && s.rows[ref].entity.DeletedAt().None?)
      && stored.note.notebookId == (if stored.note.notebookIds == [] then None else Some(stored.note.notebookIds[0]))
  }

  /** No notebook of the stored note is missing from the sent one: a push may only drop references. */
  ghost predicate RefsWithin(stored: Entity, sent: Entity) {
    stored.NoteEntity? && sent.NoteEntity? ==> RefSet(stored.note) <= RefSet(sent.note)
  }

  /** The optimistic-concurrency law of one change against the tables it was judged by. */
  ghost predicate Lawful(s: Store, owner: string, c: Change, v: Verdict, options: Options) {
    var ref := RefOf(owner, c.record);
    match v
    case Rejected(_, _, _) => true
    case Kept(e) =>
      ref in s.rows && e == s.rows[ref].entity && CoreOf(e) == CoreOf(c.record)
    case Written(e) =>
      && RefOf(owner, e) == ref && WordingOf(e) == WordingOf(c.record) && RefsStored(s, owner, e, c.record) && RefsWithin(e, c.record)
      && e.DeviceId() == c.record.DeviceId() && e.UpdatedAt() == c.record.UpdatedAt()
      && e.Version() == AcceptedVersion(s, ref, c.record, options)
      && (ref in s.rows ==> c.base == Effective(s, ref) || ContentOf(e) == ContentOf(s.rows[ref].entity))
      && (!options.preserveVersions ==> e.Version() == Effective(s, ref) + 1)
      && (ref !in s.rows && ref in s.tombs ==>
            c.base == s.tombs[ref].version || (options.allowTombstoneOverwrite && Outlives(c.record, s.tombs[ref])))
  }

  lemma NoteVerdictLawful(s: Store, owner: string, c: Change, options: Options)
    requires c.record.NoteEntity?
    ensures Lawful(s, owner, c, NoteVerdict(s, owner, c, options), options)
  {
    hide RefsStored, RefsWithin, WordingOf, CoreOf, ContentOf, Syncable, RecordsDiffer, RefSet, NormalizedId, NewerOrTie, Outlives;
    var ref := RefOf(owner, c.record);
    var note := Syncable(s, owner, c.record.note);
    SyncableKeepsWording(s, owner, c.record.note);
    SameWordingSameCore(NoteEntity(note), c.record);
    if ref in s.rows {
      RecordsDifferIffContentDiffers(NoteEntity(note), s.rows[ref].entity);
      CoreOfContent(NoteEntity(note), s.rows[ref].entity);
    } else if ref in s.tombs {
      GivesWayIff(NoteEntity(note), s.tombs[ref], c.base, options);
      SameOutlives(NoteEntity(note), c.record, s.tombs[ref]);
    }
    StoredUnder(s, owner, c.record.note, AcceptedVersion(s, ref, c.record, options));
  }

  lemma CoreOfContent(a: Entity, b: Entity)
    ensures ContentOf(a) == ContentOf(b) ==> CoreOf(a) == CoreOf(b)
  {
  }

  lemma SyncableKeepsWording(s: Store, owner: string, note: Note)
    ensures var m := Syncable(s, owner, note);
      && WordingOf(NoteEntity(m)) == WordingOf(NoteEntity(note)) && m.id == note.id
      && m.updatedAt == note.updatedAt && m.deviceId == note.deviceId && m.version == note.version
      && RefsStored(s, owner, NoteEntity(m), NoteEntity(note))
  {
  }

  /** The syncable note under its new version. */
  lemma StoredUnder(s: Store, owner: string, note: Note, version: int)
    ensures var e := NoteEntity(Syncable(s, owner, note)).WithVersion(version);
      && e.NoteEntity? && WordingOf(e) == WordingOf(NoteEntity(note)) && ContentOf(e) == ContentOf(NoteEntity(Syncable(s, owner, note)))
      && RefsStored(s, owner, e, NoteEntity(note)) && RefsWithin(e, NoteEntity(note))
  {
    hide Syncable, NormalizedIds, KeyOfText;
    SyncableKeepsWording(s, owner, note);
    StoredIds(s, owner, note);
  }

  lemma NotebookVerdictLawful(s: Store, owner: string, scan: seq<Ref>, acc: Acc, c: Change, options: Options)
    requires c.record.NotebookEntity?
    ensures Lawful(s, owner, c, NotebookVerdict(s, owner, scan, acc, c, options), options)
  {
    hide RecordsDiffer, ContentOf, NewerOrTie, Duplicate, CoreOf, WordingOf, Outlives;
    var ref := RefOf(owner, c.record);
    if ref in s.rows {
      RecordsDifferIffContentDiffers(c.record, s.rows[ref].entity);
    } else if ref in s.tombs {
      GivesWayIff(c.record, s.tombs[ref], c.base, options);
    }
    NotebookUnder(c.record.notebook, AcceptedVersion(s, ref, c.record, options));
    if ref in s.rows { CoreOfContent(c.record, s.rows[ref].entity); }
  }

  lemma NotebookUnder(n: Notebook, version: int)
    ensures var e := NotebookEntity(n).WithVersion(version);
      && e.NotebookEntity? && WordingOf(e) == WordingOf(NotebookEntity(n)) && ContentOf(e) == ContentOf(NotebookEntity(n))
  {
  }

  /** A note change is accepted exactly when nothing it did not know would be lost, or, on the mirror, it outlives a tombstone. */
  lemma NoteAcceptedIff(s: Store, owner: string, c: Change, options: Options)
    requires c.record.NoteEntity?
    ensures
      var ref := RefOf(owner, c.record);
      NoteVerdict(s, owner, c, options).Accepted() <==>
        (if ref in s.rows then
           c.base == s.rows[ref].entity.Version() ||
           ContentOf(NoteEntity(Syncable(s, owner, c.record.note))) == ContentOf(s.rows[ref].entity)
         else ref in s.tombs ==>
           c.base == s.tombs[ref].version || (options.allowTombstoneOverwrite && Outlives(c.record, s.tombs[ref])))
  {
    hide RecordsDiffer, ContentOf, Outlives, NewerOrTie, NoteNotebookIds, LiveNotebook;
    var ref := RefOf(owner, c.record);
    if ref in s.rows {
      RecordsDifferIffContentDiffers(NoteEntity(Syncable(s, owner, c.record.note)), s.rows[ref].entity);
    } else if ref in s.tombs {
      GivesWayIff(NoteEntity(Syncable(s, owner, c.record.note)), s.tombs[ref], c.base, options);
      SameOutlives(NoteEntity(Syncable(s, owner, c.record.note)), c.record, s.tombs[ref]);
    }
  }

  lemma SameOutlives(a: Entity, b: Entity, tomb: Tombstone)
    requires a.UpdatedAt() == b.UpdatedAt() && a.Version() == b.Version() && a.DeviceId() == b.DeviceId()
    ensures Outlives(a, tomb) <==> Outlives(b, tomb)
  {
  }

  /** The row is answered as it is exactly when it has the content that was sent, of which nothing had to be dropped. */
  lemma NoteKeptIff(s: Store, owner: string, c: Change, options: Options)
    requires c.record.NoteEntity?
    ensures
      var ref := RefOf(owner, c.record);
      NoteVerdict(s, owner, c, options).Kept? <==>
        && ref in s.rows && Syncable(s, owner, c.record.note) == c.record.note
        && ContentOf(c.record) == ContentOf(s.rows[ref].entity)
        && (options.preserveVersions ==> c.record.Version() == s.rows[ref].entity.Version())
  {
    hide RecordsDiffer, ContentOf, NewerOrTie, NoteNotebookIds, LiveNotebook;
    var ref := RefOf(owner, c.record);
    if ref in s.rows {
      RecordsDifferIffContentDiffers(NoteEntity(Syncable(s, owner, c.record.note)), s.rows[ref].entity);
    }
  }

  /** The change knows what it replaces: the row's version or its content, the tombstone's version, or there is nothing to know. */
  ghost predicate Replaceable(s: Store, ref: Ref, c: Change, options: Options) {
    if ref in s.rows then c.base == s.rows[ref].entity.Version() || ContentOf(c.record) == ContentOf(s.rows[ref].entity)
    else ref in s.tombs ==> c.base == s.tombs[ref].version || (options.allowTombstoneOverwrite && Outlives(c.record, s.tombs[ref]))
  }

  /**
   A notebook change is accepted exactly when it knows what it replaces and, unless it is a deletion, its name is free. What it
   does not know is told before a taken name. The row is the answer exactly when it has the content that was sent.
   */
  lemma NotebookAcceptedIff(s: Store, owner: string, scan: seq<Ref>, acc: Acc, c: Change, options: Options)
    requires c.record.NotebookEntity?
    ensures
      var ref := RefOf(owner, c.record); var v := NotebookVerdict(s, owner, scan, acc, c, options);
      var taken := c.record.notebook.deletedAt.None? && Duplicate(s, owner, scan, acc, c.record.notebook).Some?;
      && (v.Accepted() <==> Replaceable(s, ref, c, options) && !taken)
      && (v.Rejected? && v.reason == DuplicateName <==> Replaceable(s, ref, c, options) && taken)
      && (v.Kept? <==> v.Accepted() && ref in s.rows && ContentOf(c.record) == ContentOf(s.rows[ref].entity)
                       && (options.preserveVersions ==> c.record.Version() == s.rows[ref].entity.Version()))
  {
    hide RecordsDiffer, ContentOf, Outlives, NewerOrTie, FirstAccepted, FirstStoredDuplicate, DuplicateKeys;
    var ref := RefOf(owner, c.record);
    if ref in s.rows {
      RecordsDifferIffContentDiffers(c.record, s.rows[ref].entity);
    } else if ref in s.tombs {
      GivesWayIff(c.record, s.tombs[ref], c.base, options);
    }
  }

  /******* What a whole request does *******/

  /** The effect of a list of lawful verdicts for distinct entities, judged by `s` and applied to `s`. */
  ghost predicate Effect(s: Store, t: Store, owner: string, changes: seq<Change>, verdicts: seq<Verdict>)
    requires |verdicts| == |changes|
  {
    && (forall ref :: (forall i :: 0 <= i < |changes| && verdicts[i].Written? ==> RefOf(owner, changes[i].record) != ref)
          ==> SameAt(s, t, ref))
    && (forall i :: 0 <= i < |changes| && verdicts[i].Accepted() ==>
          var ref := RefOf(owner, changes[i].record);
          ref in t.rows && t.rows[ref].entity == verdicts[i].entity)
  }

  ghost predicate LawfulAll(s: Store, owner: string, changes: seq<Change>, verdicts: seq<Verdict>, options: Options)
    requires |verdicts| == |changes|
  {
    forall i :: 0 <= i < |changes| ==> Lawful(s, owner, changes[i], verdicts[i], options)
  }

  ghost predicate DistinctRefs(owner: string, changes: seq<Change>) {
    forall i, j :: 0 <= i < j < |changes| ==> RefOf(owner, changes[i].record) != RefOf(owner, changes[j].record)
  }

  lemma {:induction false} ApplyEffect(s: Store, owner: string, changes: seq<Change>, verdicts: seq<Verdict>, options: Options, now: Time)
    requires Inv(s) && |verdicts| == |changes|
    requires DistinctRefs(owner, changes)
    requires LawfulAll(s, owner, changes, verdicts, options)
    requires forall c :: c in changes ==> c.record.Version() >= 1
    ensures var t := ApplyVerdicts(s, owner, verdicts, now);
      && Inv(t) && Evolves(s, t) && Effect(s, t, owner, changes, verdicts)
      && (!options.preserveVersions ==> Rises(s, t))
  {
    hide Lawful, LawfulAll, DistinctRefs, Inv, Evolves, Rises, Effect, Put, SameAt, Effective;
    if changes == [] {
      EvolvesRefl(s);
      NoEffect(s, owner);
    } else {
      var n := |changes| - 1;
      var c, v := changes[n], verdicts[n];
      var ref := RefOf(owner, c.record);
      FrontAndLast(s, owner, changes, verdicts, options);
      ApplyEffect(s, owner, changes[..n], verdicts[..n], options, now);
      var mid := ApplyVerdicts(s, owner, verdicts[..n], now);
      LastUntouched(s, mid, owner, changes, verdicts);
      if v.Written? {
        LastWrite(s, mid, owner, c, v, options);
        var t := Put(mid, ref, v.entity, now);
        PutKeeps(mid, ref, v.entity, now);
        InvLog(mid);
        EvolvesTrans(s, mid, t);
        if !options.preserveVersions {
          RisesTrans(s, mid, t);
        }
        PutStores(mid, ref, v.entity, now);
        WriteLast(s, mid, t, owner, changes, verdicts);
      } else {
        KeepLast(s, mid, owner, changes, verdicts, options);
      }
    }
  }

  lemma NoEffect(s: Store, owner: string)
    ensures Effect(s, s, owner, [], [])
  {
  }

  lemma FrontAndLast(s: Store, owner: string, changes: seq<Change>, verdicts: seq<Verdict>, options: Options)
    requires |verdicts| == |changes| > 0 && DistinctRefs(owner, changes) && LawfulAll(s, owner, changes, verdicts, options)
    requires forall c :: c in changes ==> c.record.Version() >= 1
    ensures var n := |changes| - 1;
      && DistinctRefs(owner, changes[..n]) && LawfulAll(s, owner, changes[..n], verdicts[..n], options)
      && (forall c :: c in changes[..n] ==> c.record.Version() >= 1)
      && Lawful(s, owner, changes[n], verdicts[n], options) && changes[n].record.Version() >= 1
  {
    hide Lawful;
  }

  /** What came before left the last change's entity alone. */
  lemma LastUntouched(s: Store, mid: Store, owner: string, changes: seq<Change>, verdicts: seq<Verdict>)
    requires |verdicts| == |changes| > 0 && DistinctRefs(owner, changes)
    requires Effect(s, mid, owner, changes[..|changes| - 1], verdicts[..|changes| - 1])
    ensures SameAt(s, mid, RefOf(owner, changes[|changes| - 1].record))
  {
  }

  /** A lawful write is about its entity, under a positive version, above what a client replaces. */
  lemma LastWrite(s: Store, mid: Store, owner: string, c: Change, v: Verdict, options: Options)
    requires Inv(s) && Lawful(s, owner, c, v, options) && v.Written? && c.record.Version() >= 1
    requires SameAt(s, mid, RefOf(owner, c.record))
    ensures RefOf(owner, v.entity) == RefOf(owner, c.record) && v.entity.Version() >= 1
    ensures !options.preserveVersions ==> v.entity.Version() > Effective(mid, RefOf(owner, c.record))
  {
    var ref := RefOf(owner, c.record);
    InvAt(s, ref);
    assert RowAt(s, ref) == RowAt(mid, ref) && TombAt(s, ref) == TombAt(mid, ref);
  }

  lemma PutStores(s: Store, ref: Ref, e: Entity, now: Time)
    ensures ref in Put(s, ref, e, now).rows && Put(s, ref, e, now).rows[ref].entity == e
  {
  }

  /** A last verdict that writes its entity extends the effect of the others. */
  lemma WriteLast(s: Store, mid: Store, t: Store, owner: string, changes: seq<Change>, verdicts: seq<Verdict>)
    requires |verdicts| == |changes| > 0 && DistinctRefs(owner, changes)
    requires Effect(s, mid, owner, changes[..|changes| - 1], verdicts[..|changes| - 1])
    requires verdicts[|changes| - 1].Written?
    requires var ref := RefOf(owner, changes[|changes| - 1].record);
      && (forall other :: other != ref ==> SameAt(mid, t, other))
      && ref in t.rows && t.rows[ref].entity == verdicts[|changes| - 1].entity
    ensures Effect(s, t, owner, changes, verdicts)
  {
    var n := |changes| - 1;
    forall other | forall i :: 0 <= i < |changes| && verdicts[i].Written? ==> RefOf(owner, changes[i].record) != other
      ensures SameAt(s, t, other)
    {
      assert SameAt(s, mid, other) by {
        forall i | 0 <= i < n && verdicts[..n][i].Written? ensures RefOf(owner, changes[..n][i].record) != other {
          assert verdicts[i].Written?;
        }
      }
      assert SameAt(mid, t, other);
    }
    forall i | 0 <= i < |changes| && verdicts[i].Accepted()
      ensures RefOf(owner, changes[i].record) in t.rows
      ensures t.rows[RefOf(owner, changes[i].record)].entity == verdicts[i].entity
    {
      if i < n {
        assert verdicts[..n][i].Accepted();
        assert SameAt(mid, t, RefOf(owner, changes[i].record));
      }
    }
  }

  /** A last verdict that writes nothing extends the effect of the others. */
  lemma KeepLast(s: Store, mid: Store, owner: string, changes: seq<Change>, verdicts: seq<Verdict>, options: Options)
    requires |verdicts| == |changes| > 0
    requires Effect(s, mid, owner, changes[..|changes| - 1], verdicts[..|changes| - 1])
    requires !verdicts[|changes| - 1].Written?
    requires Lawful(s, owner, changes[|changes| - 1], verdicts[|changes| - 1], options)
    requires SameAt(s, mid, RefOf(owner, changes[|changes| - 1].record))
    ensures Effect(s, mid, owner, changes, verdicts)
  {
    var n := |changes| - 1;
    forall other | forall i :: 0 <= i < |changes| && verdicts[i].Written? ==> RefOf(owner, changes[i].record) != other
      ensures SameAt(s, mid, other)
    {
      forall i | 0 <= i < n && verdicts[..n][i].Written? ensures RefOf(owner, changes[..n][i].record) != other {
        assert verdicts[i].Written?;
      }
    }
    forall i | 0 <= i < |changes| && verdicts[i].Accepted()
      ensures RefOf(owner, changes[i].record) in mid.rows
      ensures mid.rows[RefOf(owner, changes[i].record)].entity == verdicts[i].entity
    {
      if i < n {
        assert verdicts[..n][i].Accepted();
      } else {
        var ref := RefOf(owner, changes[n].record);
        assert ref in s.rows && RowAt(s, ref) == RowAt(mid, ref);
      }
    }
  }

  lemma VerdictsLawful(s: Store, owner: string, scan: seq<Ref>, changes: seq<Change>, options: Options)
    requires AllNotebooks(changes)
    ensures LawfulAll(s, owner, changes, NotebookVerdicts(s, owner, scan, changes, options).verdicts, options)
  {
    if changes != [] {
      var front := changes[..|changes| - 1];
      assert AllNotebooks(front) by {
        forall c | c in front ensures c in changes {}
      }
      VerdictsLawful(s, owner, scan, front, options);
      var acc := NotebookVerdicts(s, owner, scan, front, options);
      NotebookVerdictLawful(s, owner, scan, acc, changes[|changes| - 1], options);
      var all := NotebookVerdicts(s, owner, scan, changes, options).verdicts;
      forall i | 0 <= i < |changes| ensures Lawful(s, owner, changes[i], all[i], options) {
        if i < |front| {
          assert Lawful(s, owner, front[i], acc.verdicts[i], options);
        }
      }
    }
  }

  lemma UniqueIdsDistinct(owner: string, changes: seq<Change>)
    requires UniqueIds(changes)
    ensures DistinctRefs(owner, changes)
  {
  }

  /** The two phases of a request, each with the tables its verdicts were judged by. */
  lemma RunPhases(s: Store, owner: string, scan: seq<Ref>, request: Request, options: Options, now: Time)
    requires Inv(s) && WellFormed(request) && UniqueIds(request.notebooks) && UniqueIds(request.notes)
    ensures
      var o := Run(s, owner, scan, request, options, now);
      var mid := ApplyVerdicts(s, owner, o.notebooks, now);
      && Inv(mid) && Inv(o.store) && Evolves(s, mid) && Evolves(mid, o.store) && Evolves(s, o.store)
      && Effect(s, mid, owner, request.notebooks, o.notebooks)
      && Effect(mid, o.store, owner, request.notes, o.notes)
      && LawfulAll(s, owner, request.notebooks, o.notebooks, options)
      && LawfulAll(mid, owner, request.notes, o.notes, options)
      && (!options.preserveVersions ==> Rises(s, mid) && Rises(mid, o.store) && Rises(s, o.store))
  {
    var o := Run(s, owner, scan, request, options, now);
    var mid := ApplyVerdicts(s, owner, o.notebooks, now);
    forall c | c in request.notebooks || c in request.notes ensures c.record.Version() >= 1 {
      assert c in request.notebooks + request.notes;
    }
    VerdictsLawful(s, owner, scan, request.notebooks, options);
    UniqueIdsDistinct(owner, request.notebooks);
    ApplyEffect(s, owner, request.notebooks, o.notebooks, options, now);
    forall i | 0 <= i < |request.notes| ensures Lawful(mid, owner, request.notes[i], o.notes[i], options) {
      NoteVerdictLawful(mid, owner, request.notes[i], options);
    }
    UniqueIdsDistinct(owner, request.notes);
    ApplyEffect(mid, owner, request.notes, o.notes, options, now);
    EvolvesTrans(s, mid, o.store);
    if !options.preserveVersions {
      RisesTrans(s, mid, o.store);
    }
  }

  /** Notebook writes leave notes alone and note writes leave notebooks alone. */
  lemma PhasesApart(s: Store, t: Store, owner: string, changes: seq<Change>, verdicts: seq<Verdict>, ref: Ref)
    requires |verdicts| == |changes| && Effect(s, t, owner, changes, verdicts)
    requires forall c :: c in changes ==> c.record.Kind() != ref.kind
    ensures SameAt(s, t, ref)
  {
    forall i | 0 <= i < |changes| && verdicts[i].Written? ensures RefOf(owner, changes[i].record) != ref {
      assert changes[i] in changes;
    }
  }

  /** A change of the request explains why the entity is no longer what it was. */
  ghost predicate Explains(s: Store, t: Store, owner: string, ref: Ref, c: Change) {
    && RefOf(owner, c.record) == ref && ref in t.rows
    && WordingOf(t.rows[ref].entity) == WordingOf(c.record) && RefsWithin(t.rows[ref].entity, c.record)
    && t.rows[ref].entity.DeviceId() == c.record.DeviceId()
    && t.rows[ref].entity.UpdatedAt() == c.record.UpdatedAt()
    && (c.base == Effective(s, ref) || (ref in s.rows && ContentOf(t.rows[ref].entity) == ContentOf(s.rows[ref].entity))
        || (ref !in s.rows && ref !in s.tombs))
  }

  lemma PhaseExplains(s: Store, t: Store, owner: string, changes: seq<Change>, verdicts: seq<Verdict>, ref: Ref)
    requires |verdicts| == |changes| && Effect(s, t, owner, changes, verdicts)
    requires LawfulAll(s, owner, changes, verdicts, CLIENT)
    ensures SameAt(s, t, ref) || exists c :: c in changes && Explains(s, t, owner, ref, c)
  {
    hide RefsStored, RefsWithin, WordingOf, ContentOf, NewerOrTie;
    if i :| 0 <= i < |changes| && verdicts[i].Written? && RefOf(owner, changes[i].record) == ref {
      assert Lawful(s, owner, changes[i], verdicts[i], CLIENT);
      assert verdicts[i].Accepted();
      assert Explains(s, t, owner, ref, changes[i]);
    }
  }

  /** `Explains` looks at the tables only where the entity is. */
  lemma ExplainsElsewhere(s: Store, t: Store, s': Store, t': Store, owner: string, ref: Ref, c: Change)
    requires SameAt(s, s', ref) && SameAt(t, t', ref) && Explains(s, t, owner, ref, c)
    ensures Explains(s', t', owner, ref, c)
  {
    assert RowAt(s, ref) == RowAt(s', ref) && TombAt(s, ref) == TombAt(s', ref);
    assert RowAt(t, ref) == RowAt(t', ref);
  }

  /**
   A client push never overwrites what its sender did not know: every entity it changes carries a change
   whose base is the version it replaces (or the content is the same, or there was nothing to replace).
   */
  lemma PushNeverOverwritesBlindly(s: Store, owner: string, scan: seq<Ref>, request: Request, now: Time, ref: Ref)
    requires Inv(s) && WellFormed(request) && UniqueIds(request.notebooks) && UniqueIds(request.notes)
    ensures var t := Run(s, owner, scan, request, CLIENT, now).store;
      SameAt(s, t, ref) || (exists c :: c in request.notebooks + request.notes && Explains(s, t, owner, ref, c))
  {
    var o := Run(s, owner, scan, request, CLIENT, now);
    var mid, t := ApplyVerdicts(s, owner, o.notebooks, now), o.store;
    RunPhases(s, owner, scan, request, CLIENT, now);
    if ref.kind == NotebookKind {
      PhasesApart(mid, t, owner, request.notes, o.notes, ref);
      PhaseExplains(s, mid, owner, request.notebooks, o.notebooks, ref);
      if c :| c in request.notebooks && Explains(s, mid, owner, ref, c) {
        ExplainsElsewhere(s, mid, s, t, owner, ref, c);
        assert c in request.notebooks + request.notes;
      }
    } else {
      PhasesApart(s, mid, owner, request.notebooks, o.notebooks, ref);
      PhaseExplains(mid, t, owner, request.notes, o.notes, ref);
      if c :| c in request.notes && Explains(mid, t, owner, ref, c) {
        ExplainsElsewhere(mid, t, s, t, owner, ref, c);
        assert c in request.notebooks + request.notes;
      }
    }
  }

  lemma PhaseStores(s: Store, t: Store, owner: string, changes: seq<Change>, verdicts: seq<Verdict>, options: Options, i: nat)
    requires |verdicts| == |changes| && i < |changes| && Effect(s, t, owner, changes, verdicts)
    requires LawfulAll(s, owner, changes, verdicts, options)
    requires verdicts[i].Accepted()
    ensures StoredAs(t, owner, changes[i], verdicts[i])
  {
    assert Lawful(s, owner, changes[i], verdicts[i], options);
  }

  /** Every accepted notebook is in the tables afterwards, under the version the client is told. */
  lemma AcceptedNotebookIsStored(s: Store, owner: string, scan: seq<Ref>, request: Request, options: Options, now: Time, i: nat)
    requires Inv(s) && WellFormed(request) && UniqueIds(request.notebooks) && UniqueIds(request.notes)
    requires i < |request.notebooks| && Run(s, owner, scan, request, options, now).notebooks[i].Accepted()
    ensures var o := Run(s, owner, scan, request, options, now);
      StoredAs(o.store, owner, request.notebooks[i], o.notebooks[i])
  {
    var o := Run(s, owner, scan, request, options, now);
    var mid := ApplyVerdicts(s, owner, o.notebooks, now);
    RunPhases(s, owner, scan, request, options, now);
    PhaseStores(s, mid, owner, request.notebooks, o.notebooks, options, i);
    var ref := RefOf(owner, request.notebooks[i].record);
    PhasesApart(mid, o.store, owner, request.notes, o.notes, ref);
    assert RowAt(mid, ref) == RowAt(o.store, ref);
  }

  /** Every accepted note is in the tables afterwards, under the version the client is told. */
  lemma AcceptedNoteIsStored(s: Store, owner: string, scan: seq<Ref>, request: Request, options: Options, now: Time, i: nat)
    requires Inv(s) && WellFormed(request) && UniqueIds(request.notebooks) && UniqueIds(request.notes)
    requires i < |request.notes| && Run(s, owner, scan, request, options, now).notes[i].Accepted()
    ensures var o := Run(s, owner, scan, request, options, now);
      StoredAs(o.store, owner, request.notes[i], o.notes[i])
  {
    var o := Run(s, owner, scan, request, options, now);
    RunPhases(s, owner, scan, request, options, now);
    PhaseStores(ApplyVerdicts(s, owner, o.notebooks, now), o.store, owner, request.notes, o.notes, options, i);
  }

  /** A push of nothing changes nothing. */
  lemma RunOfNothing(s: Store, owner: string, scan: seq<Ref>, options: Options, now: Time)
    ensures WellFormed(Request([], []))
    ensures Run(s, owner, scan, Request([], []), options, now) == Outcome(s, [], [])
  {
  }

  /** A request of one note is one verdict, written or not. */
  lemma RunOfOneNote(s: Store, owner: string, scan: seq<Ref>, c: Change, options: Options, now: Time)
    requires c.record.NoteEntity? && c.record.Version() >= 1
    ensures WellFormed(Request([], [c]))
    ensures var v := NoteVerdict(s, owner, c, options); var o := Run(s, owner, scan, Request([], [c]), options, now);
      o == Outcome(if v.Written? then Put(s, RefOf(owner, v.entity), v.entity, now) else s, [], [v])
  {
    hide NoteVerdict, Put;
    var v := NoteVerdict(s, owner, c, options);
    assert [v][..0] == [];
    assert ApplyVerdicts(s, owner, [], now) == s;
    assert NoteVerdicts(s, owner, [c], options) == [v];
  }

  lemma RunOfOneNotebook(s: Store, owner: string, scan: seq<Ref>, c: Change, options: Options, now: Time)
    requires c.record.NotebookEntity? && c.record.Version() >= 1
    ensures WellFormed(Request([c], []))
    ensures var v := NotebookVerdict(s, owner, scan, Acc([], map[], {}), c, options);
      Run(s, owner, scan, Request([c], []), options, now)
        == Outcome(if v.Written? then Put(s, RefOf(owner, v.entity), v.entity, now) else s, [v], [])
  {
    hide NotebookVerdict, Put;
    var v := NotebookVerdict(s, owner, scan, Acc([], map[], {}), c, options);
    LoopLast(s, owner, scan, [], c, options);
    assert [] + [c] == [c];
    assert Record(Acc([], map[], {}), v).verdicts == [v];
    assert [v][..0] == [];
    assert ApplyVerdicts(s, owner, [], now) == s;
    assert ApplyVerdicts(s, owner, [v], now) == if v.Written? then Put(s, RefOf(owner, v.entity), v.entity, now) else s;
    var t := ApplyVerdicts(s, owner, [v], now);
    assert NoteVerdicts(t, owner, [], options) == [];
  }

  /** A note without notebooks is stored as it is. */
  lemma NothingToDrop(s: Store, owner: string, n: Note)
    requires n.notebookIds == [] && n.notebookId == None
    ensures NoteNotebookIds(n) == [] && Syncable(s, owner, n) == n
  {
    NormalizedStay([]);
  }

  /** An accepted note names no notebook that was not sent. */
  lemma AcceptedRefsWereSent(s: Store, owner: string, c: Change, options: Options)
    requires c.record.NoteEntity? && NoteVerdict(s, owner, c, options).Accepted()
    ensures var e := NoteVerdict(s, owner, c, options).entity; e.NoteEntity? && RefSet(e.note) <= RefSet(c.record.note)
  {
    hide LiveNotebook, NormalizedIds, Seqs.Filter, CoreOf, TombstoneOverwriteAllowed;
    var note := Syncable(s, owner, c.record.note);
    var ref := RefOf(owner, c.record);
    StoredIds(s, owner, c.record.note);
    if ref in s.rows {
      RecordsDifferIffContentDiffers(NoteEntity(note), s.rows[ref].entity);
    }
  }

  /** The reference set of a stored note is its list. */
  lemma StoredIds(s: Store, owner: string, note: Note)
    ensures var m := Syncable(s, owner, note); NoteNotebookIds(m) == m.notebookIds && RefSet(m) <= RefSet(note)
  {
    hide LiveNotebook, NormalizedIds;
    var ids := Syncable(s, owner, note).notebookIds;
    Seqs.FilterDistinct(NoteNotebookIds(note), id => LiveNotebook(s, owner, id));
    NormalizedStay(ids);
    NormalizedStay([]);
  }

  ghost predicate StoredAs(t: Store, owner: string, c: Change, v: Verdict)
    requires v.Accepted()
  {
    var ref := RefOf(owner, c.record);
    && ref in t.rows && t.rows[ref].entity == v.entity && CoreOf(v.entity) == CoreOf(c.record)
    && (v.Written? ==>
          WordingOf(v.entity) == WordingOf(c.record) && v.entity.UpdatedAt() == c.record.UpdatedAt() && v.entity.DeviceId() == c.record.DeviceId())
  }
}
