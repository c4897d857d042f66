/**
 The client's local store: one `Local` per note or notebook, and the conflicts waiting for the user.
 First what each operation does to one record, then the store object.
 */
module Client {
  import opened Wrappers
  import opened SyncSpec
  import opened Tables
  import opened Push
  import Seqs
  import Text

  datatype Status = Synced | Pending | InConflict | Deleted

  /** `base` is lastSyncedVersion: the server version this copy was last reconciled with. */
  datatype Local = Local(entity: Entity, status: Status, base: int)

  /** A conflict as the server reports it and as the client stores it. */
  datatype Conflict = Conflict(reason: Reason, local: Entity, remote: Entity)

  datatype Stored = Stored(conflict: Conflict, resolved: bool)

  /******* One record *******/

  function SafeBase(l: Local): (r: int)
    ensures r >= 0
  {
    if l.base >= 0 then l.base else 0
  }

  function SafePendingVersion(l: Local): (r: int)
    ensures r > SafeBase(l) && r > 0
  {
    if l.entity.Version() > SafeBase(l) && l.entity.Version() > 0 then l.entity.Version() else NextVersionAfter(SafeBase(l))
  }

  function WithDevice(e: Entity, device: string): Entity {
    if e.NoteEntity? then NoteEntity(e.note.(deviceId := device)) else NotebookEntity(e.notebook.(deviceId := device))
  }

  function WithRefs(e: Entity, ids: seq<string>): Entity {
    if e.NoteEntity? then NoteEntity(e.note.(notebookIds := ids, notebookId := if ids == [] then None else Some(ids[0]))) else e
  }

  function WithTime(e: Entity, t: Time): Entity {
    if e.NoteEntity? then NoteEntity(e.note.(updatedAt := t)) else NotebookEntity(e.notebook.(updatedAt := t))
  }

  predicate LocalOnlyDeleted(l: Local) {
    SafeBase(l) == 0 && l.entity.IsDeleted()
  }

  /** The notebook ids a push sends: the normalized list, else the legacy id. */
  function PendingIds(n: Note): seq<string> {
    var ids := NormalizedIds(n.notebookIds);
    if ids != [] then ids
    else if NormalizedId(n.notebookId).Some? then [NormalizedId(n.notebookId).value]
    else []
  }

  /** preparePendingNote and preparePendingNotebook. */
  function Prepared(l: Local, device: string): Local {
    var e := if l.entity.NoteEntity? then WithRefs(l.entity, PendingIds(l.entity.note)) else l.entity;
    Local(WithDevice(e, device).WithVersion(SafePendingVersion(l)), Pending, SafeBase(l))
  }

  /** Any local edit: new content, one version up, pending; the base stays. */
  function Edited(l: Local, e: Entity, device: string, now: Time): Local {
    Local(WithTime(WithDevice(e, device), now).WithVersion(l.entity.Version() + 1), Pending, l.base)
  }

  predicate StillMatches(l: Local, pushed: Entity) {
    l.entity.Version() == pushed.Version() && l.entity.UpdatedAt() == pushed.UpdatedAt()
  }

  /** markAcceptedChanges for one record that was pushed as `pushed` and accepted under `version`. */
  function Accepted(l: Local, pushed: Entity, version: int): Local {
    if StillMatches(l, pushed) then Local(l.entity.WithVersion(version), Synced, version)
    else Local(l.entity, Pending, version)
  }

  predicate Absorbable(c: Conflict, device: string) {
    c.reason == RemoteChanged && c.remote.DeviceId() == device
  }

  /** absorbSameDevicePushConflict: the remote side is this device's own earlier write. */
  function Absorbed(l: Local, remoteVersion: int): Local {
    Local(l.entity, if l.status == Deleted then Deleted else Pending, Max(l.base, remoteVersion))
  }

  predicate CanApplyRemoteDelete(l: Local) {
    l.status != Pending && l.status != InConflict
  }

  function FromRemote(remote: Entity): Local { Local(remote, Synced, remote.Version()) }

  /** The record is the server's row, word for word and under its version. */
  ghost predicate IsRow(l: Local, row: Entity) { l.entity == row && l.status == Synced && l.base == row.Version() }

  datatype Merge = Take(local: Local) | Clash | Ignore

  /** mergeRemoteNote and mergeRemoteNotebook for one pulled record. */
  function Merged(l: Option<Local>, remote: Entity, device: string): Merge {
    match l
    case None => Take(FromRemote(remote))
    case Some(local) =>
      if local.status == Pending && local.base != remote.Version() && RecordsDiffer(local.entity, remote) then
        if remote.DeviceId() == device then
          if remote.Version() > local.base then Take(local.(base := remote.Version())) else Ignore
        else Clash
      else if local.status != Pending && local.status != InConflict then Take(FromRemote(remote))
      else Ignore
  }

  /** A single choice: the remote record as synced, or the local one pending on top of it. */
  function Resolved(c: Conflict, choice: Choice, device: string): Local {
    if SelectsRemote(c.local, c.remote, choice) then FromRemote(c.remote)
    else Local(WithDevice(c.local, device).WithVersion(NextVersionAfter(c.remote.Version())), Pending, c.remote.Version())
  }

  /** A reference rewrite (a deleted notebook removed, or a notebook replaced by another). */
  predicate CanRewrite(l: Local) {
    l.entity.NoteEntity? && l.status != InConflict && l.status != Deleted && !l.entity.IsDeleted()
  }

  function Rewritten(l: Local, ids: seq<string>, device: string, t: Time): Local {
    Local(WithTime(WithDevice(WithRefs(l.entity, ids), device), t).WithVersion(SafePendingVersion(l)), Pending, l.base)
  }

  function Unlike(gone: string): string -> bool { id => id != gone }

  function Without(ids: seq<string>, gone: string): seq<string> {
    Seqs.Filter(ids, Unlike(gone))
  }

  function Swap(from: string, to: string): string -> string { id => if id == from then to else id }

  function Replaced(ids: seq<string>, from: string, to: string): seq<string> {
    NormalizedIds(Seqs.Map(Swap(from, to), ids))
  }

  /******* The records of a store *******/

  /** One record without its reference to a removed notebook. */
  function Unlinked(l: Local, notebook: string, device: string, t: Time): Local {
    if CanRewrite(l) && notebook in NoteNotebookIds(l.entity.note)
    then Rewritten(l, Without(NoteNotebookIds(l.entity.note), notebook), device, t)
    else l
  }

  /** One record pointing at another notebook. */
  function Relinked(l: Local, from: string, to: string, device: string, t: Time): Local {
    if CanRewrite(l) && from in NoteNotebookIds(l.entity.note)
       && Replaced(NoteNotebookIds(l.entity.note), from, to) != NoteNotebookIds(l.entity.note)
    then Rewritten(l, Replaced(NoteNotebookIds(l.entity.note), from, to), device, t)
    else l
  }

  function DropNotebook(records: map<Ref, Local>, notebook: string, device: string, t: Time): map<Ref, Local> {
    map ref | ref in records :: Unlinked(records[ref], notebook, device, t)
  }

  function MoveNotebook(records: map<Ref, Local>, from: string, to: string, device: string, t: Time): map<Ref, Local> {
    map ref | ref in records :: Relinked(records[ref], from, to, device, t)
  }

  /** The read/repair/write at the start of a sync: drop local-only deletions, repair the other pending records. */
  function PrepareAll(records: map<Ref, Local>, device: string): map<Ref, Local> {
    map ref | ref in records && !(records[ref].status == Pending && LocalOnlyDeleted(records[ref])) ::
      if records[ref].status == Pending then Prepared(records[ref], device) else records[ref]
  }

  /** What a sync will push: every pending record as repaired, on its base. */
  function Outbox(records: map<Ref, Local>, device: string): set<Change> {
    set ref | ref in records && records[ref].status == Pending && !LocalOnlyDeleted(records[ref])
      :: Change(Prepared(records[ref], device).entity, SafeBase(records[ref]))
  }

  /** One acceptance answered by the server. */
  datatype Ack = Ack(ref: Ref, pushed: Entity, version: int)

  function MarkAccepted(records: map<Ref, Local>, acks: seq<Ack>): map<Ref, Local> {
    if acks == [] then records
    else
      var r := MarkAccepted(records, acks[..|acks| - 1]);
      var ack := acks[|acks| - 1];
      if ack.ref in r then r[ack.ref := Accepted(r[ack.ref], ack.pushed, ack.version)] else r
  }

  function DeleteRecords(records: map<Ref, Local>, refs: seq<Ref>): map<Ref, Local> {
    if refs == [] then records
    else
      var r := DeleteRecords(records, refs[..|refs| - 1]);
      var ref := refs[|refs| - 1];
      if ref in r && CanApplyRemoteDelete(r[ref]) then r - {ref} else r
  }

  datatype Replica = Replica(device: string, records: map<Ref, Local>, conflicts: map<nat, Stored>)

  /** saveConflict: the stored local side is the record as it is now, which becomes conflicted. */
  function SaveConflict(r: Replica, ref: Ref, id: nat, c: Conflict): Replica {
    if ref in r.records then
      Replica(r.device, r.records[ref := r.records[ref].(status := InConflict)],
              r.conflicts[id := Stored(c.(local := r.records[ref].entity), false)])
    else r.(conflicts := r.conflicts[id := Stored(c, false)])
  }

  function Absorb(r: Replica, ref: Ref, c: Conflict): Replica {
    if ref in r.records then r.(records := r.records[ref := Absorbed(r.records[ref], c.remote.Version())]) else r
  }

  function MergeOne(r: Replica, owner: string, remote: Entity, id: nat): Replica {
    var ref := RefOf(owner, remote);
    match Merged(if ref in r.records then Some(r.records[ref]) else None, remote, r.device)
    case Take(l) => r.(records := r.records[ref := l])
    case Clash => SaveConflict(r, ref, id, Conflict(RemoteChanged, r.records[ref].entity, remote))
    case Ignore => r
  }

  /** Pulled records in order; the conflicts they raise are numbered from `id`. */
  function MergeAll(r: Replica, owner: string, remotes: seq<Entity>, id: nat): Replica {
    if remotes == [] then r
    else MergeOne(MergeAll(r, owner, remotes[..|remotes| - 1], id), owner, remotes[|remotes| - 1], id + |remotes| - 1)
  }

  /** Repairing a stored conflict whose remote side is this device's own write. */
  function RepairOne(r: Replica, owner: string, id: nat): Replica {
    if id in r.conflicts && !r.conflicts[id].resolved && Absorbable(r.conflicts[id].conflict, r.device) then
      var c := r.conflicts[id].conflict;
      Absorb(r, RefOf(owner, c.local), c).(conflicts := r.conflicts[id := Stored(c, true)])
    else r
  }

  /** What a push response's conflict does: absorbed when it is this device's own write, else saved. */
  function Refuse(r: Replica, owner: string, c: Conflict, id: nat): Replica {
    if Absorbable(c, r.device) then Absorb(r, RefOf(owner, c.local), c) else SaveConflict(r, RefOf(owner, c.local), id, c)
  }

  /******* Resolution *******/

  /** The record a resolution creates besides the chosen one: a new id, version 1, never synced, hash recomputed later. */
  function CopyOf(e: Entity, id: string, name: string, device: string, now: Time): Local {
    var copy :=
      match e
      case NoteEntity(n) => NoteEntity(n.(id := id, title := name, titleHash := None, createdAt := now))
      case NotebookEntity(n) => NotebookEntity(n.(id := id, name := name, nameHash := None, createdAt := now));
    Local(WithTime(WithDevice(copy, device), now).WithVersion(1), Pending, 0)
  }

  function CopyTitle(e: Entity): string {
    match e
    case NoteEntity(n) => if n.title == "" then "" else n.title + " copy"
    case NotebookEntity(n) => n.name + " copy"
  }

  /** resolveDuplicateNotebookNameConflict; `name` is the free name a copy would get. */
  function ResolvedNames(records: map<Ref, Local>, owner: string, c: Conflict, choice: Choice, copy: string, name: string, device: string, now: Time): map<Ref, Local> {
    var ref, remoteRef := RefOf(owner, c.local), RefOf(owner, c.remote);
    var taken := records[remoteRef := FromRemote(c.remote)];
    if choice != DuplicateBoth && SelectsRemote(c.local, c.remote, choice) then
      var moved := MoveNotebook(taken, c.local.Id(), c.remote.Id(), device, now);
      if ref != remoteRef then moved - {ref} else moved
    else
      var copyRef := ref.(id := copy);
      var moved := MoveNotebook(taken[copyRef := CopyOf(c.local, copy, name, device, now)], c.local.Id(), copy, device, now);
      if ref != copyRef then moved - {ref} else moved
  }

  /** resolveConflict for the other reasons. */
  function ResolvedRecords(records: map<Ref, Local>, owner: string, c: Conflict, choice: Choice, copy: string, device: string, now: Time): map<Ref, Local> {
    var ref := RefOf(owner, c.remote);
    if choice == DuplicateBoth then
      var both := records[ref := FromRemote(c.remote)][ref.(id := copy) := CopyOf(c.local, copy, CopyTitle(c.local), device, now)];
      if c.local.NotebookEntity? then MoveNotebook(both, c.local.Id(), copy, device, now) else both
    else
      var kept := records[ref := Resolved(c, choice, device)];
      if c.remote.NotebookEntity? && SelectsRemote(c.local, c.remote, choice) && c.remote.IsDeleted()
      then DropNotebook(kept, c.remote.Id(), device, now) else kept
  }

  function ResolveOne(r: Replica, owner: string, id: nat, choice: Choice, copy: string, name: string, now: Time): Replica {
    if id !in r.conflicts || r.conflicts[id].resolved then r
    else
      var c := r.conflicts[id].conflict;
      Replica(r.device,
        if c.reason == DuplicateName then ResolvedNames(r.records, owner, c, choice, copy, name, r.device, now)
        else ResolvedRecords(r.records, owner, c, choice, copy, r.device, now),
        r.conflicts[id := Stored(c, true)])
  }

  /******* Everything a device can do to its store *******/

  datatype Action =
    | Edit(ref: Ref, content: Entity, now: Time)
    | Create(content: Entity, now: Time)
    | Discard(ref: Ref)
    | Prepare
    | Receive(ack: Ack)
    | Refused(conflict: Conflict, conflictId: nat)
    | PullRow(remote: Entity, conflictId: nat)
    | PullDelete(ref: Ref)
    | DropReferences(notebook: string, now: Time)
    | Resolve(conflictId: nat, choice: Choice, copy: string, name: string, now: Time)
    | Repair(conflictId: nat)

  function Act(r: Replica, owner: string, a: Action): Replica {
    match a
    case Edit(ref, e, now) =>
      if ref in r.records && RefOf(owner, e) == ref then r.(records := r.records[ref := Edited(r.records[ref], e, r.device, now)]) else r
    case Create(e, now) =>
      if RefOf(owner, e) in r.records then r
      else r.(records := r.records[RefOf(owner, e) := Local(WithTime(WithDevice(e, r.device), now).WithVersion(1), Pending, 0)])
    case Discard(ref) => r.(records := r.records - {ref})
    case Prepare => r.(records := PrepareAll(r.records, r.device))
    case Receive(ack) => r.(records := MarkAccepted(r.records, [ack]))
    case Refused(c, id) => Refuse(r, owner, c, id)
    case PullRow(remote, id) => MergeOne(r, owner, remote, id)
    case PullDelete(ref) => r.(records := DeleteRecords(r.records, [ref]))
    case DropReferences(notebook, now) => r.(records := DropNotebook(r.records, notebook, r.device, now))
    case Resolve(id, choice, copy, name, now) => ResolveOne(r, owner, id, choice, copy, name, now)
    case Repair(id) => RepairOne(r, owner, id)
  }
}
