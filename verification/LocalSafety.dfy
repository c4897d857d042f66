/** What a device never loses: each step of a sync keeps the texts its user wrote. */
module LocalSafety {
  import opened Wrappers
  import opened SyncSpec
  import opened Tables
  import opened Push
  import opened Client
  import opened System
  import Seqs
  import Text

  /******* The shape of a store *******/

  /** What the tables of a device hold: records under their own key. */
  predicate Keyed(records: map<Ref, Local>) {
    forall ref :: ref in records ==> RefOf(OWNER, records[ref].entity) == ref
  }

  /** Only a duplicate name is a conflict between two records. */
  predicate Fitting(c: Conflict) {
    c.reason != DuplicateName ==> RefOf(OWNER, c.remote) == RefOf(OWNER, c.local)
  }

  ghost predicate WellKept(r: Replica) {
    Keyed(r.records) && forall id :: id in r.conflicts ==> Fitting(r.conflicts[id].conflict)
  }

  lemma MovedKeyed(records: map<Ref, Local>, from: string, to: string, device: string, t: Time)
    requires Keyed(records)
    ensures Keyed(MoveNotebook(records, from, to, device, t))
  {
    hide NoteNotebookIds, Replaced, SafePendingVersion;
  }

  lemma DroppedKeyed(records: map<Ref, Local>, notebook: string, device: string, t: Time)
    requires Keyed(records)
    ensures Keyed(DropNotebook(records, notebook, device, t))
  {
    hide NoteNotebookIds, Without, SafePendingVersion;
  }

  /** Every way of settling a conflict leaves the store well kept, copies and remapped references included. */
  lemma ResolveKeepsWell(r: Replica, id: nat, choice: Choice, copy: string, name: string, now: Time)
    requires WellKept(r)
    ensures WellKept(ResolveOne(r, OWNER, id, choice, copy, name, now))
  {
    hide MoveNotebook, DropNotebook, SelectsRemote;
    if id in r.conflicts && !r.conflicts[id].resolved {
      var c := r.conflicts[id].conflict;
      var ref, remoteRef := RefOf(OWNER, c.local), RefOf(OWNER, c.remote);
      var taken := r.records[remoteRef := FromRemote(c.remote)];
      if c.reason == DuplicateName {
        MovedKeyed(taken, c.local.Id(), c.remote.Id(), r.device, now);
        MovedKeyed(taken[ref.(id := copy) := CopyOf(c.local, copy, name, r.device, now)], c.local.Id(), copy, r.device, now);
      } else {
        MovedKeyed(taken[remoteRef.(id := copy) := CopyOf(c.local, copy, CopyTitle(c.local), r.device, now)], c.local.Id(), copy, r.device, now);
        DroppedKeyed(r.records[remoteRef := Resolved(c, choice, r.device)], c.remote.Id(), r.device, now);
      }
    }
  }

  /******* What is never lost *******/

  /** The record says the same, is still waiting for the server or the user, and was not forgotten. */
  ghost predicate Unlost(before: map<Ref, Local>, after: map<Ref, Local>, ref: Ref) {
    ref in before && (before[ref].status == Pending || before[ref].status == InConflict) ==>
      && ref in after && after[ref].entity == before[ref].entity
      && (after[ref].status == Pending || after[ref].status == InConflict)
  }

  /** Another device's change on another base than the local edit's, with another content. */
  predicate Clashes(r: Replica, owner: string, remote: Entity) {
    var ref := RefOf(owner, remote);
    && ref in r.records && r.records[ref].status == Pending && r.records[ref].base != remote.Version()
    && RecordsDiffer(r.records[ref].entity, remote) && remote.DeviceId() != r.device
  }

  /** A later write of this device itself, by which a pending edit only learns its base. */
  predicate OwnNewWrite(r: Replica, owner: string, remote: Entity) {
    var ref := RefOf(owner, remote);
    && ref in r.records && r.records[ref].status == Pending && r.records[ref].base < remote.Version()
    && RecordsDiffer(r.records[ref].entity, remote) && remote.DeviceId() == r.device
  }

  /**
   A pulled row never replaces an edit: a pending record keeps its text, and when the row is another device's change
   on another base, the conflict stores both sides; a record without edits becomes the row.
   */
  lemma MergeLosesNoEdit(r: Replica, owner: string, remote: Entity, id: nat)
    requires id !in r.conflicts
    ensures var ref := RefOf(owner, remote); var r' := MergeOne(r, owner, remote, id);
      && (forall other :: Unlost(r.records, r'.records, other))
      && (forall other :: other != ref ==> (other in r'.records <==> other in r.records))
      && (ref !in r.records || (r.records[ref].status != Pending && r.records[ref].status != InConflict) ==>
            ref in r'.records && IsRow(r'.records[ref], remote))
      && (ref in r.records && (r.records[ref].status == Pending || r.records[ref].status == InConflict) ==>
            ref in r'.records && r'.records[ref] == r.records[ref].(
              status := if Clashes(r, owner, remote) then InConflict else r.records[ref].status,
              base := if OwnNewWrite(r, owner, remote) then remote.Version() else r.records[ref].base))
      && (id in r'.conflicts <==> Clashes(r, owner, remote))
      && (id in r'.conflicts ==> r'.conflicts[id] == Stored(Conflict(RemoteChanged, r.records[ref].entity, remote), false))
  {
    hide RecordsDiffer;
  }

  /** A refused change about which the user is asked: both sides are stored, the local one as it is now, and no text changes. */
  lemma RefusalKeepsBothSides(r: Replica, c: Conflict, id: nat)
    requires c.reason != RemoteChanged || c.remote.DeviceId() != r.device
    ensures var r' := Refuse(r, OWNER, c, id); var ref := RefOf(OWNER, c.local);
      && r'.device == r.device && r'.records.Keys == r.records.Keys && r'.records - {ref} == r.records - {ref}
      && r'.conflicts.Keys == r.conflicts.Keys + {id} && r'.conflicts - {id} == r.conflicts - {id}
      && r'.conflicts[id] == Stored(Conflict(c.reason, if ref in r.records then r.records[ref].entity else c.local, c.remote), false)
      && (ref in r.records ==>
            && r'.records[ref].entity == r.records[ref].entity && r'.records[ref].base == r.records[ref].base
            && r'.records[ref].status == InConflict)
  {
  }

  lemma {:induction false} MergesLoseNoEdit(r: Replica, owner: string, remotes: seq<Entity>, id: nat)
    requires forall k: nat :: k in r.conflicts ==> k < id
    ensures forall k: nat :: k in MergeAll(r, owner, remotes, id).conflicts ==> k < id + |remotes|
    ensures forall k: nat :: k in r.conflicts ==>
      k in MergeAll(r, owner, remotes, id).conflicts && MergeAll(r, owner, remotes, id).conflicts[k] == r.conflicts[k]
    ensures forall ref :: Unlost(r.records, MergeAll(r, owner, remotes, id).records, ref)
  {
    if remotes != [] {
      var front, last := remotes[..|remotes| - 1], remotes[|remotes| - 1];
      MergesLoseNoEdit(r, owner, front, id);
      var mid := MergeAll(r, owner, front, id);
      var next: nat := id + |remotes| - 1;
      var after := MergeOne(mid, owner, last, next);
      assert MergeAll(r, owner, remotes, id) == after;
      hide MergeAll, MergeOne;
      MergeLosesNoEdit(mid, owner, last, next);
      MergeConflicts(mid, owner, last, next);
      forall ref ensures Unlost(r.records, after.records, ref) {
        assert Unlost(r.records, mid.records, ref) && Unlost(mid.records, after.records, ref);
      }
    }
  }

  lemma MergeConflicts(r: Replica, owner: string, remote: Entity, id: nat)
    ensures var r' := MergeOne(r, owner, remote, id);
      && (forall k :: k in r'.conflicts ==> k in r.conflicts || k == id)
      && (forall k :: k in r.conflicts && k != id ==> k in r'.conflicts && r'.conflicts[k] == r.conflicts[k])
  {
    hide RecordsDiffer;
  }

  /** Pulled deletions forget exactly the named records that hold no edit. */
  lemma {:induction false} DeletesSpareEdits(records: map<Ref, Local>, refs: seq<Ref>)
    ensures var after := DeleteRecords(records, refs);
      forall ref :: (ref in after <==> ref in records && (ref in refs ==> records[ref].status == Pending || records[ref].status == InConflict))
                    && (ref in after ==> after[ref] == records[ref])
  {
    if refs != [] {
      var front, last := refs[..|refs| - 1], refs[|refs| - 1];
      assert refs == front + [last];
      DeletesSpareEdits(records, front);
    }
  }

  /** A stored conflict about this device's own write is settled without asking, and the edit goes on top of that write. */
  lemma RepairSettlesOwnWrites(r: Replica, id: nat)
    ensures var r' := RepairOne(r, OWNER, id);
      if id in r.conflicts && !r.conflicts[id].resolved && r.conflicts[id].conflict.reason == RemoteChanged
         && r.conflicts[id].conflict.remote.DeviceId() == r.device then
        var c := r.conflicts[id].conflict; var ref := RefOf(OWNER, c.local);
        && r'.conflicts == r.conflicts[id := Stored(c, true)] && r'.device == r.device
        && r'.records.Keys == r.records.Keys && r'.records - {ref} == r.records - {ref}
        && (ref in r.records ==>
              && r'.records[ref].entity == r.records[ref].entity
              && r'.records[ref].base == (if r.records[ref].base >= c.remote.Version() then r.records[ref].base else c.remote.Version())
              && r'.records[ref].status == (if r.records[ref].status == Status.Deleted then Status.Deleted else Pending))
      else r' == r
  {
  }

  ghost predicate IsPendingChange(records: map<Ref, Local>, device: string, ref: Ref, c: Change) {
    && ref in records && records[ref].status == Pending && (records[ref].base > 0 || !records[ref].entity.IsDeleted())
    && ReadyAs(records[ref], Local(c.record, Pending, c.base), device)
  }

  /** The record ready to be sent: as it was word for word, under this device's name and a version above its base. */
  ghost predicate ReadyAs(l: Local, l': Local, device: string) {
    && l'.status == Pending && l'.base == (if l.base >= 0 then l.base else 0)
    && l'.entity.Kind() == l.entity.Kind() && l'.entity.Id() == l.entity.Id()
    && WordingOf(l'.entity) == WordingOf(l.entity) && l'.entity.UpdatedAt() == l.entity.UpdatedAt()
    && l'.entity.DeviceId() == device
    && l'.entity.Version() == (if l.entity.Version() > l'.base then l.entity.Version() else l'.base + 1)
    && ReadyRefs(l.entity, l'.entity)
  }

  /** Every notebook the note is in is sent, in order, the first one as the primary. */
  ghost predicate ReadyRefs(e: Entity, e': Entity) {
    e.NoteEntity? && e'.NoteEntity? && NoteNotebookIds(e.note) != [] ==>
      && e'.note.notebookIds == NoteNotebookIds(e.note) == NoteNotebookIds(e'.note)
      && e'.note.notebookId == Some(NoteNotebookIds(e.note)[0])
  }

  /**
   Before a push every pending record but the local-only deletions is still there, word for word and with its notebooks, and is
   in the outbox under a version above its base; nothing else changes, and nothing else is sent.
   */
  lemma PrepareSendsEveryEdit(records: map<Ref, Local>, device: string, ref: Ref)
    requires ref in records
    ensures var after := PrepareAll(records, device); var l := records[ref];
      && (l.status != Pending ==> ref in after && after[ref] == l)
      && (l.status == Pending ==> (ref in after <==> l.base > 0 || !l.entity.IsDeleted()))
      && (l.status == Pending && ref in after ==>
            ReadyAs(l, after[ref], device) && Change(after[ref].entity, after[ref].base) in Outbox(records, device))
    ensures forall c :: c in Outbox(records, device) ==> exists other :: IsPendingChange(records, device, other, c)
  {
    hide PendingIds, ReadyAs;
    if records[ref].status == Pending { PreparedIsReady(records[ref], device); }
    forall c | c in Outbox(records, device) ensures exists other :: IsPendingChange(records, device, other, c) {
      var other :| other in records && records[other].status == Pending && !LocalOnlyDeleted(records[other])
        && c == Change(Prepared(records[other], device).entity, SafeBase(records[other]));
      PreparedIsReady(records[other], device);
      assert IsPendingChange(records, device, other, c);
    }
  }

  lemma PreparedIsReady(l: Local, device: string)
    requires l.status == Pending
    ensures ReadyAs(l, Prepared(l, device), device)
  {
    hide PendingIds, NormalizedIds, ReadyRefs;
    PreparedRefs(l, device);
  }

  lemma PreparedRefs(l: Local, device: string)
    ensures ReadyRefs(l.entity, Prepared(l, device).entity)
  {
    hide NormalizedIds, PendingIds, SafePendingVersion;
    if l.entity.NoteEntity? && NoteNotebookIds(l.entity.note) != [] {
      PendingIdsAreRefs(l.entity.note);
      NormalizedStay(NoteNotebookIds(l.entity.note));
    }
  }

  /** What a push sends of the references is what the note shows. */
  lemma PendingIdsAreRefs(n: Note)
    requires NoteNotebookIds(n) != []
    ensures PendingIds(n) == NoteNotebookIds(n)
  {
    if |n.notebookIds| == 0 {
      OneId(n.notebookId.value);
      NoIds();
    }
  }

  lemma NoIds()
    ensures NormalizedIds([]) == []
  {
    NormalizedStay([]);
  }

  /** A single id is normalized by trimming, and drops out when nothing is left. */
  lemma OneId(id: string)
    ensures NormalizedIds([id]) == if Text.Trim(id) == "" then [] else [Text.Trim(id)]
  {
    hide Text.Trim;
    assert Seqs.Map(Text.Trim, [id]) == [Text.Trim(id)];
    assert [Text.Trim(id)][..0] == [];
  }

  /** One answer: a record still under the pushed version and time is synced under the new version, any other waits on top of it. */
  lemma AnswerSettles(l: Local, a: Ack)
    ensures var l' := Accepted(l, a.pushed, a.version); var same := l.entity.Version() == a.pushed.Version() && l.entity.UpdatedAt() == a.pushed.UpdatedAt();
      && l'.base == a.version && l'.status == (if same then Synced else Pending)
      && l'.entity.Version() == (if same then a.version else l.entity.Version())
      && WordingOf(l'.entity) == WordingOf(l.entity) && RefsOf(l'.entity) == RefsOf(l.entity)
      && l'.entity.UpdatedAt() == l.entity.UpdatedAt() && l'.entity.DeviceId() == l.entity.DeviceId()
  {
    OnlyTheVersionChanges(l.entity, a.version);
  }

  /** Answers to a push never change a text; an edited record stays pending, an unedited one becomes synced. */
  lemma {:induction false} AnswersKeepTexts(records: map<Ref, Local>, acks: seq<Ack>)
    ensures var after := MarkAccepted(records, acks);
      && after.Keys == records.Keys
      && (forall ref :: ref in records ==> after[ref].entity == records[ref].entity.WithVersion(after[ref].entity.Version()))
      && (forall ref :: ref in records && (forall a :: a in acks ==> a.ref != ref) ==> after[ref] == records[ref])
  {
    hide Accepted;
    if acks == [] {
      VersionsCompose();
    } else {
      var front, last := acks[..|acks| - 1], acks[|acks| - 1];
      assert acks == front + [last];
      AnswersKeepTexts(records, front);
      forall ref | ref in records
        ensures MarkAccepted(records, acks)[ref].entity == records[ref].entity.WithVersion(MarkAccepted(records, acks)[ref].entity.Version())
      {
        OneAnswerKeepsText(records[ref].entity, MarkAccepted(records, front)[ref], last);
      }
    }
  }

  lemma OneAnswerKeepsText(e: Entity, l: Local, a: Ack)
    requires l.entity == e.WithVersion(l.entity.Version())
    ensures var l' := Accepted(l, a.pushed, a.version); l'.entity == e.WithVersion(l'.entity.Version())
  {
    hide StillMatches;
  }

  lemma VersionsCompose()
    ensures forall e: Entity :: e.WithVersion(e.Version()) == e
  {
  }

  /** A live note that is neither in conflict nor given up. */
  predicate MayRewrite(l: Local) {
    l.entity.NoteEntity? && l.entity.note.deletedAt.None? && (l.status == Synced || l.status == Pending)
  }

  /** The record waits for the server, as written by this device now, above its base. */
  ghost predicate RewrittenNow(l: Local, l': Local, device: string, t: Time) {
    && l'.status == Pending && l'.base == l.base && l'.entity.Version() > l.base
    && l'.entity.DeviceId() == device && l'.entity.UpdatedAt() == t && l'.entity.Id() == l.entity.Id()
  }

  /** Removing a notebook takes exactly that reference out of the notes that may be rewritten, and keeps their texts. */
  lemma DroppingKeepsTexts(records: map<Ref, Local>, notebook: string, device: string, t: Time, ref: Ref)
    requires ref in records
    ensures Unlinks(records[ref], DropNotebook(records, notebook, device, t)[ref], notebook, device, t)
  {
    hide Unlinked, Unlinks;
    UnlinkedUnlinks(records[ref], notebook, device, t);
  }

  ghost predicate Unlinks(l: Local, l': Local, notebook: string, device: string, t: Time) {
    if MayRewrite(l) && notebook in RefSet(l.entity.note) then
      && RewrittenNow(l, l', device, t) && WordingOf(l'.entity) == WordingOf(l.entity)
      && l'.entity.NoteEntity? && RefSet(l'.entity.note) == RefSet(l.entity.note) - {notebook} && FirstIsPrimary(l'.entity.note)
      && Seqs.InOrder(l'.entity.note.notebookIds, NoteNotebookIds(l.entity.note))
    else l' == l
  }

  lemma UnlinkedUnlinks(l: Local, notebook: string, device: string, t: Time)
    ensures Unlinks(l, Unlinked(l, notebook, device, t), notebook, device, t)
  {
    hide NoteNotebookIds, RefSet, RewrittenNow, Seqs.InOrder;
    if MayRewrite(l) {
      Seqs.FilterInOrder(NoteNotebookIds(l.entity.note), Unlike(notebook));
      RefSetIs(l.entity.note);
      RewrittenRefs(l, notebook, device, t);
      RewrittenIsNow(l, Without(NoteNotebookIds(l.entity.note), notebook), device, t);
    }
  }

  lemma RefSetIs(n: Note)
    ensures forall id :: id in RefSet(n) <==> id in NoteNotebookIds(n)
  {
  }

  lemma RewrittenIsNow(l: Local, ids: seq<string>, device: string, t: Time)
    requires MayRewrite(l)
    ensures var l' := Rewritten(l, ids, device, t);
      RewrittenNow(l, l', device, t) && WordingOf(l'.entity) == WordingOf(l.entity)
  {
    hide NormalizedIds;
  }

  lemma RewrittenRefs(l: Local, notebook: string, device: string, t: Time)
    requires CanRewrite(l)
    ensures var l' := Rewritten(l, Without(NoteNotebookIds(l.entity.note), notebook), device, t);
      l'.entity.NoteEntity? && RefSet(l'.entity.note) == RefSet(l.entity.note) - {notebook} && FirstIsPrimary(l'.entity.note)
  {
    hide NormalizedIds, SafePendingVersion;
    var n := l.entity.note;
    var ids := Without(NoteNotebookIds(n), notebook);
    WithoutIds(n, notebook);
    assert NoteNotebookIds(Rewritten(l, ids, device, t).entity.note) == ids;
  }

  lemma WithoutIds(n: Note, notebook: string)
    ensures var ids := Without(NoteNotebookIds(n), notebook);
      NoteNotebookIds(n.(notebookIds := ids, notebookId := if ids == [] then None else Some(ids[0]))) == ids
  {
    hide NormalizedIds;
    var ids := Without(NoteNotebookIds(n), notebook);
    Seqs.FilterDistinct(NoteNotebookIds(n), Unlike(notebook));
    NormalizedStay(ids);
    NormalizedStay([]);
  }

  /** The references of a note after one notebook took the place of another. */
  function Renamed(refs: set<string>, from: string, to: string): set<string> {
    set id | id in refs :: if id == from then to else id
  }

  lemma ReplacedIds(ids: seq<string>, from: string, to: string)
    requires forall id :: id in ids ==> id != "" && Text.Trim(id) == id
    requires to != "" && Text.Trim(to) == to
    ensures forall x :: x in Replaced(ids, from, to) <==> x in Seqs.Map(Swap(from, to), ids)
    ensures Replaced(ids, from, to) == Seqs.Dedupe(Seqs.Map(Swap(from, to), ids))
  {
    hide Text.Trim;
    var mapped := Seqs.Map(Swap(from, to), ids);
    forall x | x in mapped ensures x != "" && Text.Trim(x) == x {
      var i :| 0 <= i < |mapped| && mapped[i] == x;
      assert ids[i] in ids;
    }
    var trimmed := Seqs.Map(Text.Trim, mapped);
    assert trimmed == mapped by {
      forall i | 0 <= i < |mapped| ensures trimmed[i] == mapped[i] {
        assert mapped[i] in mapped;
      }
    }
    Seqs.FilterAll(mapped, id => id != "");
  }

  lemma SwappedSet(ids: seq<string>, from: string, to: string)
    ensures forall x :: x in Seqs.Map(Swap(from, to), ids) <==> x in Renamed((set id | id in ids), from, to)
  {
    var mapped, refs := Seqs.Map(Swap(from, to), ids), set id | id in ids;
    forall x | x in mapped ensures x in Renamed(refs, from, to) {
      var i :| 0 <= i < |mapped| && mapped[i] == x;
      assert ids[i] in refs;
    }
    forall x | x in Renamed(refs, from, to) ensures x in mapped {
      var id :| id in refs && x == (if id == from then to else id);
      var i :| 0 <= i < |ids| && ids[i] == id;
      assert mapped[i] == x;
    }
  }

  /** The references of a rewritten note are its new list. */
  lemma RewrittenIds(l: Local, ids: seq<string>, device: string, t: Time)
    requires CanRewrite(l) && Seqs.Distinct(ids) && forall id :: id in ids ==> id != "" && Text.Trim(id) == id
    ensures var l' := Rewritten(l, ids, device, t);
      && l'.entity.NoteEntity? && WordingOf(l'.entity) == WordingOf(l.entity) && l'.base == l.base
      && NoteNotebookIds(l'.entity.note) == l'.entity.note.notebookIds == ids && FirstIsPrimary(l'.entity.note)
  {
    hide NormalizedIds, SafePendingVersion, KeyOfText, Text.Trim;
    NormalizedStay(ids);
    NormalizedStay([]);
  }

  /** A live note that names the one notebook names the other instead, as written by this device now; else nothing changes. */
  ghost predicate Relinks(l: Local, l': Local, from: string, to: string, device: string, t: Time) {
    if MayRewrite(l) && from in RefSet(l.entity.note) then
      && RewrittenNow(l, l', device, t) && WordingOf(l'.entity) == WordingOf(l.entity)
      && l'.entity.NoteEntity? && RefSet(l'.entity.note) == Renamed(RefSet(l.entity.note), from, to)
      && FirstIsPrimary(l'.entity.note) && InItsPlace(NoteNotebookIds(l.entity.note), l'.entity.note.notebookIds, from, to)
    else l' == l
  }

  /** The order is that of before, with the one id where the other was; a first id stays first. */
  ghost predicate InItsPlace(ids: seq<string>, ids': seq<string>, from: string, to: string) {
    && Seqs.InOrder(ids', seq(|ids|, i requires 0 <= i < |ids| => if ids[i] == from then to else ids[i]))
    && (ids != [] ==> ids' != [] && ids'[0] == if ids[0] == from then to else ids[0])
  }

  lemma ReplacedInPlace(ids: seq<string>, from: string, to: string)
    requires forall id :: id in ids ==> id != "" && Text.Trim(id) == id
    requires to != "" && Text.Trim(to) == to
    ensures InItsPlace(ids, Replaced(ids, from, to), from, to)
  {
    hide Text.Trim, Seqs.InOrder, Replaced;
    ReplacedIds(ids, from, to);
    Seqs.DedupeInOrder(Seqs.Map(Swap(from, to), ids));
    assert Seqs.Map(Swap(from, to), ids) == seq(|ids|, i requires 0 <= i < |ids| => if ids[i] == from then to else ids[i]);
  }

  predicate FirstIsPrimary(n: Note) {
    n.notebookId == if n.notebookIds == [] then None else Some(n.notebookIds[0])
  }

  lemma RelinkedRelinks(l: Local, from: string, to: string, device: string, t: Time)
    requires to != "" && Text.Trim(to) == to && from != to
    ensures Relinks(l, Relinked(l, from, to, device, t), from, to, device, t)
  {
    hide NormalizedIds, NoteNotebookIds, Rewritten, RewrittenNow, Replaced, Renamed, RefSet, Text.Trim, InItsPlace;
    if MayRewrite(l) {
      var ids := NoteNotebookIds(l.entity.note);
      RefSetIs(l.entity.note);
      if from in ids {
        RelinkedRefs(l, from, to, device, t);
        RewrittenIsNow(l, Replaced(ids, from, to), device, t);
      }
    }
  }

  lemma RelinkedRefs(l: Local, from: string, to: string, device: string, t: Time)
    requires MayRewrite(l) && to != "" && Text.Trim(to) == to && from != to && from in NoteNotebookIds(l.entity.note)
    ensures var ids := NoteNotebookIds(l.entity.note); var l' := Rewritten(l, Replaced(ids, from, to), device, t);
      && Replaced(ids, from, to) != ids && l'.entity.NoteEntity? && FirstIsPrimary(l'.entity.note)
      && RefSet(l'.entity.note) == Renamed(RefSet(l.entity.note), from, to)
      && InItsPlace(ids, l'.entity.note.notebookIds, from, to)
  {
    hide NormalizedIds, NoteNotebookIds, Rewritten, Replaced, Renamed, Text.Trim, InItsPlace;
    var ids := NoteNotebookIds(l.entity.note);
    var next := Replaced(ids, from, to);
    ReplacedIds(ids, from, to);
    SwappedSet(ids, from, to);
    ReplacedNormal(ids, from, to);
    RewrittenIds(l, next, device, t);
    ReplacedInPlace(ids, from, to);
    assert from !in next by { NoneLeft(ids, from, to); }
  }

  lemma NoneLeft(ids: seq<string>, from: string, to: string)
    requires from != to
    ensures from !in Seqs.Map(Swap(from, to), ids)
  {
  }

  lemma ReplacedNormal(ids: seq<string>, from: string, to: string)
    ensures Seqs.Distinct(Replaced(ids, from, to))
    ensures forall id :: id in Replaced(ids, from, to) ==> id != "" && Text.Trim(id) == id
  {
  }

  /** What a settled conflict leaves of a note: its text, and its references with one notebook replaced by another. */
  ghost predicate NoteMoved(before: map<Ref, Local>, after: map<Ref, Local>, ref: Ref, from: string, to: string, device: string, t: Time) {
    ref in before ==> ref in after && Relinks(before[ref], after[ref], from, to, device, t)
  }

  ghost predicate SameEntry(before: map<Ref, Local>, after: map<Ref, Local>, ref: Ref) {
    (ref in after <==> ref in before) && (ref in before ==> after[ref] == before[ref])
  }

  predicate Later(a: Entity, b: Entity) {
    a.UpdatedAt() > b.UpdatedAt() || (a.UpdatedAt() == b.UpdatedAt() && a.Version() > b.Version())
  }

  /** The choice takes the server's side: outright, or because it is the newer or the older one. */
  predicate TakesRemote(c: Conflict, choice: Choice) {
    || choice == KeepRemote
    || (choice == KeepNewer && Later(c.remote, c.local))
    || (choice == KeepOlder && Later(c.local, c.remote))
  }

  lemma TakesRemoteIs(c: Conflict, choice: Choice)
    ensures SelectsRemote(c.local, c.remote, choice) <==> TakesRemote(c, choice)
  {
  }

  /** What is left of the local side under a new id: never synced, of this device and time, under the new name, else as it was. */
  ghost predicate CopiedAs(local: Entity, l: Local, copy: string, name: string, device: string, now: Time) {
    && l.status == Pending && l.base == 0
    && match local
       case NoteEntity(n) => l.entity == NoteEntity(n.(id := copy, title := name, titleHash := None, createdAt := now,
                                                        updatedAt := now, deviceId := device, version := 1))
       case NotebookEntity(n) => l.entity == NotebookEntity(n.(id := copy, name := name, nameHash := None, createdAt := now,
                                                                updatedAt := now, deviceId := device, version := 1))
  }

  /**
   Resolving a duplicate name: the remote notebook is in place, the local one is gone or lives on under a new id and the
   free name, and every note that named it names the notebook that took its place; nothing else changes.
   */
  lemma NameResolutionMovesNotes(r: Replica, id: nat, choice: Choice, copy: string, name: string, now: Time)
    requires WellKept(r) && id in r.conflicts && !r.conflicts[id].resolved && r.conflicts[id].conflict.reason == DuplicateName
    requires var c := r.conflicts[id].conflict;
      && c.local.NotebookEntity? && c.remote.NotebookEntity? && c.local.Id() != c.remote.Id()
      && copy != c.local.Id() && copy != c.remote.Id() && copy != "" && Text.Trim(copy) == copy
      && c.remote.Id() != "" && Text.Trim(c.remote.Id()) == c.remote.Id()
    ensures
      var c := r.conflicts[id].conflict;
      var r' := ResolveOne(r, OWNER, id, choice, copy, name, now);
      && r'.conflicts == r.conflicts[id := Stored(c, true)]
      && (if TakesRemote(c, choice) then NameGivenUp(r.records, r'.records, c, r.device, now)
          else NameChanged(r.records, r'.records, c, copy, name, r.device, now))
  {
    hide SelectsRemote, MoveNotebook, NameGivenUp, NameChanged, CopyOf, Text.Trim;
    var c := r.conflicts[id].conflict;
    TakesRemoteIs(c, choice);
    if TakesRemote(c, choice) {
      NameIsGivenUp(r.records, c, r.device, now);
    } else {
      NameIsChanged(r.records, c, copy, name, r.device, now);
    }
  }

  /** The server's notebook in place of the local one. */
  ghost predicate NameGivenUp(before: map<Ref, Local>, after: map<Ref, Local>, c: Conflict, device: string, t: Time) {
    var local, remote := RefOf(OWNER, c.local), RefOf(OWNER, c.remote);
    && local !in after && remote in after && IsRow(after[remote], c.remote)
    && NotesMoved(before, after, c.local.Id(), c.remote.Id(), device, t)
    && (forall ref: Ref :: ref.kind == NotebookKind && ref != local && ref != remote ==> SameEntry(before, after, ref))
  }

  /** The server's notebook beside the local one, which has a new id and the free name. */
  ghost predicate NameChanged(before: map<Ref, Local>, after: map<Ref, Local>, c: Conflict, copy: string, name: string, device: string, t: Time) {
    var local, remote := RefOf(OWNER, c.local), RefOf(OWNER, c.remote);
    var copied := local.(id := copy);
    && local !in after && remote in after && IsRow(after[remote], c.remote)
    && copied in after && CopiedAs(c.local, after[copied], copy, name, device, t)
    && NotesMoved(before, after, c.local.Id(), copy, device, t)
    && (forall ref: Ref :: ref.kind == NotebookKind && ref != local && ref != remote && ref != copied ==> SameEntry(before, after, ref))
  }

  /** The notes are the same ones, and follow one notebook to another. */
  ghost predicate NotesMoved(before: map<Ref, Local>, after: map<Ref, Local>, from: string, to: string, device: string, t: Time) {
    forall ref: Ref :: ref.kind == NoteKind ==>
      NoteMoved(before, after, ref, from, to, device, t) && (ref in after ==> ref in before)
  }

  lemma NameIsGivenUp(records: map<Ref, Local>, c: Conflict, device: string, t: Time)
    requires Keyed(records) && c.local.NotebookEntity? && c.remote.NotebookEntity? && c.local.Id() != c.remote.Id()
    requires c.remote.Id() != "" && Text.Trim(c.remote.Id()) == c.remote.Id()
    ensures var taken := records[RefOf(OWNER, c.remote) := FromRemote(c.remote)];
      NameGivenUp(records, MoveNotebook(taken, c.local.Id(), c.remote.Id(), device, t) - {RefOf(OWNER, c.local)}, c, device, t)
  {
    hide MoveNotebook, Relinks, Text.Trim;
    Moves(records[RefOf(OWNER, c.remote) := FromRemote(c.remote)], c.local.Id(), c.remote.Id(), device, t);
  }

  lemma NameIsChanged(records: map<Ref, Local>, c: Conflict, copy: string, name: string, device: string, t: Time)
    requires Keyed(records) && c.local.NotebookEntity? && c.remote.NotebookEntity? && c.local.Id() != c.remote.Id()
    requires copy != c.local.Id() && copy != c.remote.Id() && copy != "" && Text.Trim(copy) == copy
    ensures var local, copied := RefOf(OWNER, c.local), CopyOf(c.local, copy, name, device, t);
      var both := records[RefOf(OWNER, c.remote) := FromRemote(c.remote)][local.(id := copy) := copied];
      NameChanged(records, MoveNotebook(both, c.local.Id(), copy, device, t) - {local}, c, copy, name, device, t)
  {
    hide MoveNotebook, Relinks, CopyOf, Text.Trim;
    var local, copied := RefOf(OWNER, c.local), CopyOf(c.local, copy, name, device, t);
    CopyIsCopied(c.local, copy, name, device, t);
    Moves(records[RefOf(OWNER, c.remote) := FromRemote(c.remote)][local.(id := copy) := copied], c.local.Id(), copy, device, t);
  }

  lemma CopyIsCopied(e: Entity, copy: string, name: string, device: string, now: Time)
    ensures CopiedAs(e, CopyOf(e, copy, name, device, now), copy, name, device, now)
  {
  }

  /** Renaming a notebook in all records: the notes follow, the notebooks stay. */
  lemma Moves(records: map<Ref, Local>, from: string, to: string, device: string, t: Time)
    requires to != "" && Text.Trim(to) == to && from != to
    ensures var moved := MoveNotebook(records, from, to, device, t);
      && moved.Keys == records.Keys
      && (forall ref :: ref in records ==> Relinks(records[ref], moved[ref], from, to, device, t))
      && (forall ref :: ref in records && records[ref].entity.NotebookEntity? ==> moved[ref] == records[ref])
  {
    hide Relinked, Relinks, Text.Trim;
    forall ref | ref in records
      ensures var l := records[ref];
        && Relinks(l, MoveNotebook(records, from, to, device, t)[ref], from, to, device, t)
        && (l.entity.NotebookEntity? ==> MoveNotebook(records, from, to, device, t)[ref] == l)
    {
      RelinkedRelinks(records[ref], from, to, device, t);
      if records[ref].entity.NotebookEntity? { OnlyNotesMove(records[ref], from, to, device, t); }
    }
  }

  lemma OnlyNotesMove(l: Local, from: string, to: string, device: string, t: Time)
    requires l.entity.NotebookEntity?
    ensures Relinked(l, from, to, device, t) == l
  {
  }

  lemma OnlyNotesDrop(l: Local, notebook: string, device: string, t: Time)
    requires l.entity.NotebookEntity?
    ensures Unlinked(l, notebook, device, t) == l
  {
  }

  /** The local side stays word for word, pending one version above the server's. */
  ghost predicate KeptLocal(c: Conflict, l: Local, device: string) {
    && l.status == Pending && l.base == c.remote.Version() && l.entity.Version() == c.remote.Version() + 1
    && WordingOf(l.entity) == WordingOf(c.local) && RefsOf(l.entity) == RefsOf(c.local)
    && l.entity.Id() == c.local.Id() && l.entity.UpdatedAt() == c.local.UpdatedAt() && l.entity.DeviceId() == device
  }

  predicate GivesUpNotebook(c: Conflict, choice: Choice) {
    TakesRemote(c, choice) && c.remote.NotebookEntity? && c.remote.IsDeleted()
  }

  /** Copies of a note are named after it when it has a title. */
  function SuffixedName(e: Entity): string {
    match e
    case NoteEntity(n) => if n.title == "" then "" else n.title + " copy"
    case NotebookEntity(n) => n.name + " copy"
  }

  /** Resolving: the chosen side stays; `duplicate-both` keeps both, one under a new id; newer and older go by time. */
  lemma ResolutionKeepsTheChoice(r: Replica, id: nat, choice: Choice, copy: string, name: string, now: Time)
    requires WellKept(r) && id in r.conflicts && !r.conflicts[id].resolved && r.conflicts[id].conflict.reason != DuplicateName
    requires r.conflicts[id].conflict.local.Id() != copy
    ensures
      var c := r.conflicts[id].conflict; var ref := RefOf(OWNER, c.remote);
      var r' := ResolveOne(r, OWNER, id, choice, copy, name, now);
      && r'.conflicts == r.conflicts[id := Stored(c, true)] && ref in r'.records
      && (choice == DuplicateBoth || TakesRemote(c, choice) ==> IsRow(r'.records[ref], c.remote))
      && (choice != DuplicateBoth && !TakesRemote(c, choice) ==> KeptLocal(c, r'.records[ref], r.device))
      && (choice == DuplicateBoth ==>
            && ref.(id := copy) in r'.records
            && CopiedAs(c.local, r'.records[ref.(id := copy)], copy, SuffixedName(c.local), r.device, now))
  {
    hide Relinked, Unlinked, SelectsRemote, WordingOf;
    var c := r.conflicts[id].conflict;
    TakesRemoteIs(c, choice);
    CopyIsCopied(c.local, copy, CopyTitle(c.local), r.device, now);
    if c.remote.NotebookEntity? {
      OnlyNotesMove(FromRemote(c.remote), c.local.Id(), copy, r.device, now);
      OnlyNotesMove(CopyOf(c.local, copy, CopyTitle(c.local), r.device, now), c.local.Id(), copy, r.device, now);
      OnlyNotesDrop(Resolved(c, choice, r.device), c.remote.Id(), r.device, now);
    }
    if !TakesRemote(c, choice) { LocalIsKept(c, choice, r.device); }
  }

  lemma LocalIsKept(c: Conflict, choice: Choice, device: string)
    requires !SelectsRemote(c.local, c.remote, choice)
    ensures KeptLocal(c, Resolved(c, choice, device), device)
  {
  }

  /**
   What resolving does to the other records. A deleted notebook that the choice accepts leaves every live note; a notebook
   kept beside the server's takes the notes of the local side along; any other choice changes no other record.
   */
  lemma ResolutionAndTheOthers(r: Replica, id: nat, choice: Choice, copy: string, name: string, now: Time, other: Ref)
    requires WellKept(r) && id in r.conflicts && !r.conflicts[id].resolved && r.conflicts[id].conflict.reason != DuplicateName
    requires r.conflicts[id].conflict.local.Id() != copy && copy != "" && Text.Trim(copy) == copy
    requires var ref := RefOf(OWNER, r.conflicts[id].conflict.remote); other != ref && (choice == DuplicateBoth ==> other != ref.(id := copy))
    ensures
      var c := r.conflicts[id].conflict;
      var r' := ResolveOne(r, OWNER, id, choice, copy, name, now);
      && (other in r'.records <==> other in r.records)
      && (other in r.records ==>
            var l, l' := r.records[other], r'.records[other];
            if GivesUpNotebook(c, choice) then Unlinks(l, l', c.remote.Id(), r.device, now)
            else if choice == DuplicateBoth && c.local.NotebookEntity? then Relinks(l, l', c.local.Id(), copy, r.device, now)
            else l' == l)
  {
    hide Relinked, Unlinked, Relinks, Unlinks, SelectsRemote, Resolved, CopyOf, Text.Trim;
    var c := r.conflicts[id].conflict;
    TakesRemoteIs(c, choice);
    if other in r.records {
      UnlinkedUnlinks(r.records[other], c.remote.Id(), r.device, now);
      RelinkedRelinks(r.records[other], c.local.Id(), copy, r.device, now);
    }
  }
}
