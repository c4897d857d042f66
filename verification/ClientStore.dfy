/** The local database of one device as an object, each operation proved against its function on replicas. */
module ClientStore {
  import opened Wrappers
  import opened SyncSpec
  import opened Tables
  import opened Push
  import opened Client
  import opened System
  import opened LocalSafety
  import FreshNames
  import Seqs
  import Text

  /******* The user's edits of a note *******/

  /** The hash of a text comes from the encryption layer and is carried along. */
  datatype NoteEdit =
    | SetContent(title: string, body: string, titleHash: Option<string>, bodyHash: Option<string>)
    | Assign(notebook: Option<string>, member: bool)
    | SetFavorite(favorite: bool)
    | Trash
    | Restore
    | DeletePermanently

  function AssignedIds(n: Note, notebook: Option<string>, member: bool): seq<string> {
    var current := NoteNotebookIds(n);
    if !Truthy(notebook) then []
    else if member then if notebook.value in current then current else current + [notebook.value]
    else Without(current, notebook.value)
  }

  /** The note after the edit, or nothing when the edit does not apply or changes nothing. */
  function EditedNote(n: Note, edit: NoteEdit, now: Time): Option<Note> {
    match edit
    case SetContent(title, body, titleHash, bodyHash) =>
      if n.deletedAt.Some? || (n.title == Text.Trim(title) && n.body == body) then None
      else Some(n.(title := Text.Trim(title), body := body, titleHash := titleHash, bodyHash := bodyHash))
    case Assign(notebook, member) =>
      var ids := AssignedIds(n, notebook, member);
      if n.deletedAt.Some? || ids == NoteNotebookIds(n) then None
      else Some(n.(notebookIds := ids, notebookId := if ids == [] then None else Some(ids[0])))
    case SetFavorite(favorite) =>
      if n.deletedAt.Some? || n.isFavorite == favorite then None else Some(n.(isFavorite := favorite))
    case Trash => if n.trashedAt.Some? then None else Some(n.(trashedAt := Some(now)))
    case Restore => if n.trashedAt.None? then None else Some(n.(trashedAt := None))
    case DeletePermanently =>
      if n.deletedAt.Some? then None
      else Some(n.(deletedAt := Some(now), trashedAt := if n.trashedAt.Some? then n.trashedAt else Some(now)))
  }

  /** The edit as an action on the replica; None when it leaves the replica alone. */
  function ActionOf(r: Replica, ref: Ref, edit: NoteEdit, now: Time): Option<Action> {
    if ref !in r.records || !r.records[ref].entity.NoteEntity? then None
    else
      var l := r.records[ref];
      var n := EditedNote(l.entity.note, edit, now);
      if n.None? then None
      else if edit.DeletePermanently? && l.base == 0 then Some(Discard(ref))
      else Some(Edit(ref, NoteEntity(n.value), now))
  }

  function EditNote(r: Replica, ref: Ref, edit: NoteEdit, now: Time): Replica {
    var a := ActionOf(r, ref, edit, now);
    if a.Some? then Act(r, OWNER, a.value) else r
  }

  /**
   Every edit that takes effect leaves the note pending one version up on the same base, with this device as its
   author, and changes no other record; deleting a note the server never saw forgets it instead.
   */
  lemma EditBumpsAndKeepsBase(r: Replica, ref: Ref, edit: NoteEdit, now: Time)
    requires Keyed(r.records) && ref.owner == OWNER && EditNote(r, ref, edit, now) != r
    ensures var r' := EditNote(r, ref, edit, now);
      && r'.conflicts == r.conflicts
      && (forall other :: other != ref ==> (other in r'.records <==> other in r.records))
      && (forall other :: other != ref && other in r.records ==> r'.records[other] == r.records[other])
      && ref in r.records
      && (ref in r'.records ==>
            var l, l' := r.records[ref], r'.records[ref];
            && l'.status == Pending && l'.base == l.base && l'.entity.Version() == l.entity.Version() + 1
            && l.entity.NoteEntity? && EditedNote(l.entity.note, edit, now).Some?
            && l'.entity == NoteEntity(EditedNote(l.entity.note, edit, now).value.(
                              updatedAt := now, deviceId := r.device, version := l.entity.Version() + 1)))
      && (ref !in r'.records <==> edit == DeletePermanently && r.records[ref].base == 0)
  {
    hide EditedNote;
    assert RefOf(OWNER, r.records[ref].entity) == ref;
    EditKeepsId(r.records[ref].entity.note, edit, now);
  }

  /** A new record is there as it was written, pending and never synced; giving one up forgets it and nothing else. */
  lemma CreateAndDiscard(r: Replica, e: Entity, ref: Ref, now: Time)
    ensures var made := RefOf(OWNER, e); var r' := Act(r, OWNER, Create(e, now));
      && (made in r.records ==> r' == r)
      && (made !in r.records ==>
            && r'.records.Keys == r.records.Keys + {made} && r'.records - {made} == r.records && r'.conflicts == r.conflicts
            && var l := r'.records[made];
            && l.status == Pending && l.base == 0 && l.entity.Version() == 1 && l.entity.UpdatedAt() == now && l.entity.DeviceId() == r.device
            && WordingOf(l.entity) == WordingOf(e) && RefsOf(l.entity) == RefsOf(e))
    ensures Act(r, OWNER, Discard(ref)) == r.(records := r.records - {ref})
  {
  }

  /** An edit takes effect exactly when there is something to change and the note is not deleted (or in the trash, or out of it). */
  predicate Applies(n: Note, edit: NoteEdit) {
    match edit
    case SetContent(title, body, _, _) => n.deletedAt.None? && (n.title != Text.Trim(title) || n.body != body)
    case Assign(notebook, member) =>
      n.deletedAt.None? &&
      if notebook == None || notebook == Some("") then NoteNotebookIds(n) != []
      else member != (notebook.value in NoteNotebookIds(n))
    case SetFavorite(favorite) => n.deletedAt.None? && n.isFavorite != favorite
    case Trash => n.trashedAt.None?
    case Restore => n.trashedAt.Some?
    case DeletePermanently => n.deletedAt.None?
  }

  lemma EditAppliesIff(n: Note, edit: NoteEdit, now: Time)
    ensures EditedNote(n, edit, now).Some? <==> Applies(n, edit)
  {
    hide NormalizedIds, Text.Trim;
    if edit.Assign? && Truthy(edit.notebook) && !edit.member && edit.notebook.value in NoteNotebookIds(n) {
      assert edit.notebook.value !in Without(NoteNotebookIds(n), edit.notebook.value);
    } else if edit.Assign? && Truthy(edit.notebook) && !edit.member {
      Seqs.FilterAll(NoteNotebookIds(n), Unlike(edit.notebook.value));
    }
  }

  /** The edit does what it says: a text edit stores the trimmed title, and no edit touches what it is not about. */
  lemma ContentEditKeepsTheRest(n: Note, edit: NoteEdit, now: Time)
    requires EditedNote(n, edit, now).Some?
    ensures var m := EditedNote(n, edit, now).value;
      && m.id == n.id && m.createdAt == n.createdAt && m.updatedAt == n.updatedAt && m.deviceId == n.deviceId && m.version == n.version
      && (edit.SetContent? ==> m.title == Text.Trim(edit.title) && m.body == edit.body
                                 && m.titleHash == edit.titleHash && m.bodyHash == edit.bodyHash)
      && (!edit.SetContent? ==> m.titleHash == n.titleHash && m.bodyHash == n.bodyHash)
      && (edit.SetFavorite? ==> m.isFavorite == edit.favorite)
      && (edit.Trash? ==> m.trashedAt == Some(now)) && (edit.Restore? ==> m.trashedAt == None)
      && (edit.DeletePermanently? ==> m.deletedAt == Some(now) && m.trashedAt == (if n.trashedAt.Some? then n.trashedAt else Some(now)))
      && (!edit.SetContent? ==> m.title == n.title && m.body == n.body)
      && (!edit.Assign? ==> m.notebookIds == n.notebookIds && m.notebookId == n.notebookId)
      && (!edit.SetFavorite? ==> m.isFavorite == n.isFavorite)
      && (!edit.DeletePermanently? ==> m.deletedAt == n.deletedAt)
      && (edit.SetContent? || edit.Assign? || edit.SetFavorite? ==> m.trashedAt == n.trashedAt && n.deletedAt.None?)
  {
  }

  /** Where an assignment leaves the note: in no notebook, in one more at the end, or in all but one; the first is the primary. */
  lemma AssignmentIs(n: Note, notebook: Option<string>, member: bool, now: Time)
    requires EditedNote(n, Assign(notebook, member), now).Some?
    ensures
      var m, ids := EditedNote(n, Assign(notebook, member), now).value, NoteNotebookIds(n);
      && FirstIsPrimary(m) && (notebook == None || notebook == Some("") ==> m.notebookIds == [])
      && (notebook.Some? && notebook.value != "" && member ==> m.notebookIds == ids + [notebook.value])
      && (notebook.Some? && notebook.value != "" && !member ==>
            Seqs.InOrder(m.notebookIds, ids) && forall id :: id in m.notebookIds <==> id in ids && id != notebook.value)
  {
    hide NormalizedIds, Seqs.InOrder;
    if notebook.Some? {
      Seqs.FilterInOrder(NoteNotebookIds(n), Unlike(notebook.value));
    }
  }

  lemma EditKeepsId(n: Note, edit: NoteEdit, now: Time)
    ensures EditedNote(n, edit, now).Some? ==> EditedNote(n, edit, now).value.id == n.id
  {
    hide AssignedIds;
  }

  /** Trashing and restoring undo each other, at any two times. */
  lemma RestoreUndoesTrash(n: Note, now: Time, later: Time)
    requires n.trashedAt.None?
    ensures EditedNote(n, Trash, now).Some?
    ensures EditedNote(EditedNote(n, Trash, now).value, Restore, later) == Some(n)
  {
  }

  /** Putting a note into a notebook makes it a member; taking it out again leaves the other notebooks in order. */
  lemma AssignThenUnassign(n: Note, id: string, now: Time)
    requires n.deletedAt.None? && id != "" && Text.Trim(id) == id && id !in NoteNotebookIds(n)
    ensures var m := EditedNote(n, Assign(Some(id), true), now);
      && m.Some? && NoteNotebookIds(m.value) == NoteNotebookIds(n) + [id]
      && AssignedIds(m.value, Some(id), false) == NoteNotebookIds(n)
  {
    hide Text.Trim, NormalizedIds, Without;
    var ids := NoteNotebookIds(n);
    assert AssignedIds(n, Some(id), true) == ids + [id];
    NormalizedStay(ids + [id]);
    DropLast(ids, id);
  }

  lemma DropLast(ids: seq<string>, id: string)
    requires id !in ids
    ensures Without(ids + [id], id) == ids
  {
    assert (ids + [id])[..|ids|] == ids;
    Seqs.FilterAll(ids, Unlike(id));
  }

  /******* What the loops over records compute *******/

  /** One page of pulled deletions: the ids whose references must go. */
  function Cleared(records: map<Ref, Local>, refs: seq<Ref>): seq<Ref> {
    if refs == [] then []
    else
      var before := DeleteRecords(records, refs[..|refs| - 1]);
      var ref := refs[|refs| - 1];
      Cleared(records, refs[..|refs| - 1])
      + (if ref.kind == NotebookKind && (ref !in before || CanApplyRemoteDelete(before[ref])) then [ref] else [])
  }

  /** The notebooks whose references must go: those deleted just now, and those the device does not have. */
  lemma {:induction false} ClearedIff(records: map<Ref, Local>, refs: seq<Ref>, ref: Ref)
    ensures ref in Cleared(records, refs) <==>
      ref in refs && ref.kind == NotebookKind && (ref !in records || (records[ref].status != Pending && records[ref].status != InConflict))
  {
    if refs != [] {
      var front, last := refs[..|refs| - 1], refs[|refs| - 1];
      assert refs == front + [last];
      ClearedIff(records, front, ref);
      DeletesSpareEdits(records, front);
      hide DeleteRecords;
    }
  }

  function DropAll(records: map<Ref, Local>, notebooks: seq<string>, device: string, t: Time): map<Ref, Local> {
    if notebooks == [] then records
    else DropNotebook(DropAll(records, notebooks[..|notebooks| - 1], device, t), notebooks[|notebooks| - 1], device, t)
  }

  /** What the removal of several notebooks leaves of a note: its text, and the references to other notebooks. */
  lemma {:induction false} DropAllUnlinks(records: map<Ref, Local>, notebooks: seq<string>, device: string, t: Time, ref: Ref)
    requires ref in records
    ensures var after := DropAll(records, notebooks, device, t);
      && after.Keys == records.Keys
      && WordingOf(after[ref].entity) == WordingOf(records[ref].entity) && after[ref].base == records[ref].base
      && (MayRewrite(records[ref]) ==>
            MayRewrite(after[ref]) && RefSet(after[ref].entity.note) == RefSet(records[ref].entity.note) - (set id | id in notebooks))
      && (!MayRewrite(records[ref]) || (forall id :: id in notebooks ==> id !in RefSet(records[ref].entity.note)) ==> after[ref] == records[ref])
  {
    hide RefSet, DropNotebook, WordingOf;
    if notebooks == [] {
      assert MayRewrite(records[ref]) ==> RefSet(records[ref].entity.note) - {} == RefSet(records[ref].entity.note);
    } else {
      var front, last := notebooks[..|notebooks| - 1], notebooks[|notebooks| - 1];
      assert notebooks == front + [last];
      DropAllUnlinks(records, front, device, t, ref);
      DropOneOf(DropAll(records, front, device, t), last, device, t, ref);
      assert (set id | id in notebooks) == (set id | id in front) + {last};
    }
  }

  lemma DropOneOf(records: map<Ref, Local>, notebook: string, device: string, t: Time, ref: Ref)
    requires ref in records
    ensures var after := DropNotebook(records, notebook, device, t);
      && after.Keys == records.Keys
      && WordingOf(after[ref].entity) == WordingOf(records[ref].entity) && after[ref].base == records[ref].base
      && (MayRewrite(records[ref]) ==>
            MayRewrite(after[ref]) && RefSet(after[ref].entity.note) == RefSet(records[ref].entity.note) - {notebook})
      && (!MayRewrite(records[ref]) || notebook !in RefSet(records[ref].entity.note) ==> after[ref] == records[ref])
  {
    hide RefSet, Unlinked;
    DroppingKeepsTexts(records, notebook, device, t, ref);
  }

  /** The pulled notebooks whose local copy is now deleted too. */
  function GoneNotebooks(records: map<Ref, Local>, notebooks: seq<Entity>): seq<string> {
    if notebooks == [] then []
    else
      var e := notebooks[|notebooks| - 1];
      var ref := RefOf(OWNER, e);
      GoneNotebooks(records, notebooks[..|notebooks| - 1])
      + (if e.IsDeleted() && ref in records && records[ref].entity.IsDeleted() && CanApplyRemoteDelete(records[ref]) then [e.Id()] else [])
  }

  lemma {:induction false} GoneIff(records: map<Ref, Local>, notebooks: seq<Entity>, id: string)
    ensures id in GoneNotebooks(records, notebooks) <==> exists e :: e in notebooks && e.Id() == id && GoneBoth(records, e)
  {
    if notebooks != [] {
      var front, last := notebooks[..|notebooks| - 1], notebooks[|notebooks| - 1];
      assert notebooks == front + [last];
      GoneIff(records, front, id);
      assert GoneNotebooks(records, [last]) == GoneNotebooks(records, []) + (if GoneBoth(records, last) then [last.Id()] else []) by {
        assert [last][..0] == [];
      }
      assert last in notebooks;
    }
  }

  /** Deleted on the server, and deleted here without an edit or a conflict. */
  predicate GoneBoth(records: map<Ref, Local>, e: Entity) {
    var ref := RefOf(OWNER, e);
    && e.DeletedAt().Some? && ref in records && records[ref].entity.DeletedAt().Some?
    && records[ref].status != Pending && records[ref].status != InConflict
  }

  function Unlinker(notebook: string, device: string, t: Time): Local -> Local { l => Unlinked(l, notebook, device, t) }

  function Relinker(from: string, to: string, device: string, t: Time): Local -> Local { l => Relinked(l, from, to, device, t) }

  lemma UnlinkerIs(l: Local, notebook: string, device: string, t: Time)
    ensures Unlinker(notebook, device, t)(l) == Unlinked(l, notebook, device, t)
  {
    hide Unlinked;
  }

  lemma DropNotebookIs(records: map<Ref, Local>, notebook: string, device: string, t: Time)
    ensures DropNotebook(records, notebook, device, t) == map ref | ref in records :: Unlinker(notebook, device, t)(records[ref])
  {
    hide Unlinked;
  }

  lemma RelinkerIs(l: Local, from: string, to: string, device: string, t: Time)
    ensures Relinker(from, to, device, t)(l) == Relinked(l, from, to, device, t)
  {
    hide Relinked;
  }

  lemma MoveNotebookIs(records: map<Ref, Local>, from: string, to: string, device: string, t: Time)
    ensures MoveNotebook(records, from, to, device, t) == map ref | ref in records :: Relinker(from, to, device, t)(records[ref])
  {
    hide Relinked;
  }

  /** Every record outside `todo` has been looked at: `updates` holds those that `f` changes. */
  ghost predicate Collected(records: map<Ref, Local>, updates: map<Ref, Local>, todo: set<Ref>, f: Local -> Local) {
    && updates.Keys <= records.Keys - todo
    && forall ref :: ref in records && ref !in todo ==> (if ref in updates then updates[ref] else records[ref]) == f(records[ref])
  }

  lemma CollectOne(records: map<Ref, Local>, updates: map<Ref, Local>, todo: set<Ref>, f: Local -> Local, ref: Ref)
    requires Collected(records, updates, todo, f) && ref in todo && ref in records
    ensures Collected(records, updates[ref := f(records[ref])], todo - {ref}, f)
    ensures f(records[ref]) == records[ref] ==> Collected(records, updates, todo - {ref}, f)
  {
  }

  lemma CollectNone(records: map<Ref, Local>, f: Local -> Local)
    ensures Collected(records, map[], records.Keys, f)
  {
  }

  lemma CollectDone(records: map<Ref, Local>, updates: map<Ref, Local>, f: Local -> Local)
    requires Collected(records, updates, {}, f)
    ensures records + updates == map ref | ref in records :: f(records[ref])
  {
  }

  /** One id of a push response with the version it was accepted under. */
  datatype Acceptance = Acceptance(ref: Ref, version: int)

  /** The pushed records by key; a later one replaces an earlier one. */
  function PushedByKey(pushed: seq<Entity>): map<Ref, Entity> {
    if pushed == [] then map[]
    else
      var last := pushed[|pushed| - 1];
      PushedByKey(pushed[..|pushed| - 1])[RefOf(OWNER, last) := last]
  }

  /** The record once its acceptance arrived; without a pushed record to compare with it counts as matching. */
  function Acknowledged(l: Local, a: Acceptance, table: map<Ref, Entity>): Local {
    if a.ref in table then Accepted(l, table[a.ref], a.version) else Local(l.entity.WithVersion(a.version), Synced, a.version)
  }

  function Acknowledge(records: map<Ref, Local>, accepted: seq<Acceptance>, table: map<Ref, Entity>): map<Ref, Local> {
    if accepted == [] then records
    else
      var r := Acknowledge(records, accepted[..|accepted| - 1], table);
      var a := accepted[|accepted| - 1];
      if a.ref in r then r[a.ref := Acknowledged(r[a.ref], a, table)] else r
  }

  /** An acceptance settles the record exactly unless it was edited since it was pushed; it changes no word. */
  lemma AcknowledgedSettles(l: Local, a: Acceptance, table: map<Ref, Entity>)
    ensures var l' := Acknowledged(l, a, table);
      var same := a.ref in table ==> l.entity.Version() == table[a.ref].Version() && l.entity.UpdatedAt() == table[a.ref].UpdatedAt();
      && l'.base == a.version && l'.status == (if same then Synced else Pending)
      && l'.entity.Version() == (if same then a.version else l.entity.Version())
      && WordingOf(l'.entity) == WordingOf(l.entity) && RefsOf(l'.entity) == RefsOf(l.entity)
      && l'.entity.UpdatedAt() == l.entity.UpdatedAt() && l'.entity.DeviceId() == l.entity.DeviceId()
  {
    OnlyTheVersionChanges(l.entity, a.version);
  }

  ghost predicate DistinctKeys(pushed: seq<Entity>) {
    forall i, j :: 0 <= i < j < |pushed| ==> RefOf(OWNER, pushed[i]) != RefOf(OWNER, pushed[j])
  }

  /** In a batch without repeated ids every record is found under its key. */
  lemma {:induction false} PushedFound(pushed: seq<Entity>)
    requires DistinctKeys(pushed)
    ensures PushedByKey(pushed).Keys == set e | e in pushed :: RefOf(OWNER, e)
    ensures forall e :: e in pushed ==> PushedByKey(pushed)[RefOf(OWNER, e)] == e
  {
    if pushed != [] {
      var front, last := pushed[..|pushed| - 1], pushed[|pushed| - 1];
      assert pushed == front + [last];
      PushedFound(front);
      forall e | e in front ensures RefOf(OWNER, e) != RefOf(OWNER, last) {
        var i :| 0 <= i < |front| && front[i] == e;
        assert pushed[i] == e;
      }
    }
  }

  /** Each acceptance with the record that was pushed under its key. */
  function Paired(accepted: seq<Acceptance>, table: map<Ref, Entity>): seq<Ack>
    requires forall a :: a in accepted ==> a.ref in table
  {
    seq(|accepted|, i requires 0 <= i < |accepted| => Ack(accepted[i].ref, table[accepted[i].ref], accepted[i].version))
  }

  /** When everything accepted was pushed, the loop does what the paired answers say, one by one. */
  lemma {:induction false} AcknowledgeIsMarkAccepted(records: map<Ref, Local>, accepted: seq<Acceptance>, table: map<Ref, Entity>)
    requires forall a :: a in accepted ==> a.ref in table
    ensures Acknowledge(records, accepted, table) == MarkAccepted(records, Paired(accepted, table))
  {
    if accepted != [] {
      var front, last := accepted[..|accepted| - 1], accepted[|accepted| - 1];
      assert accepted == front + [last];
      AcknowledgeIsMarkAccepted(records, front, table);
      assert Paired(accepted, table)[..|front|] == Paired(front, table);
    }
  }

  lemma {:induction false} AcknowledgeKeyed(records: map<Ref, Local>, accepted: seq<Acceptance>, table: map<Ref, Entity>)
    requires Keyed(records)
    ensures Keyed(Acknowledge(records, accepted, table)) && Acknowledge(records, accepted, table).Keys == records.Keys
  {
    hide StillMatches;
    if accepted != [] {
      AcknowledgeKeyed(records, accepted[..|accepted| - 1], table);
    }
  }

  /** The names a copy must avoid: those of the other notebooks that are not deleted. */
  function OtherNames(fold: string -> string, records: map<Ref, Local>, excluded: set<string>): set<string> {
    NamesAt(fold, records, records.Keys, excluded)
  }

  predicate Counts(records: map<Ref, Local>, ref: Ref, excluded: set<string>) {
    ref in records && records[ref].entity.NotebookEntity? && !records[ref].entity.IsDeleted() && ref.id !in excluded
  }

  function NamesAt(fold: string -> string, records: map<Ref, Local>, refs: set<Ref>, excluded: set<string>): set<string> {
    set ref | ref in refs && Counts(records, ref, excluded) :: FreshNames.Normalized(fold, records[ref].entity.notebook.name)
  }

  lemma NamesAtOneMore(fold: string -> string, records: map<Ref, Local>, refs: set<Ref>, ref: Ref, excluded: set<string>)
    ensures NamesAt(fold, records, refs + {ref}, excluded) ==
            NamesAt(fold, records, refs, excluded) +
            (if Counts(records, ref, excluded) then {FreshNames.Normalized(fold, records[ref].entity.notebook.name)} else {})
  {
    hide FreshNames.Normalized;
    var more := NamesAt(fold, records, refs + {ref}, excluded);
    forall n | n in NamesAt(fold, records, refs, excluded) ensures n in more {
      var other :| other in refs && Counts(records, other, excluded) && n == FreshNames.Normalized(fold, records[other].entity.notebook.name);
      assert other in refs + {ref};
    }
    if Counts(records, ref, excluded) {
      assert ref in refs + {ref};
    }
  }

  lemma CountsMeans(records: map<Ref, Local>, ref: Ref, excluded: set<string>)
    requires Counts(records, ref, excluded)
    ensures ref in records && records[ref].entity.NotebookEntity?
  {
  }

  lemma NoNames(fold: string -> string, records: map<Ref, Local>, excluded: set<string>)
    ensures FreshNames.NormalizedNames(fold, []) == NamesAt(fold, records, {}, excluded)
  {
  }

  lemma NormalizedOneMore(fold: string -> string, names: seq<string>, name: string)
    ensures FreshNames.NormalizedNames(fold, names + [name]) == FreshNames.NormalizedNames(fold, names) + {FreshNames.Normalized(fold, name)}
  {
    hide FreshNames.Normalized;
    var more := FreshNames.NormalizedNames(fold, names + [name]);
    forall n | n in FreshNames.NormalizedNames(fold, names) ensures n in more {
      var x :| x in names && n == FreshNames.Normalized(fold, x);
      assert x in names + [name];
    }
    assert name in names + [name];
  }

  function Repaired(r: Replica, ids: seq<nat>): Replica {
    if ids == [] then r else RepairOne(Repaired(r, ids[..|ids| - 1]), OWNER, ids[|ids| - 1])
  }

  /******* Saving a conflict while the user goes on *******/

  const ATTEMPTS := 3

  /** One attempt: the store it reads, and the store it finds once the conflict is encrypted. */
  datatype Attempt = Attempt(read: Replica, found: Replica) {
    /** By version and time the record is the one that was read, or the one that was pushed when there was none to read. */
    predicate Calm(ref: Ref, pushed: Option<Entity>) {
      if ref in read.records then ref in found.records && StillMatches(found.records[ref], read.records[ref].entity)
      else ref in found.records && pushed.Some? ==> StillMatches(found.records[ref], pushed.value)
    }

    /** The conflict with the text that was read; the record as it is found waits for the user. */
    function Saved(ref: Ref, id: nat, c: Conflict): Replica {
      Replica(found.device,
        if ref in found.records then found.records[ref := found.records[ref].(status := InConflict)] else found.records,
        found.conflicts[id := Stored(if ref in read.records then c.(local := read.records[ref].entity) else c, false)])
    }
  }

  ghost predicate AllSound(attempts: seq<Attempt>, device: string) {
    forall a :: a in attempts ==> WellKept(a.read) && WellKept(a.found) && a.read.device == a.found.device == device
  }

  /** The first attempt that is calm. */
  predicate FirstCalm(attempts: seq<Attempt>, ref: Ref, pushed: Option<Entity>, i: nat) {
    i < |attempts| && attempts[i].Calm(ref, pushed) && forall j :: 0 <= j < i ==> !attempts[j].Calm(ref, pushed)
  }

  /** Nothing happened during the attempt: the one step of the protocol. */
  lemma CalmSaveIsOneStep(r: Replica, pushed: Option<Entity>, id: nat, c: Conflict)
    ensures var a := Attempt(r, r);
      a.Calm(RefOf(OWNER, c.local), pushed) && a.Saved(RefOf(OWNER, c.local), id, c) == Client.SaveConflict(r, RefOf(OWNER, c.local), id, c)
  {
  }

  /** Whatever happened during it, a calm attempt loses no edit of any record and keeps the store sound. */
  lemma SavedIsSound(a: Attempt, pushed: Option<Entity>, id: nat, c: Conflict)
    requires WellKept(a.read) && WellKept(a.found) && Fitting(c)
    ensures var r := a.Saved(RefOf(OWNER, c.local), id, c);
      && WellKept(r) && (forall ref :: Unlost(a.found.records, r.records, ref))
      && id in r.conflicts && r.conflicts - {id} == a.found.conflicts - {id} && r.device == a.found.device
      && (var ref := RefOf(OWNER, c.local);
          && r.conflicts[id] == Stored(Conflict(c.reason, if ref in a.read.records then a.read.records[ref].entity else c.local, c.remote), false)
          && r.records.Keys == a.found.records.Keys && r.records - {ref} == a.found.records - {ref}
          && (ref in a.found.records ==> r.records[ref].status == InConflict && r.records[ref].base == a.found.records[ref].base))
  {
  }

  function LocalName(c: Conflict): string {
    if c.local.NotebookEntity? then c.local.notebook.name else ""
  }

  /** `name` is what uniqueNotebookCopyName finds once the remote notebook is in place. */
  ghost predicate CopyNameIsFree(fold: string -> string, c: Conflict, records: map<Ref, Local>, copy: string, name: string) {
    FreshNames.IsCopyName(fold, LocalName(c),
      OtherNames(fold, records[RefOf(OWNER, c.remote) := FromRemote(c.remote)], {c.local.Id(), c.remote.Id(), copy}), name)
  }

  /** The names to avoid are those of the active notebooks that are not excluded, and no others. */
  lemma NamesTakenIff(fold: string -> string, records: map<Ref, Local>, excluded: set<string>, name: string)
    ensures name in OtherNames(fold, records, excluded) <==>
      exists ref :: ref in records && IsOtherNotebook(records[ref].entity, ref, excluded) && name == fold(Text.Trim(records[ref].entity.notebook.name))
  {
    hide Text.Trim;
    forall ref | ref in records ensures IsOtherNotebook(records[ref].entity, ref, excluded) <==> Counts(records, ref, excluded) {}
  }

  predicate IsOtherNotebook(e: Entity, ref: Ref, excluded: set<string>) {
    e.NotebookEntity? && e.notebook.deletedAt.None? && ref.id !in excluded
  }

  /** So the free name is nobody else's: no live notebook but the two in conflict has it, up to case and outer white space. */
  lemma FreeNameDiffers(fold: string -> string, c: Conflict, records: map<Ref, Local>, copy: string, name: string, ref: Ref)
    requires CopyNameIsFree(fold, c, records, copy, name)
    requires ref in records && records[ref].entity.NotebookEntity? && records[ref].entity.notebook.deletedAt.None?
    requires ref != RefOf(OWNER, c.remote) && ref.id != c.local.Id() && ref.id != c.remote.Id() && ref.id != copy
    ensures fold(Text.Trim(name)) != fold(Text.Trim(records[ref].entity.notebook.name))
  {
    hide Text.Trim;
    var all := records[RefOf(OWNER, c.remote) := FromRemote(c.remote)];
    assert ref in all && all[ref] == records[ref] && Counts(all, ref, {c.local.Id(), c.remote.Id(), copy});
  }

  /******* The store *******/

  class LocalStore {
    const device: string
    /** The locale's lower-casing. */
    const fold: string -> string
    var records: map<Ref, Local>
    var conflicts: map<nat, Stored>

    constructor (device: string, fold: string -> string)
      requires FreshNames.Folding(fold)
      ensures Valid() && State() == Replica(device, map[], map[])
    {
      this.device := device;
      this.fold := fold;
      records := map[];
      conflicts := map[];
    }

    function State(): Replica
      reads this
    {
      Replica(device, records, conflicts)
    }

    ghost predicate Valid()
      reads this
    {
      WellKept(State()) && FreshNames.Folding(fold)
    }

    /**
     updateNoteContent, assignNoteToNotebook, setNoteFavorite, moveNoteToTrash, restoreNote, deleteNotePermanently.
     Whatever the edit, the note is left as it was, or pending one version up on the same base under this device, or (when
     the server never saw it) gone; no other record changes.
     */
    method Apply(ref: Ref, edit: NoteEdit, now: Time)
      requires ref.owner == OWNER && ref.kind == NoteKind && Valid()
      modifies this`records
      ensures Valid()
      ensures State() == EditNote(old(State()), ref, edit, now)
      ensures records - {ref} == old(records) - {ref}
      ensures ref in records ==> ref in old(records)
      ensures ref in records && records[ref] != old(records)[ref] ==>
        && records[ref].status == Pending && records[ref].base == old(records)[ref].base
        && records[ref].entity.Version() == old(records)[ref].entity.Version() + 1
        && records[ref].entity.DeviceId() == device && records[ref].entity.UpdatedAt() == now
      ensures ref in old(records) && ref !in records ==> edit == DeletePermanently && old(records)[ref].base == 0
    {
      hide EditedNote;
      if ref !in records || !records[ref].entity.NoteEntity? {
        return;
      }
      var l := records[ref];
      var n := EditedNote(l.entity.note, edit, now);
      if n.None? {
        return;
      }
      EditKeepsId(l.entity.note, edit, now);
      assert RefOf(OWNER, NoteEntity(n.value)) == ref;
      if edit.DeletePermanently? && l.base == 0 {
        records := records - {ref};
      } else {
        var e := WithTime(WithDevice(NoteEntity(n.value), device), now).WithVersion(l.entity.Version() + 1);
        records := records[ref := Local(e, Pending, l.base)];
      }
    }

    /** The records that were pushed are looked up by key, then each acceptance marks its record. */
    method MarkAcceptedChanges(accepted: seq<Acceptance>, pushed: seq<Entity>)
      requires Valid()
      modifies this`records
      ensures Valid()
      ensures State() == old(State()).(records := Acknowledge(old(records), accepted, PushedByKey(pushed)))
      ensures records.Keys == old(records).Keys
    {
      var table: map<Ref, Entity> := map[];
      for i := 0 to |pushed|
        invariant table == PushedByKey(pushed[..i])
      {
        assert pushed[..i + 1][..i] == pushed[..i];
        table := table[RefOf(OWNER, pushed[i]) := pushed[i]];
      }
      assert pushed[..|pushed|] == pushed;
      for i := 0 to |accepted|
        invariant records == Acknowledge(old(records), accepted[..i], table)
      {
        assert accepted[..i + 1][..i] == accepted[..i];
        var a := accepted[i];
        if a.ref in records {
          var l := records[a.ref];
          var still := a.ref !in table || (l.entity.Version() == table[a.ref].Version() && l.entity.UpdatedAt() == table[a.ref].UpdatedAt());
          records := records[a.ref := Local(
            if still then l.entity.WithVersion(a.version) else l.entity,
            if still then Synced else Pending,
            a.version)];
        }
      }
      assert accepted[..|accepted|] == accepted;
      AcknowledgeKeyed(old(records), accepted, table);
    }

    /** Whatever other code does to the store while a call waits. */
    method Become(r: Replica)
      requires WellKept(r) && r.device == device && FreshNames.Folding(fold)
      modifies this
      ensures Valid() && State() == r
    {
      records := r.records;
      conflicts := r.conflicts;
    }

    /**
     Up to three attempts against a record that changes while the conflict is encrypted. The first calm one stores the conflict
     with the text it read, and the record waits for the user; nothing is stored when no attempt is calm. The attempts lose
     no edit, whatever the other code does.
     */
    method SaveConflict(c: Conflict, id: nat, pushed: Option<Entity>, attempts: seq<Attempt>) returns (saved: bool)
      requires Valid() && Fitting(c) && |attempts| == ATTEMPTS && AllSound(attempts, device)
      modifies this
      ensures Valid()
      ensures saved <==> exists i: nat :: FirstCalm(attempts, RefOf(OWNER, c.local), pushed, i)
      ensures saved ==> exists i: nat ::
        && FirstCalm(attempts, RefOf(OWNER, c.local), pushed, i)
        && State() == attempts[i].Saved(RefOf(OWNER, c.local), id, c)
        && forall ref :: Unlost(attempts[i].found.records, records, ref)
      ensures !saved ==> State() == attempts[ATTEMPTS - 1].found
      ensures saved ==> id in conflicts && !conflicts[id].resolved && conflicts[id].conflict.remote == c.remote
    {
      hide WellKept, Unlost, Fitting;
      var ref := RefOf(OWNER, c.local);
      for i := 0 to ATTEMPTS
        invariant Valid()
        invariant forall j :: 0 <= j < i ==> !attempts[j].Calm(ref, pushed)
        invariant i > 0 ==> State() == attempts[i - 1].found
      {
        assert attempts[i] in attempts;
        Become(attempts[i].read);
        var current := if ref in records then Some(records[ref].entity) else None;
        Become(attempts[i].found);
        if current.Some? && (ref !in records || !StillMatches(records[ref], current.value)) {
          continue;
        }
        if current.None? && ref in records && pushed.Some? && !StillMatches(records[ref], pushed.value) {
          continue;
        }
        SavedIsSound(attempts[i], pushed, id, c);
        conflicts := conflicts[id := Stored(if current.Some? then c.(local := current.value) else c, false)];
        if ref in records {
          records := records[ref := records[ref].(status := InConflict)];
        }
        assert FirstCalm(attempts, ref, pushed, i);
        return true;
      }
      return false;
    }

    /** This device's own write needs no choice: the base moves up to it, and the edit stays what it was. */
    method AbsorbSameDevicePushConflict(c: Conflict) returns (absorbed: bool)
      requires Valid()
      modifies this`records
      ensures Valid()
      ensures absorbed <==> Absorbable(c, device)
      ensures State() == if absorbed then Absorb(old(State()), RefOf(OWNER, c.local), c) else old(State())
      ensures records.Keys == old(records).Keys && forall ref :: Unlost(old(records), records, ref)
      ensures forall ref :: ref in records ==> records[ref].entity == old(records)[ref].entity && records[ref].base >= old(records)[ref].base
      ensures var ref := RefOf(OWNER, c.local); absorbed && ref in records ==> records[ref].base >= c.remote.Version()
    {
      if c.reason != RemoteChanged || c.remote.DeviceId() != device {
        return false;
      }
      var ref := RefOf(OWNER, c.local);
      if ref in records {
        var l := records[ref];
        records := records[ref := Local(l.entity, if l.status == Deleted then Deleted else Pending, Max(l.base, c.remote.Version()))];
      }
      return true;
    }

    /**
     One conflict of a push response: this device's own write is absorbed; about anything else the user is asked, unless the
     record keeps changing. Undisturbed it is the one step of the protocol.
     */
    method HandlePushConflict(c: Conflict, id: nat, pushed: Option<Entity>, attempts: seq<Attempt>) returns (handled: bool)
      requires Valid() && Fitting(c) && |attempts| == ATTEMPTS && AllSound(attempts, device)
      modifies this
      ensures Valid()
      ensures Absorbable(c, device) || attempts[0] == Attempt(old(State()), old(State())) ==>
        handled && State() == Refuse(old(State()), OWNER, c, id) && forall ref :: Unlost(old(records), records, ref)
      ensures Absorbable(c, device) ==> conflicts == old(conflicts)
      ensures !Absorbable(c, device) ==> (handled <==> exists i: nat :: FirstCalm(attempts, RefOf(OWNER, c.local), pushed, i))
      ensures !Absorbable(c, device) && handled ==> id in conflicts && !conflicts[id].resolved && conflicts[id].conflict.remote == c.remote
    {
      hide WellKept, Client.SaveConflict, Absorb, Unlost;
      ghost var was := State();
      var absorbed := AbsorbSameDevicePushConflict(c);
      if absorbed {
        return true;
      }
      CalmSaveIsOneStep(was, pushed, id, c);
      assert attempts[0] in attempts;
      SavedIsSound(attempts[0], pushed, id, c);
      assert attempts[0] == Attempt(was, was) ==> FirstCalm(attempts, RefOf(OWNER, c.local), pushed, 0);
      handled := SaveConflict(c, id, pushed, attempts);
    }

    /** repairSameDevicePendingConflicts over the stored conflicts in the order the query lists them. */
    method RepairSameDevicePendingConflicts(ids: seq<nat>)
      requires Valid()
      modifies this
      ensures Valid()
      ensures State() == Repaired(old(State()), ids)
    {
      for i := 0 to |ids|
        invariant Valid()
        invariant State() == Repaired(old(State()), ids[..i])
      {
        assert ids[..i + 1][..i] == ids[..i];
        var id := ids[i];
        if id in conflicts && !conflicts[id].resolved {
          var c := conflicts[id].conflict;
          var absorbed := AbsorbSameDevicePushConflict(c);
          if absorbed {
            conflicts := conflicts[id := Stored(c, true)];
          }
        }
      }
      assert ids[..|ids|] == ids;
    }

    /**
     mergeRemoteNote and mergeRemoteNotebook. No edit of any record is lost; a record without edits becomes the row; a new
     conflict (ids are new) is raised exactly when another device changed the content on another base, and stores both sides.
     */
    method MergeRemote(remote: Entity, id: nat)
      requires Valid()
      modifies this
      ensures Valid()
      ensures forall ref :: Unlost(old(records), records, ref)
      ensures id !in old(conflicts) ==> (id in conflicts <==> Clashes(old(State()), OWNER, remote))
      ensures Clashes(old(State()), OWNER, remote) ==>
        conflicts == old(conflicts)[id := Stored(Conflict(RemoteChanged, old(records)[RefOf(OWNER, remote)].entity, remote), false)]
      ensures var ref := RefOf(OWNER, remote);
        ref !in old(records) || (old(records)[ref].status != Pending && old(records)[ref].status != InConflict) ==>
          records == old(records)[ref := Local(remote, Synced, remote.Version())]
      ensures State() == MergeOne(old(State()), OWNER, remote, id)
    {
      var ref := RefOf(OWNER, remote);
      if ref !in records {
        records := records[ref := Local(remote, Synced, remote.Version())];
        return;
      }
      var l := records[ref];
      if l.status == Pending && l.base != remote.Version() && RecordsDiffer(l.entity, remote) {
        if remote.DeviceId() == device {
          if remote.Version() > l.base {
            records := records[ref := l.(base := remote.Version())];
          }
          return;
        }
        conflicts := conflicts[id := Stored(Conflict(RemoteChanged, l.entity, remote), false)];
        records := records[ref := l.(status := InConflict)];
        return;
      }
      if l.status != Pending && l.status != InConflict {
        records := records[ref := Local(remote, Synced, remote.Version())];
      }
    }

    /** The two merge loops: notebooks first, then notes; then the references to notebooks deleted on both sides. */
    method MergeRemoteChanges(notes: seq<Entity>, notebooks: seq<Entity>, id: nat, now: Time)
      requires Valid()
      modifies this
      ensures Valid()
      ensures
        var merged := MergeAll(old(State()), OWNER, notebooks + notes, id);
        State() == merged.(records := DropAll(merged.records, GoneNotebooks(merged.records, notebooks), device, now))
    {
      hide WellKept, MergeOne, Unlost, Clashes, RecordsDiffer, CanApplyRemoteDelete;
      var all := notebooks + notes;
      for i := 0 to |all|
        invariant Valid()
        invariant State() == MergeAll(old(State()), OWNER, all[..i], id)
      {
        assert all[..i + 1][..i] == all[..i];
        MergeRemote(all[i], id + i);
      }
      assert all[..|all|] == all;
      var gone: seq<string> := [];
      for i := 0 to |notebooks|
        invariant gone == GoneNotebooks(records, notebooks[..i])
      {
        assert notebooks[..i + 1][..i] == notebooks[..i];
        var e := notebooks[i];
        var ref := RefOf(OWNER, e);
        if e.IsDeleted() && ref in records && records[ref].entity.IsDeleted() && CanApplyRemoteDelete(records[ref]) {
          gone := gone + [e.Id()];
        }
      }
      assert notebooks[..|notebooks|] == notebooks;
      RemoveDeletedNotebookReferences(gone, now);
    }

    method ApplyRemoteDeletes(refs: seq<Ref>) returns (cleared: seq<Ref>)
      requires Valid()
      modifies this`records
      ensures Valid()
      ensures State() == old(State()).(records := DeleteRecords(old(records), refs))
      ensures cleared == Cleared(old(records), refs)
    {
      cleared := [];
      for i := 0 to |refs|
        invariant Valid()
        invariant records == DeleteRecords(old(records), refs[..i])
        invariant cleared == Cleared(old(records), refs[..i])
      {
        assert refs[..i + 1][..i] == refs[..i];
        var ref := refs[i];
        if ref !in records {
          if ref.kind == NotebookKind { cleared := cleared + [ref]; }
        } else if CanApplyRemoteDelete(records[ref]) {
          records := records - {ref};
          if ref.kind == NotebookKind { cleared := cleared + [ref]; }
        }
      }
      assert refs[..|refs|] == refs;
    }

    method UnlinkOne(l: Local, notebook: string, now: Time) returns (update: Option<Local>)
      ensures Unlinked(l, notebook, device, now) == if update.Some? then update.value else l
    {
      hide NoteNotebookIds, Rewritten, Without;
      if !CanRewrite(l) {
        return None;
      }
      var ids := NoteNotebookIds(l.entity.note);
      return if notebook in ids then Some(Rewritten(l, Without(ids, notebook), device, now)) else None;
    }

    /** removeLocalNoteNotebookReferences: collect the rewritten notes, then put them all. */
    method RemoveNotebookReferences(notebook: string, now: Time)
      modifies this`records
      ensures State() == old(State()).(records := DropNotebook(old(records), notebook, device, now))
    {
      hide Unlinked, Collected, DropNotebook, Unlinker;
      ghost var f := Unlinker(notebook, device, now);
      var updates: map<Ref, Local> := map[];
      var todo := records.Keys;
      CollectNone(records, f);
      while todo != {}
        invariant todo <= records.Keys && records == old(records)
        invariant Collected(records, updates, todo, f)
        decreases |todo|
      {
        var ref :| ref in todo;
        CollectOne(records, updates, todo, f, ref);
        todo := todo - {ref};
        var update := UnlinkOne(records[ref], notebook, now);
        UnlinkerIs(records[ref], notebook, device, now);
        if update.Some? {
          updates := updates[ref := update.value];
        }
      }
      CollectDone(records, updates, f);
      DropNotebookIs(records, notebook, device, now);
      records := records + updates;
    }

    method RemoveDeletedNotebookReferences(notebooks: seq<string>, now: Time)
      requires Valid()
      modifies this`records
      ensures Valid()
      ensures State() == old(State()).(records := DropAll(old(records), notebooks, device, now))
    {
      for i := 0 to |notebooks|
        invariant Valid()
        invariant records == DropAll(old(records), notebooks[..i], device, now)
      {
        assert notebooks[..i + 1][..i] == notebooks[..i];
        DroppedKeyed(records, notebooks[i], device, now);
        RemoveNotebookReferences(notebooks[i], now);
      }
      assert notebooks[..|notebooks|] == notebooks;
    }

    method RelinkOne(l: Local, from: string, to: string, now: Time) returns (update: Option<Local>)
      ensures Relinked(l, from, to, device, now) == if update.Some? then update.value else l
    {
      hide NoteNotebookIds, Rewritten, Replaced;
      if !CanRewrite(l) {
        return None;
      }
      var ids := NoteNotebookIds(l.entity.note);
      return if from in ids && Replaced(ids, from, to) != ids then Some(Rewritten(l, Replaced(ids, from, to), device, now)) else None;
    }

    /** remapLocalNoteNotebookReferences. */
    method RemapNotebookReferences(from: string, to: string, now: Time)
      modifies this`records
      ensures State() == old(State()).(records := MoveNotebook(old(records), from, to, device, now))
    {
      hide Relinked, Collected, MoveNotebook, Relinker;
      ghost var f := Relinker(from, to, device, now);
      var updates: map<Ref, Local> := map[];
      var todo := records.Keys;
      CollectNone(records, f);
      while todo != {}
        invariant todo <= records.Keys && records == old(records)
        invariant Collected(records, updates, todo, f)
        decreases |todo|
      {
        var ref :| ref in todo;
        CollectOne(records, updates, todo, f, ref);
        todo := todo - {ref};
        var update := RelinkOne(records[ref], from, to, now);
        RelinkerIs(records[ref], from, to, device, now);
        if update.Some? {
          updates := updates[ref := update.value];
        }
      }
      CollectDone(records, updates, f);
      MoveNotebookIs(records, from, to, device, now);
      records := records + updates;
    }

    /** uniqueNotebookCopyName over the notebooks as they are now. */
    method UniqueCopyName(name: string, excluded: set<string>) returns (r: string)
      requires FreshNames.Folding(fold)
      ensures FreshNames.IsCopyName(fold, name, OtherNames(fold, records, excluded), r)
    {
      hide FreshNames.Normalized, FreshNames.Folding, Counts, FreshNames.NormalizedNames, NamesAt;
      var names: seq<string> := [];
      var todo := records.Keys;
      assert records.Keys - todo == {};
      NoNames(fold, records, excluded);
      while todo != {}
        invariant todo <= records.Keys
        invariant FreshNames.NormalizedNames(fold, names) == NamesAt(fold, records, records.Keys - todo, excluded)
        decreases |todo|
      {
        var ref :| ref in todo;
        NamesAtOneMore(fold, records, records.Keys - todo, ref, excluded);
        assert records.Keys - (todo - {ref}) == records.Keys - todo + {ref};
        todo := todo - {ref};
        if Counts(records, ref, excluded) {
          CountsMeans(records, ref, excluded);
          NormalizedOneMore(fold, names, records[ref].entity.notebook.name);
          names := names + [records[ref].entity.notebook.name];
        }
      }
      assert records.Keys - todo == records.Keys;
      r := FreshNames.NotebookCopyName(fold, name, names);
    }

    /** resolveConflict: the whole new state, for every reason and every choice. */
    method ResolveConflict(id: nat, choice: Choice, copy: string, now: Time) returns (ghost name: string)
      requires Valid()
      modifies this
      ensures Valid()
      ensures State() == ResolveOne(old(State()), OWNER, id, choice, copy, name, now)
      ensures id in old(conflicts) && !old(conflicts)[id].resolved && old(conflicts)[id].conflict.reason == DuplicateName ==>
        var c := old(conflicts)[id].conflict;
        !SelectsRemote(c.local, c.remote, choice) ==>
          CopyNameIsFree(fold, c, old(records), copy, name)
    {
      name := "";
      if id !in conflicts || conflicts[id].resolved {
        return;
      }
      var c := conflicts[id].conflict;
      if c.reason == DuplicateName {
        name := ResolveDuplicateName(c, choice, copy, now);
      } else if choice == DuplicateBoth {
        KeepBoth(c, copy, now);
      } else {
        KeepOne(c, choice, now);
      }
      conflicts := conflicts[id := Stored(c, true)];
      ResolveKeepsWell(old(State()), id, choice, copy, name, now);
    }

    method KeepBoth(c: Conflict, copy: string, now: Time)
      modifies this`records
      ensures records == ResolvedRecords(old(records), OWNER, c, DuplicateBoth, copy, device, now)
    {
      var ref := RefOf(OWNER, c.remote);
      records := records[ref := FromRemote(c.remote)];
      records := records[ref.(id := copy) := CopyOf(c.local, copy, CopyTitle(c.local), device, now)];
      if c.local.NotebookEntity? {
        RemapNotebookReferences(c.local.Id(), copy, now);
      }
    }

    method KeepOne(c: Conflict, choice: Choice, now: Time)
      requires choice != DuplicateBoth
      modifies this`records
      ensures records == ResolvedRecords(old(records), OWNER, c, choice, "", device, now)
    {
      var ref := RefOf(OWNER, c.remote);
      var remote := SelectsRemote(c.local, c.remote, choice);
      if remote {
        records := records[ref := Local(c.remote, Synced, c.remote.Version())];
      } else {
        records := records[ref := Local(WithDevice(c.local, device).WithVersion(NextVersionAfter(c.remote.Version())), Pending, c.remote.Version())];
      }
      if c.remote.NotebookEntity? && remote && c.remote.IsDeleted() {
        RemoveNotebookReferences(c.remote.Id(), now);
      }
    }

    method ResolveDuplicateName(c: Conflict, choice: Choice, copy: string, now: Time) returns (name: string)
      requires FreshNames.Folding(fold)
      modifies this`records
      ensures records == ResolvedNames(old(records), OWNER, c, choice, copy, name, device, now)
      ensures !SelectsRemote(c.local, c.remote, choice) ==>
        CopyNameIsFree(fold, c, old(records), copy, name)
    {
      hide MoveNotebook, CopyOf, FreshNames.IsCopyName, FreshNames.Folding, OtherNames, SelectsRemote;
      var ref, remoteRef := RefOf(OWNER, c.local), RefOf(OWNER, c.remote);
      var keepRemote := choice != DuplicateBoth && SelectsRemote(c.local, c.remote, choice);
      name := "";
      if keepRemote {
        records := records[remoteRef := FromRemote(c.remote)];
        RemapNotebookReferences(c.local.Id(), c.remote.Id(), now);
        if ref != remoteRef {
          records := records - {ref};
        }
        return;
      }
      records := records[remoteRef := FromRemote(c.remote)];
      name := UniqueCopyName(LocalName(c), {c.local.Id(), c.remote.Id(), copy});
      var copyRef := ref.(id := copy);
      records := records[copyRef := CopyOf(c.local, copy, name, device, now)];
      RemapNotebookReferences(c.local.Id(), copy, now);
      if ref != copyRef {
        records := records - {ref};
      }
    }
  }
}
