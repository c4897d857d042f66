/** Sending an accepted push again. */
module Retry {
  import opened Wrappers
  import opened SyncSpec
  import opened Tables
  import opened Push
  import opened Names
  import Seqs
  import Text

  ghost predicate AllAccepted(verdicts: seq<Verdict>) {
    forall v :: v in verdicts ==> v.Accepted()
  }

  /** Every reference of the note survives the push that stores it. */
  predicate RefsSyncable(s: Store, owner: string, note: Note) {
    !RefsChanged(note, Syncable(s, owner, note))
  }

  /** `t` holds an entity with the content of the change. */
  ghost predicate Holds(t: Store, owner: string, c: Change) {
    var ref := RefOf(owner, c.record);
    ref in t.rows && ContentOf(t.rows[ref].entity) == ContentOf(c.record)
  }

  lemma SyncableContent(s: Store, owner: string, note: Note)
    requires RefsSyncable(s, owner, note)
    ensures Syncable(s, owner, note) == note
  {
  }

  /** Syncability depends on the notebooks only. */
  lemma SyncableSame(s: Store, t: Store, owner: string, note: Note)
    requires forall id :: LiveNotebook(s, owner, id) <==> LiveNotebook(t, owner, id)
    ensures Syncable(s, owner, note) == Syncable(t, owner, note)
  {
    Seqs.SameFilter(NoteNotebookIds(note), id => LiveNotebook(s, owner, id), id => LiveNotebook(t, owner, id));
  }

  lemma AcceptedNoteHolds(s: Store, t: Store, owner: string, c: Change)
    requires c.record.NoteEntity? && RefsSyncable(s, owner, c.record.note)
    requires NoteVerdict(s, owner, c, CLIENT).Accepted()
    requires RefOf(owner, c.record) in t.rows
    requires t.rows[RefOf(owner, c.record)].entity == NoteVerdict(s, owner, c, CLIENT).entity
    ensures Holds(t, owner, c)
  {
    SyncableContent(s, owner, c.record.note);
    var ref := RefOf(owner, c.record);
    if ref in s.rows {
      RecordsDifferIffContentDiffers(c.record, s.rows[ref].entity);
    }
  }

  lemma HeldNoteIsKept(t: Store, owner: string, c: Change)
    requires c.record.NoteEntity? && RefsSyncable(t, owner, c.record.note) && Holds(t, owner, c)
    ensures NoteVerdict(t, owner, c, CLIENT) == Kept(t.rows[RefOf(owner, c.record)].entity)
  {
    SyncableContent(t, owner, c.record.note);
    RecordsDifferIffContentDiffers(c.record, t.rows[RefOf(owner, c.record)].entity);
  }

  /** A notebook with one key keeps it as long as its content is the same: the row holds it too. */
  lemma SameContentSharesKey(record: Notebook, row: Notebook, k: NameKey)
    requires OneKey(record) && Regular(row) && k in DuplicateKeys(record)
    requires ContentOf(NotebookEntity(record)) == ContentOf(NotebookEntity(row))
    ensures k in DuplicateKeys(row) && row.deletedAt == record.deletedAt
  {
    hide FoldedName, StoredFold, IsEncryptedName, Text.Trim;
    Text.TrimOfTight("");
  }

  /** Every remembered name is one of an active row that has the key. */
  ghost predicate OwnKeys(t: Store, owner: string, acc: Acc) {
    forall k :: k in acc.active ==> KeyedBy(t, owner, k, Ref(owner, NotebookKind, acc.active[k].id))
  }

  ghost predicate KeyedBy(t: Store, owner: string, k: NameKey, ref: Ref) {
    Active(t, owner, ref) && k in DuplicateKeys(t.rows[ref].entity.notebook)
  }

  /** With unique names, a stored notebook has no duplicate but itself. */
  lemma HeldNotebookHasNoDuplicate(t: Store, owner: string, scan: seq<Ref>, acc: Acc, c: Change)
    requires Inv(t) && NamesOk(t, owner) && OwnKeys(t, owner, acc)
    requires c.record.NotebookEntity? && OneKey(c.record.notebook) && Holds(t, owner, c)
    ensures Duplicate(t, owner, scan, acc, c.record.notebook) == None
  {
    hide FirstStoredDuplicate, FirstAccepted, OneKey, Inv, DuplicateKeys, RowHasKey, NamesOk, ContentOf;
    var record := c.record.notebook;
    if record.deletedAt.None? {
      var own := RefOf(owner, c.record);
      var keys := DuplicateKeys(record);
      OwnRowActive(t, owner, c);
      forall k | k in keys && k in acc.active ensures acc.active[k].id == record.id {
        HolderIsOwn(t, owner, c, k, Ref(owner, NotebookKind, acc.active[k].id));
      }
      assert FirstAccepted(acc.active, record, keys) == None;
      NoStoredDuplicate(t, owner, scan, c);
    }
  }

  lemma OwnRowActive(t: Store, owner: string, c: Change)
    requires Inv(t) && NamesOk(t, owner)
    requires c.record.NotebookEntity? && OneKey(c.record.notebook) && Holds(t, owner, c) && !c.record.IsDeleted()
    ensures var own := RefOf(owner, c.record);
      && Active(t, owner, own) && Regular(t.rows[own].entity.notebook)
      && forall k :: k in DuplicateKeys(c.record.notebook) ==> k in DuplicateKeys(t.rows[own].entity.notebook)
  {
    hide OneKey, Regular, DuplicateKeys, UniqueNames;
    var own := RefOf(owner, c.record);
    InvAt(t, own);
    assert Active(t, owner, own);
    forall k | k in DuplicateKeys(c.record.notebook) ensures k in DuplicateKeys(t.rows[own].entity.notebook) {
      SameContentSharesKey(c.record.notebook, t.rows[own].entity.notebook, k);
    }
  }

  /** Only the notebook's own row has its key. */
  lemma HolderIsOwn(t: Store, owner: string, c: Change, k: NameKey, ref: Ref)
    requires Inv(t) && NamesOk(t, owner) && KeyedBy(t, owner, k, ref)
    requires c.record.NotebookEntity? && OneKey(c.record.notebook) && Holds(t, owner, c) && !c.record.IsDeleted()
    requires k in DuplicateKeys(c.record.notebook)
    ensures ref == RefOf(owner, c.record)
  {
    hide OneKey, Regular, DuplicateKeys, RegularRows;
    OwnRowActive(t, owner, c);
    OnlyOne(t, owner, ref, RefOf(owner, c.record), k);
  }

  lemma NoStoredDuplicate(t: Store, owner: string, scan: seq<Ref>, c: Change)
    requires Inv(t) && NamesOk(t, owner)
    requires c.record.NotebookEntity? && OneKey(c.record.notebook) && Holds(t, owner, c) && !c.record.IsDeleted()
    ensures FirstStoredDuplicate(t, owner, scan, c.record.notebook, DuplicateKeys(c.record.notebook)) == None
  {
    hide FirstStoredDuplicate, Regular, DuplicateKeys, RowHasKey, UniqueNames;
    var record := c.record.notebook;
    forall ref, k | k in DuplicateKeys(record) ensures !IsCandidate(t, owner, ref, record, k) {
      if IsCandidate(t, owner, ref, record, k) {
        InvAt(t, ref);
        FoundIffKey(t.rows[ref].entity.notebook, record, k);
        HolderIsOwn(t, owner, c, k, ref);
      }
    }
  }

  ghost predicate KeptAll(t: Store, owner: string, changes: seq<Change>, verdicts: seq<Verdict>)
    requires |verdicts| == |changes|
  {
    forall i :: 0 <= i < |changes| ==>
      var ref := RefOf(owner, changes[i].record);
      ref in t.rows && verdicts[i] == Kept(t.rows[ref].entity)
  }

  lemma {:induction false} NotebooksKept(t: Store, owner: string, scan: seq<Ref>, changes: seq<Change>)
    requires Inv(t) && NamesOk(t, owner) && OneKeyChanges(changes)
    requires forall c :: c in changes ==> Holds(t, owner, c)
    ensures
      var acc := NotebookVerdicts(t, owner, scan, changes, CLIENT);
      KeptAll(t, owner, changes, acc.verdicts) && OwnKeys(t, owner, acc)
  {
    hide *;
    if changes == [] {
      NothingKept(t, owner, scan);
    } else {
      var front, c := changes[..|changes| - 1], changes[|changes| - 1];
      assert changes == front + [c];
      LastHolds(t, owner, changes);
      NotebooksKept(t, owner, scan, front);
      NotebookKept(t, owner, scan, front, c);
    }
  }

  lemma NothingKept(t: Store, owner: string, scan: seq<Ref>)
    ensures AllNotebooks([])
    ensures
      var acc := NotebookVerdicts(t, owner, scan, [], CLIENT);
      KeptAll(t, owner, [], acc.verdicts) && OwnKeys(t, owner, acc)
  {
  }

  lemma LastHolds(t: Store, owner: string, changes: seq<Change>)
    requires changes != [] && OneKeyChanges(changes) && forall c :: c in changes ==> Holds(t, owner, c)
    ensures var front, c := changes[..|changes| - 1], changes[|changes| - 1];
      && OneKeyChanges(front) && AllNotebooks(front) && (forall x :: x in front ==> Holds(t, owner, x))
      && Holds(t, owner, c) && c.record.NotebookEntity? && OneKey(c.record.notebook)
  {
    hide Holds, OneKey;
    forall x | x in changes[..|changes| - 1] ensures x in changes {}
    assert changes[|changes| - 1] in changes;
  }

  lemma NotebookKept(t: Store, owner: string, scan: seq<Ref>, front: seq<Change>, c: Change)
    requires Inv(t) && NamesOk(t, owner) && AllNotebooks(front)
    requires c.record.NotebookEntity? && OneKey(c.record.notebook) && Holds(t, owner, c)
    requires
      var acc := NotebookVerdicts(t, owner, scan, front, CLIENT);
      KeptAll(t, owner, front, acc.verdicts) && OwnKeys(t, owner, acc)
    ensures AllNotebooks(front + [c])
    ensures
      var acc := NotebookVerdicts(t, owner, scan, front + [c], CLIENT);
      KeptAll(t, owner, front + [c], acc.verdicts) && OwnKeys(t, owner, acc)
  {
    hide NotebookVerdict, NotebookVerdicts, NamesOk, OneKey, Holds, Inv, OwnKeys, KeptAll;
    var acc := NotebookVerdicts(t, owner, scan, front, CLIENT);
    HeldNotebookKept(t, owner, scan, acc, c);
    LoopLast(t, owner, scan, front, c, CLIENT);
    RecordKept(t, owner, front, acc, c);
  }

  /** The verdict on a notebook that is stored already. */
  lemma HeldNotebookKept(t: Store, owner: string, scan: seq<Ref>, acc: Acc, c: Change)
    requires Inv(t) && NamesOk(t, owner) && OwnKeys(t, owner, acc)
    requires c.record.NotebookEntity? && OneKey(c.record.notebook) && Holds(t, owner, c)
    ensures NotebookVerdict(t, owner, scan, acc, c, CLIENT) == Kept(t.rows[RefOf(owner, c.record)].entity)
  {
    hide Duplicate, OneKey, NamesOk, OwnKeys, Inv, RecordsDiffer, ContentOf;
    HeldNotebookHasNoDuplicate(t, owner, scan, acc, c);
    RecordsDifferIffContentDiffers(c.record, t.rows[RefOf(owner, c.record)].entity);
  }

  lemma RecordKept(t: Store, owner: string, front: seq<Change>, acc: Acc, c: Change)
    requires Inv(t) && |acc.verdicts| == |front| && KeptAll(t, owner, front, acc.verdicts) && OwnKeys(t, owner, acc)
    requires c.record.NotebookEntity? && Holds(t, owner, c)
    ensures var next := Record(acc, Kept(t.rows[RefOf(owner, c.record)].entity));
      |next.verdicts| == |front + [c]| && KeptAll(t, owner, front + [c], next.verdicts) && OwnKeys(t, owner, next)
  {
    hide DuplicateKeys, ContentOf, Inv;
    InvAt(t, RefOf(owner, c.record));
  }

  lemma {:induction false} KeptAppliesNothing(s: Store, owner: string, verdicts: seq<Verdict>, now: Time)
    requires forall v :: v in verdicts ==> v.Kept?
    ensures ApplyVerdicts(s, owner, verdicts, now) == s
  {
    if verdicts != [] {
      assert verdicts[|verdicts| - 1] in verdicts;
      forall v | v in verdicts[..|verdicts| - 1] ensures v in verdicts {}
      KeptAppliesNothing(s, owner, verdicts[..|verdicts| - 1], now);
    }
  }

  /** What the second run needs to know about the first. */
  ghost predicate Settled(t: Store, owner: string, request: Request) {
    && Inv(t) && NamesOk(t, owner)
    && (forall c :: c in request.notebooks ==> Holds(t, owner, c))
    && (forall c :: c in request.notes ==>
          var ref := RefOf(owner, c.record);
          c.record.NoteEntity? && ref in t.rows && NoteVerdict(t, owner, c, CLIENT) == Kept(t.rows[ref].entity))
  }

  lemma SettledRunChangesNothing(t: Store, owner: string, scan: seq<Ref>, request: Request, now: Time)
    requires WellFormed(request) && OneKeyChanges(request.notebooks) && Settled(t, owner, request)
    ensures var again := Run(t, owner, scan, request, CLIENT, now);
      && again.store == t
      && KeptAll(t, owner, request.notebooks, again.notebooks)
      && KeptAll(t, owner, request.notes, again.notes)
  {
    hide OneKey, UniqueNames, NotebookVerdict, NoteVerdict, Inv, Holds;
    NotebooksKept(t, owner, scan, request.notebooks);
    var notebooks := NotebookVerdicts(t, owner, scan, request.notebooks, CLIENT).verdicts;
    forall v | v in notebooks ensures v.Kept? {}
    KeptAppliesNothing(t, owner, notebooks, now);
    var notes := NoteVerdicts(t, owner, request.notes, CLIENT);
    assert KeptAll(t, owner, request.notes, notes);
    forall v | v in notes ensures v.Kept? {}
    KeptAppliesNothing(t, owner, notes, now);
  }

  ghost predicate FullyAccepted(s: Store, owner: string, request: Request, first: Outcome, now: Time) {
    && AllAccepted(first.notebooks) && AllAccepted(first.notes)
    && forall c :: c in request.notes ==>
         c.record.NoteEntity? && RefsSyncable(ApplyVerdicts(s, owner, first.notebooks, now), owner, c.record.note)
  }

  /** The first outcome stored, for every change, the entity it answered with. */
  ghost predicate Answered(t: Store, owner: string, changes: seq<Change>, verdicts: seq<Verdict>)
    requires |verdicts| == |changes|
  {
    forall i :: 0 <= i < |changes| ==>
      var ref := RefOf(owner, changes[i].record);
      ref in t.rows && verdicts[i].Accepted() && verdicts[i].entity == t.rows[ref].entity
  }

  lemma FirstRunSettles(s: Store, owner: string, scan: seq<Ref>, request: Request, now: Time)
    requires Inv(s) && NamesOk(s, owner) && Covers(scan, s)
    requires WellFormed(request) && UniqueIds(request.notebooks) && UniqueIds(request.notes)
    requires OneKeyChanges(request.notebooks)
    requires FullyAccepted(s, owner, request, Run(s, owner, scan, request, CLIENT, now), now)
    ensures var first := Run(s, owner, scan, request, CLIENT, now);
      && Settled(first.store, owner, request)
      && Answered(first.store, owner, request.notebooks, first.notebooks)
      && Answered(first.store, owner, request.notes, first.notes)
  {
    hide OneKeyChanges, NamesOk, Holds, NoteVerdict, NotebookVerdict, Inv, Run, Effect, LawfulAll, Evolves, Rises, WellFormed, UniqueIds, RefsSyncable;
    var first := Run(s, owner, scan, request, CLIENT, now);
    var t := first.store;
    RunPhases(s, owner, scan, request, CLIENT, now);
    PushKeepsNamesUnique(s, owner, scan, request, CLIENT, now);
    forall i | 0 <= i < |request.notebooks|
      ensures Holds(t, owner, request.notebooks[i]) && RefOf(owner, request.notebooks[i].record) in t.rows
      ensures first.notebooks[i].Accepted()
      ensures t.rows[RefOf(owner, request.notebooks[i].record)].entity == first.notebooks[i].entity
    {
      FirstNotebookHolds(s, owner, scan, request, now, i);
    }
    forall i | 0 <= i < |request.notes|
      ensures RefOf(owner, request.notes[i].record) in t.rows && request.notes[i].record.NoteEntity?
      ensures first.notes[i].Accepted()
      ensures NoteVerdict(t, owner, request.notes[i], CLIENT) == Kept(t.rows[RefOf(owner, request.notes[i].record)].entity)
      ensures t.rows[RefOf(owner, request.notes[i].record)].entity == first.notes[i].entity
    {
      FirstNoteHolds(s, owner, scan, request, now, i);
    }
  }

  /** The second time every verdict keeps the entity the first one accepted. */
  ghost predicate SameAnswers(first: seq<Verdict>, again: seq<Verdict>) {
    |again| == |first| && forall i :: 0 <= i < |first| ==> first[i].Accepted() && again[i] == Kept(first[i].entity)
  }

  /**
   Re-sending a push whose changes were all accepted, with references that were all syncable, changes no row, no
   tombstone and no log entry, reports no conflict and answers with the entities stored the first time.
   */
  lemma RetryIsIdempotent(s: Store, owner: string, scan: seq<Ref>, scan': seq<Ref>, request: Request, now: Time, now': Time)
    requires Inv(s) && NamesOk(s, owner) && Covers(scan, s)
    requires WellFormed(request) && UniqueIds(request.notebooks) && UniqueIds(request.notes)
    requires OneKeyChanges(request.notebooks)
    requires FullyAccepted(s, owner, request, Run(s, owner, scan, request, CLIENT, now), now)
    ensures
      var first := Run(s, owner, scan, request, CLIENT, now);
      var again := Run(first.store, owner, scan', request, CLIENT, now');
      && again.store == first.store
      && SameAnswers(first.notebooks, again.notebooks)
      && SameAnswers(first.notes, again.notes)
  {
    hide Settled, FullyAccepted, OneKeyChanges, NamesOk, Covers, Inv, Run;
    var first := Run(s, owner, scan, request, CLIENT, now);
    FirstRunSettles(s, owner, scan, request, now);
    SettledRunChangesNothing(first.store, owner, scan', request, now');
  }

  lemma FirstNotebookHolds(s: Store, owner: string, scan: seq<Ref>, request: Request, now: Time, i: nat)
    requires Inv(s)
    requires WellFormed(request) && UniqueIds(request.notebooks) && UniqueIds(request.notes)
    requires i < |request.notebooks| && Run(s, owner, scan, request, CLIENT, now).notebooks[i].Accepted()
    ensures
      var first := Run(s, owner, scan, request, CLIENT, now);
      var ref := RefOf(owner, request.notebooks[i].record);
      && Holds(first.store, owner, request.notebooks[i])
      && first.store.rows[ref].entity == first.notebooks[i].entity
  {
    AcceptedNotebookIsStored(s, owner, scan, request, CLIENT, now, i);
    ContentOfNotebookVerdict(s, owner, scan, request.notebooks, i);
  }

  lemma {:induction false} ContentOfNotebookVerdict(s: Store, owner: string, scan: seq<Ref>, changes: seq<Change>, i: nat)
    requires AllNotebooks(changes) && i < |changes|
    requires NotebookVerdicts(s, owner, scan, changes, CLIENT).verdicts[i].Accepted()
    ensures ContentOf(NotebookVerdicts(s, owner, scan, changes, CLIENT).verdicts[i].entity) == ContentOf(changes[i].record)
  {
    VerdictsLawful(s, owner, scan, changes, CLIENT);
    assert Lawful(s, owner, changes[i], NotebookVerdicts(s, owner, scan, changes, CLIENT).verdicts[i], CLIENT);
    assert changes[i] in changes;
  }

  lemma SameLive(s: Store, t: Store, owner: string, changes: seq<Change>, verdicts: seq<Verdict>)
    requires |verdicts| == |changes| && Effect(s, t, owner, changes, verdicts) && AllNotes(changes)
    ensures forall id :: LiveNotebook(s, owner, id) <==> LiveNotebook(t, owner, id)
  {
    forall id ensures LiveNotebook(s, owner, id) <==> LiveNotebook(t, owner, id) {
      var ref := Ref(owner, NotebookKind, id);
      PhasesApart(s, t, owner, changes, verdicts, ref);
      assert RowAt(s, ref) == RowAt(t, ref);
    }
  }

  lemma FirstNoteHolds(s: Store, owner: string, scan: seq<Ref>, request: Request, now: Time, i: nat)
    requires Inv(s)
    requires WellFormed(request) && UniqueIds(request.notebooks) && UniqueIds(request.notes)
    requires i < |request.notes| && Run(s, owner, scan, request, CLIENT, now).notes[i].Accepted()
    requires RefsSyncable(ApplyVerdicts(s, owner, Run(s, owner, scan, request, CLIENT, now).notebooks, now), owner,
                          request.notes[i].record.note)
    ensures
      var first := Run(s, owner, scan, request, CLIENT, now);
      var ref := RefOf(owner, request.notes[i].record);
      && ref in first.store.rows
      && first.store.rows[ref].entity == first.notes[i].entity
      && NoteVerdict(first.store, owner, request.notes[i], CLIENT) == Kept(first.store.rows[ref].entity)
  {
    hide NoteVerdict, Inv, Effect, LawfulAll, NotebookVerdicts;
    var first := Run(s, owner, scan, request, CLIENT, now);
    var mid := ApplyVerdicts(s, owner, first.notebooks, now);
    var c := request.notes[i];
    AcceptedNoteIsStored(s, owner, scan, request, CLIENT, now, i);
    AcceptedNoteHolds(mid, first.store, owner, c);
    RunPhases(s, owner, scan, request, CLIENT, now);
    SameLive(mid, first.store, owner, request.notes, first.notes);
    SyncableSame(mid, first.store, owner, c.record.note);
    HeldNoteIsKept(first.store, owner, c);
  }
}
